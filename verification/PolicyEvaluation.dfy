/** Execution policies: which rules apply to a context, and which of them decides. */
module PolicyEvaluation {
  import opened Wrappers
  import opened CodePoints
  import opened Tasks
  import opened CanonicalText

  datatype Decision = Allow | Deny | RequireApproval | Escalate

  function Severity(d: Decision): nat {
    match d
    case Deny => 4
    case Escalate => 3
    case RequireApproval => 2
    case Allow => 1
  }

  datatype Classification = Classification(
    source: Str, version: Str, classifiedAt: Option<int>, risk: Str, impact: Str, context: Json)

  /** None in a binding stands for a missing or non-text value. */
  datatype Context = Context(
    taskId: Option<Str>, missionId: Option<Str>, state: TaskState, approval: ApprovalState,
    division: Option<Str>, specialist: Option<Str>, capability: Option<Str>, adapter: Option<Str>,
    connector: Option<Str>, connectorVersion: Option<Str>, permission: Option<Str>, mode: Option<Str>,
    classification: Option<Classification>, policyId: Option<Str>, policyVersion: int,
    evaluatedAt: Option<int>, taskContext: map<Str, Json>, adapterType: Option<Str>)

  datatype Rule = Rule(
    id: Str, version: int, priority: int, decision: Decision, enabled: bool,
    from: Option<int>, until: Option<int>,
    division: Option<Str>, specialist: Option<Str>, capability: Option<Str>, permission: Option<Str>,
    adapter: Option<Str>, adapterType: Option<Str>, mode: Option<Str>, risk: Option<Str>, impact: Option<Str>)

  datatype Policy = Policy(id: Str, version: int, default: Decision, rules: seq<Rule>)

  datatype Evaluation = Evaluation(decision: Decision, ruleId: Option<Str>, ruleVersion: Option<int>, matched: seq<Str>)

  // ------------------------------------------------------------ valid contexts

  predicate IsSpace(c: Code) {
    0x09 <= c <= 0x0D || 0x1C <= c <= 0x20 || c in {0x85, 0xA0, 0x1680, 0x2028, 0x2029, 0x202F, 0x205F, 0x3000} || 0x2000 <= c <= 0x200A
  }

  /** `isinstance(value, str) and value.strip()` */
  predicate HasText(s: Option<Str>) { s.Some? && exists i :: 0 <= i < |s.value| && !IsSpace(s.value[i]) }

  /** Plain data: every container a list or a dict with text keys, every leaf a plain scalar. */
  predicate PlainData(v: Json) {
    match v
    case List(items) => forall i :: 0 <= i < |items| ==> PlainData(items[i])
    case Dict(entries) => forall k :: k in entries ==> PlainData(entries[k])
    case DictWithOtherKey => false
    case OtherObject => false
    case _ => true
  }

  predicate ValidClassification(c: Classification) {
    && HasText(Some(c.source)) && HasText(Some(c.version)) && HasText(Some(c.risk)) && HasText(Some(c.impact))
    && c.classifiedAt.Some? && c.context.Dict? && PlainData(c.context)
  }

  predicate ValidContext(c: Context) {
    && HasText(c.taskId) && HasText(c.missionId) && HasText(c.division) && HasText(c.specialist) && HasText(c.capability)
    && HasText(c.adapter) && HasText(c.permission) && HasText(c.mode) && HasText(c.policyId)
    && Compatible(c.state, c.approval) && c.evaluatedAt.Some? && c.policyVersion >= 1
    && c.classification.Some? && ValidClassification(c.classification.value) && PlainData(Dict(c.taskContext))
  }

  // ------------------------------------------------------------ rules that apply

  predicate Active(r: Rule, now: int) {
    r.enabled && r.id != [] && (r.from.Some? ==> r.from.value <= now) && (r.until.Some? ==> now <= r.until.value)
  }

  predicate Selects(wanted: Option<Str>, actual: Option<Str>) { wanted.Some? ==> wanted == actual }

  predicate Matches(r: Rule, c: Context)
    requires c.classification.Some?
  {
    && Selects(r.division, c.division) && Selects(r.specialist, c.specialist) && Selects(r.capability, c.capability)
    && Selects(r.permission, c.permission) && Selects(r.adapter, c.adapter) && Selects(r.adapterType, c.adapterType)
    && Selects(r.mode, c.mode)
    && Selects(r.risk, Some(c.classification.value.risk)) && Selects(r.impact, Some(c.classification.value.impact))
  }

  predicate Applies(r: Rule, c: Context)
    requires ValidContext(c)
  {
    Active(r, c.evaluatedAt.value) && Matches(r, c)
  }

  /** The applicable rules, in the policy's order. */
  function Applicable(rules: seq<Rule>, c: Context): (matches: seq<Rule>)
    requires ValidContext(c)
    ensures forall r :: r in matches <==> r in rules && Applies(r, c)
  {
    if rules == [] then []
    else
      var last := rules[|rules| - 1];
      assert rules == rules[..|rules| - 1] + [last];
      Applicable(rules[..|rules| - 1], c) + (if Applies(last, c) then [last] else [])
  }

  method EvaluateMatch(policy: Policy, c: Context) returns (matches: seq<Rule>)
    requires ValidContext(c)
    ensures matches == Applicable(policy.rules, c)
  {
    hide Applies, ValidContext;
    matches := [];
    for i := 0 to |policy.rules|
      invariant matches == Applicable(policy.rules[..i], c)
    {
      assert policy.rules[..i + 1][..i] == policy.rules[..i];
      if Applies(policy.rules[i], c) { matches := matches + [policy.rules[i]]; }
    }
    assert policy.rules[..|policy.rules|] == policy.rules;
  }

  // ------------------------------------------------------------ the deciding rule

  /** A rule with no start counts as starting at the epoch. */
  function StartTime(r: Rule): int { if r.from.Some? then r.from.value else 0 }

  /** The later of two candidates displaces the earlier one. */
  predicate Beats(r: Rule, w: Rule) {
    Severity(r.decision) > Severity(w.decision)
    || (Severity(r.decision) == Severity(w.decision) && (r.version > w.version
        || (r.version == w.version && (StartTime(r) > StartTime(w)
            || (StartTime(r) == StartTime(w) && r.id != w.id && Leq(r.id, w.id))))))
  }

  lemma BeatsTrans(a: Rule, b: Rule, c: Rule)
    requires !Beats(b, a) && Beats(c, a)
    ensures !Beats(b, c)
  {
    if b.id != c.id && Leq(b.id, c.id) && c.id != a.id && Leq(c.id, a.id) { LeqTrans(b.id, c.id, a.id); }
    LeqTotal(b.id, a.id);
    LeqTotal(b.id, c.id);
    LeqTotal(a.id, c.id);
  }

  /** First by priority, then by severity, version, start, and the smallest id. */
  ghost predicate Decides(w: Rule, matches: seq<Rule>) {
    w in matches && forall r :: r in matches ==> r.priority <= w.priority && (r.priority == w.priority ==> !Beats(r, w))
  }

  method Highest(matches: seq<Rule>) returns (priority: int)
    requires matches != []
    ensures forall r :: r in matches ==> r.priority <= priority
    ensures exists r :: r in matches && r.priority == priority
  {
    priority := matches[0].priority;
    for i := 1 to |matches|
      invariant forall r :: r in matches[..i] ==> r.priority <= priority
      invariant exists r :: r in matches && r.priority == priority
    {
      assert matches[..i + 1] == matches[..i] + [matches[i]];
      if matches[i].priority > priority { priority := matches[i].priority; }
    }
    assert matches[..|matches|] == matches;
  }

  method Winner(matches: seq<Rule>) returns (winner: Option<Rule>)
    requires matches != []
    ensures winner.Some? && Decides(winner.value, matches)
  {
    hide Beats;
    var top := Highest(matches);
    winner := None;
    for i := 0 to |matches|
      invariant winner.Some? ==> winner.value in matches && winner.value.priority == top
      invariant forall r :: r in matches[..i] && r.priority == top ==> winner.Some? && !Beats(r, winner.value)
    {
      assert matches[..i + 1] == matches[..i] + [matches[i]];
      var candidate := matches[i];
      if candidate.priority == top {
        if winner == None || Beats(candidate, winner.value) {
          DisplaceKeeps(matches[..i], winner, candidate, top);
          winner := Some(candidate);
        }
      }
    }
    assert matches[..|matches|] == matches;
  }

  lemma NoSelfBeat(r: Rule)
    ensures !Beats(r, r)
  {}

  lemma DisplaceKeeps(seen: seq<Rule>, winner: Option<Rule>, candidate: Rule, top: int)
    requires forall r :: r in seen && r.priority == top ==> winner.Some? && !Beats(r, winner.value)
    requires winner == None || Beats(candidate, winner.value)
    ensures forall r :: r in seen && r.priority == top ==> !Beats(r, candidate)
    ensures !Beats(candidate, candidate)
  {
    hide Beats;
    NoSelfBeat(candidate);
    forall r | r in seen && r.priority == top ensures !Beats(r, candidate) { BeatsTrans(winner.value, r, candidate); }
  }

  // ------------------------------------------------------------ evaluation

  /** What an evaluation may return. The rule is determined up to what is reported of it. */
  ghost predicate Evaluates(policy: Policy, c: Context, e: Evaluation) {
    if !ValidContext(c) then e == Evaluation(Deny, None, None, [])
    else if forall r :: r in policy.rules ==> !Applies(r, c) then e == Evaluation(policy.default, None, None, [])
    else e.matched == Ids(Applicable(policy.rules, c)) && exists w :: DecidesFor(w, policy, c) && Reports(e, w)
  }

  predicate Reports(e: Evaluation, w: Rule) { e.decision == w.decision && e.ruleId == Some(w.id) && e.ruleVersion == Some(w.version) }

  function Ids(rules: seq<Rule>): seq<Str> { seq(|rules|, i requires 0 <= i < |rules| => rules[i].id) }

  /** The rule that decides among those of the policy that apply. */
  ghost predicate DecidesFor(w: Rule, policy: Policy, c: Context)
    requires ValidContext(c)
  {
    && w in policy.rules && Applies(w, c)
    && forall r :: r in policy.rules && Applies(r, c) ==> r.priority <= w.priority && (r.priority == w.priority ==> !Beats(r, w))
  }

  method Evaluate(policy: Policy, c: Context) returns (e: Evaluation)
    ensures Evaluates(policy, c, e)
  {
    hide ValidContext, Applies, Beats, Ids;
    if !ValidContext(c) { return Evaluation(Deny, None, None, []); }
    var matches := EvaluateMatch(policy, c);
    if matches == [] {
      return Evaluation(policy.default, None, None, []);
    }
    assert matches[0] in matches;
    var winner := Winner(matches);
    assert DecidesFor(winner.value, policy, c);
    e := Evaluation(winner.value.decision, Some(winner.value.id), Some(winner.value.version), Ids(matches));
    assert Reports(e, winner.value);
  }

  lemma Tied(v: Rule, w: Rule)
    requires !Beats(v, w) && !Beats(w, v)
    ensures v.decision == w.decision && v.id == w.id && v.version == w.version
  {
    LeqTotal(v.id, w.id);
  }

  /** Reordering the rules changes neither the decision nor the rule reported. */
  lemma OrderDoesNotMatter(p: Policy, q: Policy, c: Context, d: Evaluation, e: Evaluation)
    requires Evaluates(p, c, d) && Evaluates(q, c, e)
    requires p.default == q.default && multiset(p.rules) == multiset(q.rules)
    ensures d.decision == e.decision && d.ruleId == e.ruleId && d.ruleVersion == e.ruleVersion
  {
    hide ValidContext, Applies, Applicable, Ids, Beats;
    forall r ensures r in p.rules <==> r in q.rules { assert r in p.rules <==> r in multiset(p.rules); }
    if ValidContext(c) && exists r :: r in p.rules && Applies(r, c) {
      var v :| DecidesFor(v, p, c) && Reports(d, v);
      var w :| DecidesFor(w, q, c) && Reports(e, w);
      Tied(v, w);
    }
  }

  ghost predicate TopPriority(r: Rule, policy: Policy, c: Context)
    requires ValidContext(c)
  {
    r in policy.rules && Applies(r, c) && forall s :: s in policy.rules && Applies(s, c) ==> s.priority <= r.priority
  }

  /** Execution is allowed exactly when every applicable rule of top priority allows it;
      with no applicable rule, when the default does. */
  lemma AllowedExactlyWhen(policy: Policy, c: Context, e: Evaluation)
    requires Evaluates(policy, c, e)
    ensures e.decision == Allow <==>
      (ValidContext(c)
       && (forall r :: TopPriority(r, policy, c) ==> r.decision == Allow)
       && ((forall r :: r in policy.rules ==> !Applies(r, c)) ==> policy.default == Allow))
    ensures ValidContext(c) && (exists r :: TopPriority(r, policy, c) && r.decision == Deny) ==> e.decision == Deny
  {
    hide ValidContext, Applies;
    if ValidContext(c) && exists r :: r in policy.rules && Applies(r, c) {
      var w :| DecidesFor(w, policy, c) && Reports(e, w);
      assert TopPriority(w, policy, c);
      forall r | TopPriority(r, policy, c)
        ensures Severity(r.decision) <= Severity(w.decision)
      {
        assert r.priority == w.priority && !Beats(r, w);
      }
    }
  }
}
