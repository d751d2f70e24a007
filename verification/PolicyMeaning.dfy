/** What an evaluation answers, read off the fields of the rules and of the context. */
module PolicyMeaning {
  import opened Wrappers
  import opened CodePoints
  import opened Tasks
  import opened CanonicalText
  import opened PolicyEvaluation

  // ------------------------------------------------------------ which rules govern a context

  /** What a rule asks for, beside what the context has. */
  function Selectors(r: Rule, c: Context): seq<(Option<Str>, Option<Str>)>
    requires c.classification.Some?
  {
    [(r.division, c.division), (r.specialist, c.specialist), (r.capability, c.capability), (r.permission, c.permission),
     (r.adapter, c.adapter), (r.adapterType, c.adapterType), (r.mode, c.mode),
     (r.risk, Some(c.classification.value.risk)), (r.impact, Some(c.classification.value.impact))]
  }

  /** Enabled, named, begun, not over, and asking for nothing that the context does not have. */
  ghost predicate Governs(r: Rule, c: Context)
    requires c.classification.Some? && c.evaluatedAt.Some?
  {
    && r.enabled && |r.id| > 0
    && (r.from == None || r.from.value <= c.evaluatedAt.value)
    && (r.until == None || c.evaluatedAt.value <= r.until.value)
    && forall i :: 0 <= i < |Selectors(r, c)| ==> Selectors(r, c)[i].0 == None || Selectors(r, c)[i].0 == Selectors(r, c)[i].1
  }

  lemma AppliesMeaning(r: Rule, c: Context)
    requires ValidContext(c)
    ensures Applies(r, c) <==> Governs(r, c)
  {
    hide HasText, PlainData, ValidClassification, Compatible;
    var s := Selectors(r, c);
    if Governs(r, c) {
      assert forall i :: 0 <= i < 9 ==> s[i].0 == None || s[i].0 == s[i].1;
      assert s[0].0 == r.division && s[1].0 == r.specialist && s[2].0 == r.capability && s[3].0 == r.permission && s[4].0 == r.adapter;
      assert s[5].0 == r.adapterType && s[6].0 == r.mode && s[7].0 == r.risk && s[8].0 == r.impact;
    }
  }

  // ------------------------------------------------------------ which answer they give

  /** Governing, and no governing rule has a higher priority. */
  ghost predicate Top(r: Rule, policy: Policy, c: Context)
    requires ValidContext(c)
  {
    r in policy.rules && Governs(r, c) && forall s :: s in policy.rules && Governs(s, c) ==> s.priority <= r.priority
  }

  ghost predicate SomeTop(policy: Policy, c: Context, d: Decision)
    requires ValidContext(c)
  {
    exists r :: Top(r, policy, c) && r.decision == d
  }

  function Began(r: Rule): int { match r.from case None => 0 case Some(at) => at }

  /** Of one decision, the rule of the highest version, then the latest start, then the least id. */
  ghost predicate Foremost(w: Rule, policy: Policy, c: Context)
    requires ValidContext(c)
  {
    forall r :: Top(r, policy, c) && r.decision == w.decision ==>
      r.version <= w.version && (r.version == w.version ==> Began(r) <= Began(w) && (Began(r) == Began(w) ==> Leq(w.id, r.id)))
  }

  /** The strictest decision among the governing rules of top priority wins: DENY before ESCALATE
      before REQUIRE_APPROVAL before ALLOW; the default answers when none governs, and a context
      that is not valid is denied. The rule reported is the foremost of that decision. */
  lemma StrictestWins(policy: Policy, c: Context, e: Evaluation)
    requires Evaluates(policy, c, e)
    ensures !ValidContext(c) ==> e == Evaluation(Deny, None, None, [])
    ensures ValidContext(c) && (forall r :: r in policy.rules ==> !Governs(r, c)) ==> e == Evaluation(policy.default, None, None, [])
    ensures ValidContext(c) && (exists r :: r in policy.rules && Governs(r, c)) ==>
      && (e.decision == Deny <==> SomeTop(policy, c, Deny))
      && (e.decision == Escalate <==> !SomeTop(policy, c, Deny) && SomeTop(policy, c, Escalate))
      && (e.decision == RequireApproval <==>
          !SomeTop(policy, c, Deny) && !SomeTop(policy, c, Escalate) && SomeTop(policy, c, RequireApproval))
      && exists w :: Top(w, policy, c) && Foremost(w, policy, c) && e.decision == w.decision && e.ruleId == Some(w.id) && e.ruleVersion == Some(w.version)
  {
    hide ValidContext, Applies, Governs, Applicable, Ids, Beats;
    if ValidContext(c) {
      ValidHas(c);
      forall r ensures Applies(r, c) <==> Governs(r, c) { AppliesMeaning(r, c); }
      if exists r :: r in policy.rules && Governs(r, c) {
        var w :| DecidesFor(w, policy, c) && Reports(e, w);
        assert Top(w, policy, c);
        forall r | Top(r, policy, c) ensures r.priority == w.priority && !Beats(r, w) {}
        forall r | Top(r, policy, c) ensures Weaker(r, w) { NotBeaten(r, w); }
        WeakerMeans(policy, c, w);
      }
    }
  }

  lemma ValidHas(c: Context)
    requires ValidContext(c)
    ensures c.classification.Some? && c.evaluatedAt.Some?
  {}

  /** The first rule does not come before the second. */
  ghost predicate Weaker(r: Rule, w: Rule) {
    && (r.decision == Deny ==> w.decision == Deny)
    && (r.decision == Escalate ==> w.decision in {Deny, Escalate})
    && (r.decision == RequireApproval ==> w.decision != Allow)
    && (r.decision == w.decision ==>
          r.version <= w.version && (r.version == w.version ==> Began(r) <= Began(w) && (Began(r) == Began(w) ==> Leq(w.id, r.id))))
  }

  lemma NotBeaten(r: Rule, w: Rule)
    requires !Beats(r, w)
    ensures Weaker(r, w)
  {
    LeqTotal(r.id, w.id);
  }

  lemma WeakerMeans(policy: Policy, c: Context, w: Rule)
    requires ValidContext(c) && Top(w, policy, c) && forall r :: Top(r, policy, c) ==> Weaker(r, w)
    ensures w.decision == Deny <==> SomeTop(policy, c, Deny)
    ensures w.decision == Escalate <==> !SomeTop(policy, c, Deny) && SomeTop(policy, c, Escalate)
    ensures w.decision == RequireApproval <==>
      !SomeTop(policy, c, Deny) && !SomeTop(policy, c, Escalate) && SomeTop(policy, c, RequireApproval)
    ensures Foremost(w, policy, c)
  {
    hide ValidContext, Governs, Top;
    match w.decision
    case Deny =>
    case Escalate =>
    case RequireApproval =>
    case Allow =>
  }

  // ------------------------------------------------------------ valid contexts

  const WHITESPACE: set<Code> := {
    0x09, 0x0A, 0x0B, 0x0C, 0x0D, 0x1C, 0x1D, 0x1E, 0x1F, 0x20, 0x85, 0xA0, 0x1680, 0x2000, 0x2001, 0x2002, 0x2003, 0x2004,
    0x2005, 0x2006, 0x2007, 0x2008, 0x2009, 0x200A, 0x2028, 0x2029, 0x202F, 0x205F, 0x3000}

  /** Missing, or nothing but white space. */
  ghost predicate Blank(s: Option<Str>) { s == None || forall i :: 0 <= i < |s.value| ==> s.value[i] in WHITESPACE }

  lemma SpaceMeaning(c: Code)
    ensures IsSpace(c) <==> c in WHITESPACE
  {}

  lemma TextMeaning(s: Option<Str>)
    ensures HasText(s) <==> !Blank(s)
  {
    hide IsSpace;
    if s.Some? { forall i | 0 <= i < |s.value| ensures IsSpace(s.value[i]) <==> s.value[i] in WHITESPACE { SpaceMeaning(s.value[i]); } }
  }

  /** What a context must name. */
  function Names(c: Context): seq<Option<Str>> {
    [c.taskId, c.missionId, c.division, c.specialist, c.capability, c.adapter, c.permission, c.mode, c.policyId]
    + match c.classification
      case None => []
      case Some(k) => [Some(k.source), Some(k.version), Some(k.risk), Some(k.impact)]
  }

  /** A context is valid exactly when it names everything it must, is classified and dated, fits its
      approval to its state, has a policy version from 1 on, and carries plain data only. */
  lemma ValidMeaning(c: Context)
    ensures ValidContext(c) <==>
      && (forall i :: 0 <= i < |Names(c)| ==> !Blank(Names(c)[i]))
      && c.evaluatedAt != None && c.policyVersion > 0 && c.approval in CompatibleApprovals(c.state)
      && PlainData(Dict(c.taskContext))
      && match c.classification
         case None => false
         case Some(k) => k.classifiedAt != None && k.context.Dict? && PlainData(k.context)
  {
    hide HasText, Blank, PlainData, CompatibleApprovals;
    var n := Names(c);
    forall i | 0 <= i < |n| ensures HasText(n[i]) <==> !Blank(n[i]) { TextMeaning(n[i]); }
    assert n[0] == c.taskId && n[1] == c.missionId && n[2] == c.division && n[3] == c.specialist && n[4] == c.capability;
    assert n[5] == c.adapter && n[6] == c.permission && n[7] == c.mode && n[8] == c.policyId;
    if c.classification.Some? {
      var k := c.classification.value;
      assert n[9] == Some(k.source) && n[10] == Some(k.version) && n[11] == Some(k.risk) && n[12] == Some(k.impact);
    }
  }
}
