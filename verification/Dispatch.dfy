/** Governed dispatch: a task is handed to its executor only under a current
    authorization, a current policy decision and a reserved registration. */
module Dispatch {
  import opened Wrappers
  import opened CodePoints
  import opened CanonicalText
  import opened Tasks
  import opened PolicyEvaluation
  import opened Registrations
  import opened TaskGraph

  /** What a task is bound to, beside its lifecycle. */
  datatype Binding = Binding(
    missionId: Str, division: Option<Str>, specialist: Option<Str>, capability: Option<Str>, permission: Str, storedPayload: Option<Json>)

  datatype Part = ExecutionContext | InputPayload | AssignmentData

  datatype DispatchError =
    | InvalidContextType | InvalidContext | InvalidSnapshotType | InvalidSnapshot | PolicyRequired | ContractRequired
    | NotADictionary(part: Part) | UnsupportedData(part: Part)
    | IdentityRequired | Registration(error: RegistrationError) | UnsupportedContract | ContractMismatch
    | NoDivision | UnknownDivision | NoSpecialist | OtherSpecialist | NoCapability | OtherCapability | OtherDivision | OtherPermission
    | DependenciesIncomplete | ApprovalPending | ApprovalWasRefused | ApprovalEscalated
    | NotReady | GovernanceRejected | RetriesExhausted | BindingMismatch | MissingInput(field: Str)
    | StaleAuthorization | PolicyForbids

  datatype ExecutionOutcome = Succeeded | FailedExecution

  datatype FieldError = PayloadNotADictionary | MissingField(field: Str)

  datatype DispatchResult =
    | Rejection(errors: seq<DispatchError>)
    | Execution(outcome: ExecutionOutcome, payload: Json, invalid: seq<FieldError>, exception: Option<Str>)

  /** All that a call of `dispatch` is given, beside the task's own state and the runtime. */
  datatype Call = Call(
    taskId: Str, binding: Binding, assignment: Json, contract: Option<Contract>, payload: Option<Json>, context: Option<Json>,
    snapshot: Option<Context>, authorization: Option<Context>, policy: Option<Policy>, completed: set<Id>, now: int)

  // ------------------------------------------------------------ before the reservation

  function EffectiveContext(c: Call): Json { if c.context.Some? then c.context.value else Dict(map[]) }

  function EffectivePayload(c: Call): Json {
    if c.payload.Some? then c.payload.value else if c.binding.storedPayload.Some? then c.binding.storedPayload.value else Dict(map[])
  }

  function DataErrors(part: Part, v: Json): seq<DispatchError> {
    (if !v.Dict? then [NotADictionary(part)] else []) + (if !PlainData(v) then [UnsupportedData(part)] else [])
  }

  function InputErrors(c: Call): seq<DispatchError> {
    (if c.authorization == None then [InvalidContextType] else if !ValidContext(c.authorization.value) then [InvalidContext] else [])
    + (if c.snapshot == None then [InvalidSnapshotType] else if !ValidContext(c.snapshot.value) then [InvalidSnapshot] else [])
    + (if c.policy == None then [PolicyRequired] else [])
    + (if c.contract == None then [ContractRequired] else [])
    + DataErrors(ExecutionContext, EffectiveContext(c)) + DataErrors(InputPayload, EffectivePayload(c)) + DataErrors(AssignmentData, c.assignment)
  }

  ghost predicate WellFormed(c: Call) {
    && c.authorization.Some? && ValidContext(c.authorization.value) && c.snapshot.Some? && ValidContext(c.snapshot.value)
    && c.policy.Some? && c.contract.Some?
    && EffectiveContext(c).Dict? && PlainData(EffectiveContext(c)) && EffectivePayload(c).Dict? && PlainData(EffectivePayload(c))
    && c.assignment.Dict? && PlainData(c.assignment)
  }

  lemma InputClear(c: Call)
    ensures InputErrors(c) == [] <==> WellFormed(c)
  {
    hide ValidContext, PlainData;
  }

  function At(v: Json, key: Str): Json { if v.Dict? && key in v.entries then v.entries[key] else Null }

  function Get(v: Json, key: string): Json
    requires forall i :: 0 <= i < |key| ==> key[i] < 128 as char
  {
    At(v, FromAscii(key))
  }

  /** The registration the authorization names, if it names one. */
  function NamedRegistration(c: Call): Option<Str>
    requires c.authorization.Some?
  {
    var id := Get(Dict(c.authorization.value.taskContext), "registration_id");
    if id.Text? && id.text != [] then Some(id.text) else None
  }

  // ------------------------------------------------------------ the task and its contract

  /** What an assignment may say of a task. */
  datatype Field = SpecialistName | CapabilityName | DivisionName | PermissionScope

  function KeyOfField(f: Field): Str {
    match f
    case SpecialistName => FromAscii("name")
    case CapabilityName => FromAscii("capability_name")
    case DivisionName => FromAscii("division_name")
    case PermissionScope => FromAscii("permission_scope")
  }

  /** The assignment says nothing of the field, or says the same. */
  predicate Agrees(assignment: Json, f: Field, bound: Option<Str>) {
    var said := At(assignment, KeyOfField(f));
    said == Null || (bound.Some? && said == Text(bound.value))
  }

  /** The errors there is reason for, in order. */
  function Found(reasons: seq<(bool, DispatchError)>): (errors: seq<DispatchError>)
    ensures errors == [] <==> forall i :: 0 <= i < |reasons| ==> !reasons[i].0
    ensures forall e :: e in errors <==> (true, e) in reasons
  {
    if reasons == [] then []
    else
      assert reasons == [reasons[0]] + reasons[1..];
      (if reasons[0].0 then [reasons[0].1] else []) + Found(reasons[1..])
  }

  function MissingInputs(required: seq<Str>, payload: Json): (r: seq<DispatchError>)
    requires payload.Dict?
    ensures r == [] <==> forall f :: f in required ==> f in payload.entries
  {
    if required == [] then []
    else (if required[0] in payload.entries then [] else [MissingInput(required[0])]) + MissingInputs(required[1..], payload)
  }

  /** What is wrong with the task's binding and the assignment. */
  function BindingReasons(c: Call, divisions: set<Str>): seq<(bool, DispatchError)> {
    var b := c.binding;
    [(b.division == None, NoDivision), (b.division.Some? && b.division.value !in divisions, UnknownDivision),
      (b.specialist == None, NoSpecialist), (b.specialist.Some? && !Agrees(c.assignment, SpecialistName, b.specialist), OtherSpecialist),
      (b.capability == None, NoCapability), (b.capability.Some? && !Agrees(c.assignment, CapabilityName, b.capability), OtherCapability),
      (!Agrees(c.assignment, DivisionName, b.division), OtherDivision),
      (!Agrees(c.assignment, PermissionScope, Some(b.permission)), OtherPermission)]
  }

  /** Why the task may not start. */
  function TaskReasons(t: Task, completed: set<Id>): seq<(bool, DispatchError)> {
    [(!DependenciesMet(t, completed), DependenciesIncomplete),
      (t.approval == AwaitingApproval, ApprovalPending), (t.approval == Refused, ApprovalWasRefused), (t.approval == Escalated, ApprovalEscalated),
      (t.state !in {Ready, Assigned}, NotReady), (t.state == Rejected, GovernanceRejected),
      (t.reason.Some? && t.reason != Some([]) && t.state == Failed && t.retries >= t.maxRetries, RetriesExhausted)]
  }

  /** How the binding and the contract differ. */
  function ContractReasons(b: Binding, contract: Contract): seq<(bool, DispatchError)> {
    [(b.capability != Some(contract.name), BindingMismatch), (b.division != Some(contract.division), BindingMismatch),
      (b.permission != contract.permission, BindingMismatch)]
  }

  function PreDispatchErrors(t: Task, c: Call, contract: Contract, divisions: set<Str>): seq<DispatchError>
    requires EffectivePayload(c).Dict?
  {
    Found(BindingReasons(c, divisions)) + Found(TaskReasons(t, c.completed)) + Found(ContractReasons(c.binding, contract))
    + MissingInputs(RequiredFields(contract.input), EffectivePayload(c))
  }

  /** The task may start, and the call, the task and the contract speak of the same thing. */
  ghost predicate Dispatchable(t: Task, c: Call, contract: Contract, divisions: set<Str>)
    requires EffectivePayload(c).Dict?
  {
    && MayStart(t, c.completed)
    && c.binding.division == Some(contract.division) && contract.division in divisions
    && c.binding.capability == Some(contract.name) && c.binding.permission == contract.permission && c.binding.specialist.Some?
    && Agrees(c.assignment, SpecialistName, c.binding.specialist) && Agrees(c.assignment, CapabilityName, c.binding.capability)
    && Agrees(c.assignment, DivisionName, c.binding.division) && Agrees(c.assignment, PermissionScope, Some(c.binding.permission))
    && forall f :: f in RequiredFields(contract.input) ==> f in EffectivePayload(c).entries
  }

  lemma PreDispatchClear(t: Task, c: Call, contract: Contract, divisions: set<Str>)
    requires EffectivePayload(c).Dict?
    ensures PreDispatchErrors(t, c, contract, divisions) == [] <==> Dispatchable(t, c, contract, divisions)
  {
    hide Agrees, EffectivePayload, DependenciesMet, BindingReasons, TaskReasons, ContractReasons;
    BindingClear(c, divisions);
    TaskClear(t, c.completed);
    ContractClear(c.binding, contract);
  }

  lemma BindingClear(c: Call, divisions: set<Str>)
    ensures Found(BindingReasons(c, divisions)) == [] <==>
      && c.binding.division.Some? && c.binding.division.value in divisions && c.binding.specialist.Some? && c.binding.capability.Some?
      && Agrees(c.assignment, SpecialistName, c.binding.specialist) && Agrees(c.assignment, CapabilityName, c.binding.capability)
      && Agrees(c.assignment, DivisionName, c.binding.division) && Agrees(c.assignment, PermissionScope, Some(c.binding.permission))
  {
    hide Agrees;
  }

  lemma TaskClear(t: Task, completed: set<Id>)
    ensures Found(TaskReasons(t, completed)) == [] <==> MayStart(t, completed)
  {
    hide DependenciesMet;
  }

  lemma ContractClear(b: Binding, contract: Contract)
    ensures Found(ContractReasons(b, contract)) == [] <==>
      b.capability == Some(contract.name) && b.division == Some(contract.division) && b.permission == contract.permission
  {}

  /** The transitions made on starting cannot raise once the task may start. */
  lemma StartCannotRaise(t: Task, completed: set<Id>)
    requires MayStart(t, completed)
    ensures t.state == Ready ==>
      Transition(t, Assigned, None, None, completed) == Result.Ok(t.(state := Assigned, reason := None))
    ensures Transition(t.(state := Assigned), InProgress, None, None, completed) == Result.Ok(t.(state := InProgress, reason := None))
    ensures Transition(t.(state := Assigned, reason := None), InProgress, None, None, completed) == Result.Ok(t.(state := InProgress, reason := None))
  {}

  // ------------------------------------------------------------ the authorization

  /** The authorization's context, brought up to date with the task, the policy and the registration. */
  function Rebuilt(t: Task, c: Call, entry: Entry): Context
    requires c.authorization.Some? && c.policy.Some?
  {
    c.authorization.value.(
      taskId := Some(c.taskId), missionId := Some(c.binding.missionId), state := t.state, approval := t.approval,
      division := c.binding.division, specialist := c.binding.specialist, capability := c.binding.capability,
      permission := Some(c.binding.permission), policyId := Some(c.policy.value.id), policyVersion := c.policy.value.version,
      evaluatedAt := Some(c.now),
      taskContext := c.authorization.value.taskContext
        [FromAscii("input_payload") := EffectivePayload(c)][FromAscii("execution_context") := EffectiveContext(c)]
        [FromAscii("registration_id") := Text(entry.id)][FromAscii("capability_contract") := ContractData(entry.contract)])
  }

  /** What a fingerprint fixes: everything but the time of evaluation. */
  function Fingerprint(c: Context): Context { c.(evaluatedAt := None) }

  predicate StillValid(snapshot: Context, current: Context) {
    ValidContext(snapshot) && ValidContext(current) && Fingerprint(snapshot) == Fingerprint(current)
  }

  ghost predicate AllowedNow(policy: Policy, current: Context) {
    && ValidContext(current)
    && (forall r :: TopPriority(r, policy, current) ==> r.decision == Allow)
    && ((forall r :: r in policy.rules ==> !Applies(r, current)) ==> policy.default == Allow)
  }

  function KeyFor(b: Binding): Option<Key> {
    if b.division.Some? && b.capability.Some? then Some(Key(b.division.value, b.capability.value)) else None
  }

  /** The registration that the call names is the current one of the task's capability. */
  predicate Current(r: Registry, c: Call)
    requires c.authorization.Some?
  {
    KeyFor(c.binding).Some? && NamedRegistration(c).Some?
    && KeyFor(c.binding).value in r.entries && r.entries[KeyFor(c.binding).value].id == NamedRegistration(c).value
  }

  function EntryFor(r: Registry, c: Call): Entry
    requires c.authorization.Some? && Current(r, c)
  {
    r.entries[KeyFor(c.binding).value]
  }

  ghost predicate AuthorizedFor(t: Task, c: Call, entry: Entry, divisions: set<Str>)
    requires WellFormed(c)
  {
    && PlainData(ContractData(entry.contract)) && ContractData(c.contract.value) == ContractData(entry.contract)
    && Dispatchable(t, c, entry.contract, divisions)
    && StillValid(c.snapshot.value, Rebuilt(t, c, entry))
    && AllowedNow(c.policy.value, Rebuilt(t, c, entry))
  }

  /** The errors found while the registration is reserved, in order. */
  ghost function RecheckErrors(t: Task, c: Call, entry: Entry, divisions: set<Str>): seq<DispatchError>
    requires WellFormed(c)
  {
    if !PlainData(ContractData(c.contract.value)) || !PlainData(ContractData(entry.contract)) then [UnsupportedContract]
    else if ContractData(c.contract.value) != ContractData(entry.contract) then [ContractMismatch]
    else
      PreDispatchErrors(t, c, entry.contract, divisions)
      + (if !StillValid(c.snapshot.value, Rebuilt(t, c, entry)) then [StaleAuthorization] else [])
      + (if !AllowedNow(c.policy.value, Rebuilt(t, c, entry)) then [PolicyForbids] else [])
  }

  /** All the errors a rejection reports. */
  ghost function DispatchErrors(t: Task, c: Call, r: Registry, divisions: set<Str>): seq<DispatchError> {
    if InputErrors(c) != [] then InputErrors(c)
    else
      InputClear(c);
      if NamedRegistration(c) == None then [IdentityRequired]
      else if !Current(r, c) then [Registration(StaleOrMissing)]
      else RecheckErrors(t, c, EntryFor(r, c), divisions)
  }

  /** What is recorded of a dispatch, in a log shared with the task's graph: the policy's answer
      once it is asked, and the start of the execution. */
  ghost function ReservedNotes(t: Task, c: Call, entry: Entry, divisions: set<Str>): seq<Event>
    requires WellFormed(c)
  {
    PolicyNotes(t, c, entry) + (if AuthorizedFor(t, c, entry, divisions) then [ExecutionStarted(c.taskId, InProgress)] else [])
  }

  ghost function PolicyNotes(t: Task, c: Call, entry: Entry): seq<Event>
    requires WellFormed(c)
  {
    if !PlainData(ContractData(c.contract.value)) || !PlainData(ContractData(entry.contract)) then []
    else if ContractData(c.contract.value) != ContractData(entry.contract) then []
    else [PreDispatchPolicy(c.taskId, AllowedNow(c.policy.value, Rebuilt(t, c, entry)))]
  }

  ghost function DispatchNotes(t: Task, c: Call, r: Registry, divisions: set<Str>): seq<Event> {
    if WellFormed(c) && Current(r, c) then ReservedNotes(t, c, EntryFor(r, c), divisions) else []
  }

  /** Exactly when the executor is called. */
  ghost predicate Authorized(t: Task, c: Call, r: Registry, divisions: set<Str>) {
    WellFormed(c) && Current(r, c) && AuthorizedFor(t, c, EntryFor(r, c), divisions)
  }

  /** The snapshot and the rebuilt context say the same of everything an authorization is for. */
  ghost predicate Describes(s: Context, t: Task, c: Call, entry: Entry)
    requires c.policy.Some?
  {
    && s.taskId == Some(c.taskId) && s.state == t.state && s.approval == t.approval
    && s.missionId == Some(c.binding.missionId) && s.division == c.binding.division
    && s.specialist == c.binding.specialist && s.capability == c.binding.capability
    && s.permission == Some(c.binding.permission)
    && s.policyId == Some(c.policy.value.id) && s.policyVersion == c.policy.value.version
    && Get(Dict(s.taskContext), "registration_id") == Text(entry.id)
    && Get(Dict(s.taskContext), "input_payload") == EffectivePayload(c)
    && Get(Dict(s.taskContext), "execution_context") == EffectiveContext(c)
    && Get(Dict(s.taskContext), "capability_contract") == ContractData(entry.contract)
  }

  lemma RebuiltDescribes(t: Task, c: Call, entry: Entry)
    requires c.authorization.Some? && c.policy.Some?
    ensures Describes(Rebuilt(t, c, entry), t, c, entry)
  {
    hide ContractData, EffectivePayload, EffectiveContext;
    KeysDiffer();
  }

  lemma SameFingerprintDescribes(s: Context, current: Context, t: Task, c: Call, entry: Entry)
    requires c.policy.Some? && Fingerprint(s) == Fingerprint(current) && Describes(current, t, c, entry)
    ensures Describes(s, t, c, entry)
  {
    hide ContractData, EffectivePayload, EffectiveContext, Get;
    assert s == current.(evaluatedAt := s.evaluatedAt) by {
      assert Fingerprint(s).(evaluatedAt := s.evaluatedAt) == s && Fingerprint(current).(evaluatedAt := s.evaluatedAt) == current.(evaluatedAt := s.evaluatedAt);
    }
  }

  /** An authorization covers one state of affairs: had the task, its payload, the policy
      or the registration changed since the snapshot, the executor would not be called. */
  lemma AuthorizedMeansUnchanged(t: Task, c: Call, r: Registry, divisions: set<Str>)
    requires Authorized(t, c, r, divisions)
    ensures Describes(c.snapshot.value, t, c, EntryFor(r, c))
    ensures ContractData(EntryFor(r, c).contract) == ContractData(c.contract.value) && MayStart(t, c.completed)
  {
    hide ValidContext, PlainData, AllowedNow, Describes, Rebuilt, Agrees, Fingerprint, DependenciesMet, ContractData;
    var entry := EntryFor(r, c);
    RebuiltDescribes(t, c, entry);
    SameFingerprintDescribes(c.snapshot.value, Rebuilt(t, c, entry), t, c, entry);
  }

  lemma KeysDiffer()
    ensures var a, b, c, d := FromAscii("input_payload"), FromAscii("execution_context"), FromAscii("registration_id"), FromAscii("capability_contract");
      a != b && a != c && a != d && b != c && b != d && c != d
  {
    var a, b, c, d := FromAscii("input_payload"), FromAscii("execution_context"), FromAscii("registration_id"), FromAscii("capability_contract");
    assert |a| == 13 && |b| == 17 && |c| == 15 && |d| == 19;
  }

  // ------------------------------------------------------------ the execution

  function MissingFields(required: seq<Str>, payload: map<Str, Json>): (r: seq<FieldError>)
    ensures r == [] <==> forall f :: f in required ==> f in payload
  {
    if required == [] then []
    else (if required[0] in payload then [] else [MissingField(required[0])]) + MissingFields(required[1..], payload)
  }

  function OutputErrors(contract: Contract, payload: Json): seq<FieldError> {
    if !payload.Dict? then [PayloadNotADictionary] else MissingFields(RequiredFields(contract.output), payload.entries)
  }

  /** A reply counts as a success when it is a dictionary with every required output. */
  function Concluded(contract: Contract, reply: Reply): (r: DispatchResult)
    ensures r.Execution?
    ensures r.outcome == Succeeded <==>
      (reply.Returned? && reply.payload.Dict? && forall f :: f in RequiredFields(contract.output) ==> f in reply.payload.entries)
  {
    match reply
    case Raised(message) => Execution(FailedExecution, Dict(map[]), [], Some(message))
    case Returned(payload) =>
      var invalid := OutputErrors(contract, payload);
      Execution(if invalid == [] then Succeeded else FailedExecution, payload, invalid, None)
  }

  /** The request the executor receives. */
  function RequestOf(c: Call): Request
    requires EffectivePayload(c).Dict? && EffectiveContext(c).Dict?
  {
    var b := c.binding;
    Request(c.taskId, b.missionId, if b.specialist.Some? then b.specialist.value else [], if b.division.Some? then b.division.value else [],
            if b.capability.Some? then b.capability.value else [], b.permission, EffectivePayload(c).entries, EffectiveContext(c).entries)
  }

  /** The request is the caller's: the payload given, or else the stored one, or else nothing; the
      context given, or else nothing; and the task's own bindings. */
  ghost predicate Carries(q: Request, c: Call) {
    && q.taskId == c.taskId && q.missionId == c.binding.missionId && q.permission == c.binding.permission
    && Some(q.specialist) == c.binding.specialist && Some(q.division) == c.binding.division && Some(q.capability) == c.binding.capability
    && (c.payload.Some? ==> c.payload.value == Dict(q.payload))
    && (c.payload == None && c.binding.storedPayload.Some? ==> c.binding.storedPayload.value == Dict(q.payload))
    && (c.payload == None && c.binding.storedPayload == None ==> q.payload == map[])
    && (c.context.Some? ==> c.context.value == Dict(q.context))
    && (c.context == None ==> q.context == map[])
  }

  lemma RequestCarries(t: Task, c: Call, r: Registry, divisions: set<Str>)
    requires Authorized(t, c, r, divisions)
    ensures EffectivePayload(c).Dict? && EffectiveContext(c).Dict? && Carries(RequestOf(c), c)
  {
    hide ValidContext, PlainData, AllowedNow, StillValid, Rebuilt, ContractData, Agrees, MayStart;
  }

  // ------------------------------------------------------------ the dispatcher

  class MissionExecutionDispatcher {
    var divisions: set<Str>
    const runtime: LocalExecutionRuntime

    constructor (divisions: set<Str>, runtime: LocalExecutionRuntime)
      ensures this.divisions == divisions && this.runtime == runtime
    {
      this.divisions, this.runtime := divisions, runtime;
    }

    /** The checks between taking the registration and starting the task. */
    method Recheck(t: Task, c: Call, entry: Entry, log: TaskAuditLog?) returns (errors: seq<DispatchError>)
      requires WellFormed(c)
      modifies log
      ensures errors == RecheckErrors(t, c, entry, divisions)
      ensures errors == [] <==> AuthorizedFor(t, c, entry, divisions)
      ensures log != null ==> log.events == old(log.events) + PolicyNotes(t, c, entry)
    {
      hide ValidContext, PlainData, Dispatchable, AllowedNow, EffectivePayload, EffectiveContext, PreDispatchErrors, Rebuilt, Evaluates, Fingerprint, ContractData;
      if !PlainData(ContractData(c.contract.value)) || !PlainData(ContractData(entry.contract)) { return [UnsupportedContract]; }
      if ContractData(c.contract.value) != ContractData(entry.contract) { return [ContractMismatch]; }
      errors := PreDispatchErrors(t, c, entry.contract, divisions);
      PreDispatchClear(t, c, entry.contract, divisions);
      var current := Rebuilt(t, c, entry);
      if !StillValid(c.snapshot.value, current) { errors := errors + [StaleAuthorization]; }
      var decision := Evaluate(c.policy.value, current);
      DecisionMeaning(c.policy.value, current, decision);
      if log != null { log.Record(PreDispatchPolicy(c.taskId, decision.decision == Allow)); }
      if decision.decision != Allow { errors := errors + [PolicyForbids]; }
    }

    /** Starting the task and running the reserved executor; the registration stays reserved. */
    method Start(task: MissionTask, c: Call, contract: Contract, log: TaskAuditLog?, behaviour: (Executor, Request) -> Reply)
      returns (result: DispatchResult)
      requires EffectivePayload(c).Dict? && EffectiveContext(c).Dict? && MayStart(task.View(), c.completed)
      requires c.binding.specialist.Some? && KeyFor(c.binding).Some? && KeyFor(c.binding).value in runtime.executors
      requires runtime.executors[KeyFor(c.binding).value].contract == contract && c.binding.permission == contract.permission
      modifies task, runtime`Calls, log
      ensures task.View() == old(task.View()).(state := InProgress, reason := None)
      ensures log != null ==> log.events == old(log.events) + [ExecutionStarted(c.taskId, InProgress)]
      ensures var executor := runtime.executors[KeyFor(c.binding).value].executor;
        && runtime.Calls == old(runtime.Calls) + [Registrations.Call(executor, RequestOf(c))]
        && result == Concluded(contract, behaviour(executor, RequestOf(c)))
    {
      hide Transition, DependenciesMet, MissionTask.View, EffectivePayload, EffectiveContext, Concluded;
      StartCannotRaise(task.View(), c.completed);
      var state := task.State();
      if state == Ready {
        var _ := task.TransitionTo(Assigned, None, None, c.completed);
      }
      var _ := task.TransitionTo(InProgress, None, None, c.completed);
      if log != null { log.Record(ExecutionStarted(c.taskId, task.State())); }
      var reply := runtime.Execute(RequestOf(c), behaviour);
      result := Concluded(contract, reply);
    }

    /** The whole dispatch. The executor is called exactly when the call is authorized;
        otherwise the task is as before, and in every case so are the reservations. */
    method Dispatch(task: MissionTask, c: Call, log: TaskAuditLog?, behaviour: (Executor, Request) -> Reply) returns (result: DispatchResult)
      requires Tidy(runtime.View())
      modifies task, runtime`reservations, runtime`Calls, log
      ensures runtime.View() == old(runtime.View())
      ensures result.Execution? <==> Authorized(old(task.View()), c, old(runtime.View()), divisions)
      ensures result.Rejection? ==>
        && result.errors == DispatchErrors(old(task.View()), c, old(runtime.View()), divisions)
        && task.View() == old(task.View()) && runtime.Calls == old(runtime.Calls)
      ensures result.Execution? ==>
        var entry := EntryFor(old(runtime.View()), c);
        && task.View() == old(task.View()).(state := InProgress, reason := None)
        && runtime.Calls == old(runtime.Calls) + [Registrations.Call(entry.executor, RequestOf(c))]
        && result == Concluded(entry.contract, behaviour(entry.executor, RequestOf(c)))
      ensures result.Execution? ==> Carries(runtime.Calls[|runtime.Calls| - 1].request, c)
      ensures log != null ==> log.events == old(log.events) + DispatchNotes(old(task.View()), c, old(runtime.View()), divisions)
    {
      hide ValidContext, PlainData, AuthorizedFor, RecheckErrors, ReservedNotes, MissionTask.View, Registrations.Released, EffectivePayload, EffectiveContext, Concluded, RequestOf, NamedRegistration, Carries;
      var errors := InputErrors(c);
      InputClear(c);
      if errors != [] { return Rejection(errors); }
      var id := NamedRegistration(c);
      if id == None { return Rejection([IdentityRequired]); }
      var key := KeyFor(c.binding);
      if key == None { return Rejection([Registration(StaleOrMissing)]); }
      var selection := runtime.Reserve(key.value, id.value);
      if selection.Err? { return Rejection([Registration(selection.error)]); }
      ReleaseUndoesReserve(old(runtime.View()), key.value, id.value);
      result := DispatchReserved(task, c, log, behaviour);
      if result.Execution? { RequestCarries(old(task.View()), c, old(runtime.View()), divisions); }
      runtime.Release(key.value);
    }

    /** The dispatch while its registration is reserved. */
    method DispatchReserved(task: MissionTask, c: Call, log: TaskAuditLog?, behaviour: (Executor, Request) -> Reply) returns (result: DispatchResult)
      requires WellFormed(c) && Current(runtime.View(), c)
      modifies task, runtime`Calls, log
      ensures result.Execution? <==> AuthorizedFor(old(task.View()), c, EntryFor(old(runtime.View()), c), divisions)
      ensures result.Rejection? ==>
        && result.errors == RecheckErrors(old(task.View()), c, EntryFor(old(runtime.View()), c), divisions)
        && task.View() == old(task.View()) && runtime.Calls == old(runtime.Calls)
      ensures result.Execution? ==>
        var entry := EntryFor(old(runtime.View()), c);
        && task.View() == old(task.View()).(state := InProgress, reason := None)
        && runtime.Calls == old(runtime.Calls) + [Registrations.Call(entry.executor, RequestOf(c))]
        && result == Concluded(entry.contract, behaviour(entry.executor, RequestOf(c)))
      ensures log != null ==> log.events == old(log.events) + ReservedNotes(old(task.View()), c, EntryFor(old(runtime.View()), c), divisions)
    {
      hide MissionTask.View, EffectivePayload, EffectiveContext, Concluded, RequestOf, AuthorizedFor, RecheckErrors, PolicyNotes, WellFormed;
      WellFormedData(c);
      var entry := EntryFor(runtime.View(), c);
      var errors := Recheck(task.View(), c, entry, log);
      if errors != [] { return Rejection(errors); }
      ReadyToStart(task.View(), c, entry, divisions);
      result := Start(task, c, entry.contract, log, behaviour);
    }
  }

  lemma WellFormedData(c: Call)
    requires WellFormed(c)
    ensures c.authorization.Some? && EffectivePayload(c).Dict? && EffectiveContext(c).Dict?
  {}

  lemma ReadyToStart(t: Task, c: Call, entry: Entry, divisions: set<Str>)
    requires WellFormed(c) && AuthorizedFor(t, c, entry, divisions)
    ensures MayStart(t, c.completed) && c.binding.specialist.Some? && c.binding.permission == entry.contract.permission
  {}

  lemma DecisionMeaning(policy: Policy, current: Context, e: Evaluation)
    requires Evaluates(policy, current, e)
    ensures e.decision == Allow <==> AllowedNow(policy, current)
  {
    hide ValidContext, Applies, Evaluates;
    AllowedExactlyWhen(policy, current, e);
  }
}
