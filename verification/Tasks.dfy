/** A mission task: its lifecycle, its approval, and the one gate all changes of
    state go through. */
module Tasks {
  import opened Wrappers
  import opened CodePoints

  type Id = Str

  datatype TaskState =
    Pending | Blocked | Ready | Assigned | InProgress | Completed | Failed | Rejected | Cancelled | RetryPending

  datatype ApprovalState = NotRequired | AwaitingApproval | Approved | Refused | Escalated

  datatype Error = InvalidTransition | IncompatibleApproval | DependenciesOpen | NoRetryBudget | UnknownTask | TerminalTask

  function Successors(s: TaskState): set<TaskState> {
    match s
    case Pending => {Ready, Blocked, Rejected, Cancelled}
    case Blocked => {Ready, Rejected, Cancelled}
    case Ready => {Assigned, Blocked, Rejected, Cancelled}
    case Assigned => {InProgress, Blocked, Rejected, Cancelled}
    case InProgress => {Completed, Failed, Cancelled}
    case Failed => {RetryPending, Rejected, Cancelled}
    case RetryPending => {Ready, Blocked, Rejected, Cancelled}
    case Completed => {}
    case Rejected => {}
    case Cancelled => {}
  }

  function CompatibleApprovals(s: TaskState): set<ApprovalState> {
    match s
    case Pending => {NotRequired, AwaitingApproval, Approved, Escalated}
    case Blocked => {NotRequired, AwaitingApproval, Approved, Escalated}
    case Ready => {Approved, NotRequired}
    case Assigned => {Approved, NotRequired}
    case InProgress => {Approved, NotRequired}
    case Completed => {Approved, NotRequired}
    case Failed => {Approved, NotRequired, Refused}
    case RetryPending => {Approved, NotRequired, AwaitingApproval}
    case Rejected => {Refused, Approved, NotRequired}
    case Cancelled => {NotRequired, Approved, Refused, AwaitingApproval}
  }

  predicate Terminal(s: TaskState) { s in {Completed, Rejected, Cancelled} }

  predicate Compatible(s: TaskState, a: ApprovalState) { a in CompatibleApprovals(s) }

  /** What a task is, apart from its identity: `dependencies`, `maxRetries` and
      `retryable` are fixed at creation. */
  datatype Task = Task(
    state: TaskState, approval: ApprovalState, dependencies: seq<Id>,
    retries: nat, maxRetries: int, retryable: bool,
    reason: Option<Str>, payload: map<Str, Str>, errors: seq<Str>,
    prevented: bool, blockedReason: Option<Str>)

  predicate HasBudget(t: Task) { t.retryable && t.retries < t.maxRetries }

  predicate DependenciesMet(t: Task, completed: set<Id>) {
    !t.prevented && forall d :: d in t.dependencies ==> d in completed
  }

  /** A dispatcher may start the task, given the completed tasks it was handed. */
  predicate MayStart(t: Task, completed: set<Id>) {
    t.state in {Ready, Assigned} && t.approval in {NotRequired, Approved} && DependenciesMet(t, completed)
  }

  function Proposed(t: Task, approval: Option<ApprovalState>): ApprovalState {
    if approval.Some? then approval.value else t.approval
  }

  /** One change of state, or the exception it raises. */
  function Transition(t: Task, to: TaskState, approval: Option<ApprovalState>, reason: Option<Str>, completed: set<Id>): Result<Task, Error> {
    if to !in Successors(t.state) then Err(InvalidTransition)
    else if !Compatible(to, Proposed(t, approval)) then Err(IncompatibleApproval)
    else if to in {Ready, Assigned, InProgress} && !DependenciesMet(t, completed) then Err(DependenciesOpen)
    else if to == RetryPending && !HasBudget(t) then Err(NoRetryBudget)
    else Ok(t.(state := to, approval := Proposed(t, approval), reason := reason,
               retries := if to == RetryPending then t.retries + 1 else t.retries))
  }

  function Prevent(t: Task, why: Str, terminal: bool): Task {
    t.(prevented := terminal, reason := Some(why), blockedReason := Some(why))
  }

  /** The task as the runtime holds it: an object whose fields change in place. */
  class MissionTask {
    const id: Id
    var state: TaskState
    var approval: ApprovalState
    var dependencies: seq<Id>
    var retries: nat
    const maxRetries: int
    const retryable: bool
    var reason: Option<Str>
    var payload: map<Str, Str>
    var errors: seq<Str>
    var prevented: bool
    var blockedReason: Option<Str>

    constructor (id: Id, approval: ApprovalState, maxRetries: int, retryable: bool)
      ensures this.id == id
      ensures View() == Task(Pending, approval, [], 0, maxRetries, retryable, None, map[], [], false, None)
    {
      this.id, state, this.approval, dependencies := id, Pending, approval, [];
      retries, this.maxRetries, this.retryable := 0, maxRetries, retryable;
      reason, payload, errors, prevented, blockedReason := None, map[], [], false, None;
    }

    function View(): Task
      reads this
    {
      Task(state, approval, dependencies, retries, maxRetries, retryable, reason, payload, errors, prevented, blockedReason)
    }

    function State(): (s: TaskState)
      reads this
      ensures s == View().state
    {
      state
    }

    function Exhausted(): (spent: bool)
      reads this
      ensures spent == !HasBudget(View())
    {
      !retryable || retries >= maxRetries
    }

    method TransitionTo(to: TaskState, approval: Option<ApprovalState>, reason: Option<Str>, completed: set<Id>)
      returns (raised: Option<Error>)
      modifies this
      ensures var r := Transition(old(View()), to, approval, reason, completed);
        if r.Ok? then raised == None && View() == r.value else raised == Some(r.error) && View() == old(View())
    {
      var proposed := if approval.Some? then approval.value else this.approval;
      if to !in Successors(state) { return Some(InvalidTransition); }
      if !Compatible(to, proposed) { return Some(IncompatibleApproval); }
      if to in {Ready, Assigned, InProgress} {
        if prevented || !(forall d :: d in dependencies ==> d in completed) { return Some(DependenciesOpen); }
      }
      if to == RetryPending {
        if !retryable || retries >= maxRetries { return Some(NoRetryBudget); }
      }
      this.approval := proposed;
      state := to;
      if to == RetryPending { retries := retries + 1; }
      this.reason := reason;
      return None;
    }

    method AddDependency(id: Id)
      modifies this
      ensures View() == old(View()).(dependencies := old(View()).dependencies + [id])
    {
      dependencies := dependencies + [id];
    }

    method SetPrevented(why: Str, terminal: bool)
      modifies this
      ensures View() == Prevent(old(View()), why, terminal)
    {
      prevented, reason, blockedReason := terminal, Some(why), Some(why);
    }

    method SetApproval(approval: ApprovalState)
      modifies this
      ensures View() == old(View()).(approval := approval)
    {
      this.approval := approval;
    }

    method SetResult(payload: map<Str, Str>, errors: seq<Str>)
      modifies this
      ensures View() == old(View()).(payload := payload, errors := errors)
    {
      this.payload, this.errors := payload, errors;
    }
  }
}
