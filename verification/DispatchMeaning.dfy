/** What a dispatch asks and answers, read off the call, the task, the registration and the reply. */
module DispatchMeaning {
  import opened Wrappers
  import opened CodePoints
  import opened CanonicalText
  import opened Tasks
  import opened PolicyEvaluation
  import opened Registrations
  import opened Dispatch

  // ------------------------------------------------------------ the errors of a rejection

  lemma {:induction false} MissingExactly(required: seq<Str>, payload: Json, e: DispatchError)
    requires payload.Dict?
    ensures e in MissingInputs(required, payload) <==> exists f :: f in required && f !in payload.entries && e == MissingInput(f)
  {
    if required != [] {
      MissingExactly(required[1..], payload, e);
      assert required == [required[0]] + required[1..];
    }
  }

  /** The assignment gives the field, and not as the task is bound. */
  ghost predicate Contradicts(assignment: Json, f: Field, bound: Option<Str>) {
    && assignment.Dict? && KeyOfField(f) in assignment.entries && !assignment.entries[KeyOfField(f)].Null?
    && forall text :: bound == Some(text) ==> assignment.entries[KeyOfField(f)] != Text(text)
  }

  lemma AgreesUnlessContradicts(assignment: Json, f: Field, bound: Option<Str>)
    ensures Agrees(assignment, f, bound) <==> !Contradicts(assignment, f, bound)
  {
    hide KeyOfField;
  }

  lemma FieldKeys()
    ensures KeyOfField(SpecialistName) == FromAscii("name") && KeyOfField(CapabilityName) == FromAscii("capability_name")
    ensures KeyOfField(DivisionName) == FromAscii("division_name") && KeyOfField(PermissionScope) == FromAscii("permission_scope")
  {}

  /** Each error of the checks before a start is reported exactly when there is reason to. First those
      of the binding: */
  lemma BindingErrorsMeaning(c: Dispatch.Call, divisions: set<Str>)
    ensures var b, errors := c.binding, Found(BindingReasons(c, divisions));
      && (NoDivision in errors <==> b.division == None)
      && (UnknownDivision in errors <==> exists d :: b.division == Some(d) && d !in divisions)
      && (NoSpecialist in errors <==> b.specialist == None)
      && (NoCapability in errors <==> b.capability == None)
      && (OtherSpecialist in errors <==> b.specialist != None && Contradicts(c.assignment, SpecialistName, b.specialist))
      && (OtherCapability in errors <==> b.capability != None && Contradicts(c.assignment, CapabilityName, b.capability))
      && (OtherDivision in errors <==> Contradicts(c.assignment, DivisionName, b.division))
      && (OtherPermission in errors <==> Contradicts(c.assignment, PermissionScope, Some(b.permission)))
  {
    hide Agrees, Contradicts, Found, BindingReasons;
    var b, r := c.binding, BindingReasons(c, divisions);
    BindingReasonsAre(c, divisions);
    FoundEach(r);
    AgreesUnlessContradicts(c.assignment, SpecialistName, c.binding.specialist);
    AgreesUnlessContradicts(c.assignment, CapabilityName, c.binding.capability);
    AgreesUnlessContradicts(c.assignment, DivisionName, c.binding.division);
    AgreesUnlessContradicts(c.assignment, PermissionScope, Some(c.binding.permission));
  }

  lemma BindingReasonsAre(c: Dispatch.Call, divisions: set<Str>)
    ensures var b, r := c.binding, BindingReasons(c, divisions);
      && |r| == 8 && DistinctErrors(r)
      && r[0] == (b.division == None, NoDivision) && r[1] == (b.division.Some? && b.division.value !in divisions, UnknownDivision)
      && r[2] == (b.specialist == None, NoSpecialist)
      && r[3] == (b.specialist.Some? && !Agrees(c.assignment, SpecialistName, b.specialist), OtherSpecialist)
      && r[4] == (b.capability == None, NoCapability)
      && r[5] == (b.capability.Some? && !Agrees(c.assignment, CapabilityName, b.capability), OtherCapability)
      && r[6] == (!Agrees(c.assignment, DivisionName, b.division), OtherDivision)
      && r[7] == (!Agrees(c.assignment, PermissionScope, Some(b.permission)), OtherPermission)
  {
    hide Agrees;
  }

  ghost predicate DistinctErrors(reasons: seq<(bool, DispatchError)>) {
    forall i, j :: 0 <= i < |reasons| && 0 <= j < |reasons| && reasons[i].1 == reasons[j].1 ==> i == j
  }

  lemma FoundEach(reasons: seq<(bool, DispatchError)>)
    requires DistinctErrors(reasons)
    ensures forall i :: 0 <= i < |reasons| ==> (reasons[i].1 in Found(reasons) <==> reasons[i].0)
  {}

  /** ... those of the task: */
  lemma TaskErrorsMeaning(t: Task, completed: set<Id>)
    ensures var errors := Found(TaskReasons(t, completed));
      && (DependenciesIncomplete in errors <==> t.prevented || exists d :: d in t.dependencies && d !in completed)
      && (ApprovalPending in errors <==> t.approval == AwaitingApproval) && (ApprovalWasRefused in errors <==> t.approval == Refused)
      && (ApprovalEscalated in errors <==> t.approval == Escalated)
      && (NotReady in errors <==> t.state != Ready && t.state != Assigned) && (GovernanceRejected in errors <==> t.state == Rejected)
      && (RetriesExhausted in errors <==> t.state == Failed && t.retries >= t.maxRetries && exists why :: t.reason == Some(why) && |why| > 0)
  {
    hide DependenciesMet, Found, TaskReasons;
    var r := TaskReasons(t, completed);
    TaskReasonsAre(t, completed);
    FoundEach(r);
    UnmetDependencies(t, completed);
  }

  lemma TaskReasonsAre(t: Task, completed: set<Id>)
    ensures var r := TaskReasons(t, completed);
      && |r| == 7 && DistinctErrors(r)
      && r[0] == (!DependenciesMet(t, completed), DependenciesIncomplete)
      && r[1] == (t.approval == AwaitingApproval, ApprovalPending) && r[2] == (t.approval == Refused, ApprovalWasRefused)
      && r[3] == (t.approval == Escalated, ApprovalEscalated)
      && r[4] == (t.state != Ready && t.state != Assigned, NotReady) && r[5] == (t.state == Rejected, GovernanceRejected)
      && r[6] == (t.reason.Some? && t.reason != Some([]) && t.state == Failed && t.retries >= t.maxRetries, RetriesExhausted)
  {
    hide DependenciesMet;
  }

  lemma UnmetDependencies(t: Task, completed: set<Id>)
    ensures !DependenciesMet(t, completed) <==> t.prevented || exists d :: d in t.dependencies && d !in completed
  {}

  /** ... and those of the contract and the input. */
  lemma ContractErrorsMeaning(b: Dispatch.Binding, contract: Contract, payload: Json)
    requires payload.Dict?
    ensures BindingMismatch in Found(ContractReasons(b, contract)) <==>
      b.capability != Some(contract.name) || b.division != Some(contract.division) || b.permission != contract.permission
    ensures forall f :: MissingInput(f) in MissingInputs(RequiredFields(contract.input), payload) <==>
      f in RequiredFields(contract.input) && f !in payload.entries
  {
    hide RequiredFields;
    forall f ensures MissingInput(f) in MissingInputs(RequiredFields(contract.input), payload) <==> f in RequiredFields(contract.input) && f !in payload.entries {
      MissingExactly(RequiredFields(contract.input), payload, MissingInput(f));
    }
  }

  // ------------------------------------------------------------ what an authorized call rests on

  /** The authorization names a registration when it holds a non-empty text for it. */
  lemma NamedMeaning(c: Dispatch.Call, id: Str)
    requires c.authorization.Some?
    ensures var data, key := c.authorization.value.taskContext, FromAscii("registration_id");
      NamedRegistration(c) == Some(id) <==> |id| > 0 && key in data && data[key] == Text(id)
  {}

  /** When the executor is called, the registration of the task's division and capability is the one
      the authorization names, for the very contract and permission of the call; the task is ready and
      approved, with its dependencies among those reported completed; the assignment contradicts nothing;
      and every required input is given. */
  lemma AuthorizedCall(t: Task, c: Dispatch.Call, r: Registry, divisions: set<Str>)
    requires Authorized(t, c, r, divisions)
    ensures t.state in {Ready, Assigned} && t.approval in {NotRequired, Approved} && !t.prevented
    ensures forall d :: d in t.dependencies ==> d in c.completed
    ensures !Contradicts(c.assignment, SpecialistName, c.binding.specialist) && !Contradicts(c.assignment, CapabilityName, c.binding.capability)
    ensures !Contradicts(c.assignment, DivisionName, c.binding.division)
    ensures !Contradicts(c.assignment, PermissionScope, Some(c.binding.permission))
  {
    hide ValidContext, PlainData, AllowedNow, StillValid, Rebuilt, ContractData, Agrees, EffectivePayload, EffectiveContext, Contradicts, RequiredFields, Current, EntryFor;
    AgreesUnlessContradicts(c.assignment, SpecialistName, c.binding.specialist);
    AgreesUnlessContradicts(c.assignment, CapabilityName, c.binding.capability);
    AgreesUnlessContradicts(c.assignment, DivisionName, c.binding.division);
    AgreesUnlessContradicts(c.assignment, PermissionScope, Some(c.binding.permission));
  }

  /** The registration the authorization names, under the key of the task's binding. */
  ghost predicate NamesEntry(c: Dispatch.Call, r: Registry, key: Key) {
    && key in r.entries && c.authorization.Some? && |r.entries[key].id| > 0
    && var data, named := c.authorization.value.taskContext, FromAscii("registration_id");
    named in data && data[named] == Text(r.entries[key].id)
  }

  lemma AuthorizedRegistration(t: Task, c: Dispatch.Call, r: Registry, divisions: set<Str>) returns (key: Key)
    requires Authorized(t, c, r, divisions)
    ensures c.binding.division == Some(key.division) && c.binding.capability == Some(key.capability) && key.division in divisions
    ensures NamesEntry(c, r, key) && r.entries[key].contract.permission == c.binding.permission
  {
    hide ValidContext, PlainData, AllowedNow, StillValid, Rebuilt, ContractData, Agrees, EffectivePayload, EffectiveContext, RequiredFields, NamedRegistration, MayStart;
    key := Key(c.binding.division.value, c.binding.capability.value);
    NamedMeaning(c, NamedRegistration(c).value);
  }

  // ------------------------------------------------------------ what is made of the reply

  lemma {:induction false} MissingFieldsExactly(required: seq<Str>, payload: map<Str, Json>, e: FieldError)
    ensures e in MissingFields(required, payload) <==> exists f :: f in required && f !in payload && e == MissingField(f)
  {
    if required != [] {
      MissingFieldsExactly(required[1..], payload, e);
      assert required == [required[0]] + required[1..];
    }
  }

  /** An exception is a failure with its message; any other reply is handed on as it is, with the
      required outputs it lacks. */
  lemma ConcludedMeaning(contract: Contract, reply: Reply)
    ensures reply.Raised? ==> Concluded(contract, reply) == Execution(FailedExecution, Dict(map[]), [], Some(reply.message))
    ensures reply.Returned? ==> Concluded(contract, reply).payload == reply.payload && Concluded(contract, reply).exception == None
    ensures reply.Returned? ==> (Concluded(contract, reply).outcome == FailedExecution <==> Concluded(contract, reply).invalid != [])
    ensures reply.Returned? ==> (PayloadNotADictionary in Concluded(contract, reply).invalid <==> !reply.payload.Dict?)
    ensures reply.Returned? ==> forall f ::
      MissingField(f) in Concluded(contract, reply).invalid <==>
      reply.payload.Dict? && f in RequiredFields(contract.output) && f !in reply.payload.entries
  {
    hide MissingFields, RequiredFields;
    if reply.Returned? && reply.payload.Dict? {
      forall e ensures e in MissingFields(RequiredFields(contract.output), reply.payload.entries) <==>
        exists f :: f in RequiredFields(contract.output) && f !in reply.payload.entries && e == MissingField(f)
      {
        MissingFieldsExactly(RequiredFields(contract.output), reply.payload.entries, e);
      }
    }
  }
}
