/** Any number of threads registering, reserving, executing and releasing: each step
    is one critical section under the registration lock. */
module ReservationProtocol {
  import opened Wrappers
  import opened CodePoints
  import opened Registrations

  /** An open reservation: the key, and the entry that was selected. */
  datatype Holding = Holding(key: Key, entry: Entry)

  /** A call of an executor on behalf of a holder. */
  datatype HolderCall = HolderCall(holder: nat, executor: Executor)

  /** `taken` keeps what each holder ever reserved, `issued` what each identity drawn was
      issued for, and `calls` every call of an executor. */
  datatype System = System(
    registry: Registry, holders: map<nat, Holding>, taken: map<nat, Holding>, issued: map<Str, Holding>, calls: seq<HolderCall>)

  datatype Step =
    | Register(contract: Contract, executor: Executor, id: Str)
    | Look(key: Key)
    | Reserve(holder: nat, key: Key, id: Str)
    | Execute(holder: nat)
    | Release(holder: nat)

  /** Identities are fresh; a holder, that is one use of the context manager, reserves
      once, and only holders execute and release. */
  predicate Enabled(s: System, step: Step) {
    match step
    case Register(_, _, id) => id !in s.issued
    case Look(_) => true
    case Reserve(holder, _, _) => holder !in s.taken
    case Execute(holder) => holder in s.holders && s.holders[holder].key in s.registry.entries
    case Release(holder) => holder in s.holders && CountOf(s.registry, s.holders[holder].key) > 0
  }

  /** The system after a step; a step that raises changes nothing. An execution reads the
      entry of its key as it is then. */
  function Next(s: System, step: Step): System
    requires Enabled(s, step)
  {
    match step
    case Register(contract, executor, id) =>
      var key := KeyOf(contract);
      var drawn := s.(issued := s.issued[id := Holding(key, Entry(id, contract, executor))]);
      var r := Registered(s.registry, contract, executor, id);
      if r.Ok? then drawn.(registry := r.value) else s
    case Look(_) => s
    case Reserve(holder, key, id) =>
      var r := Reserved(s.registry, key, id);
      if r.Ok? then
        var h := Holding(key, s.registry.entries[key]);
        s.(registry := r.value, holders := s.holders[holder := h], taken := s.taken[holder := h])
      else s
    case Execute(holder) => s.(calls := s.calls + [HolderCall(holder, s.registry.entries[s.holders[holder].key].executor)])
    case Release(holder) =>
      s.(registry := Released(s.registry, s.holders[holder].key), holders := s.holders - {holder})
  }

  function Initial(): System { System(Registry(map[], map[]), map[], map[], map[], []) }

  predicate Follows(s: System, steps: seq<Step>)
    decreases |steps|
  {
    steps != [] ==> Enabled(s, steps[0]) && Follows(Next(s, steps[0]), steps[1..])
  }

  function After(s: System, steps: seq<Step>): System
    requires Follows(s, steps)
    decreases |steps|
  {
    if steps == [] then s else After(Next(s, steps[0]), steps[1..])
  }

  // ------------------------------------------------------------ the invariant

  /** The holders with an open reservation of a key. */
  function HoldersOf(s: System, key: Key): set<nat> { set t | t in s.holders && s.holders[t].key == key }

  ghost predicate Counted(s: System) { Tidy(s.registry) && forall key :: CountOf(s.registry, key) == |HoldersOf(s, key)| }

  /** Held entries are the registered ones. */
  ghost predicate Held(s: System) {
    forall t :: t in s.holders ==> s.holders[t].key in s.registry.entries && s.registry.entries[s.holders[t].key] == s.holders[t].entry
  }

  predicate IssuedFor(s: System, id: Str, h: Holding) { id in s.issued && s.issued[id] == h }

  /** Every entry is what its identity was issued for. */
  ghost predicate Issued(s: System) {
    && (forall key :: key in s.registry.entries ==> IssuedFor(s, s.registry.entries[key].id, Holding(key, s.registry.entries[key])))
    && forall id :: id in s.issued ==> s.issued[id].entry.id == id && KeyOf(s.issued[id].entry.contract) == s.issued[id].key
  }

  /** Holders are among those that ever reserved, with what they reserved; and every call so
      far was of the executor its holder reserved. */
  ghost predicate Called(s: System) {
    && (forall t :: t in s.holders ==> t in s.taken && s.taken[t] == s.holders[t])
    && forall c :: c in s.calls ==> c.holder in s.taken && c.executor == s.taken[c.holder].entry.executor
  }

  ghost predicate Inv(s: System) { Counted(s) && Held(s) && Issued(s) && Called(s) }

  lemma InitialInv()
    ensures Inv(Initial())
  {
    forall key ensures |HoldersOf(Initial(), key)| == 0 { assert HoldersOf(Initial(), key) == {}; }
  }

  lemma HolderCounts(s: System, holder: nat)
    requires Counted(s) && holder in s.holders
    ensures CountOf(s.registry, s.holders[holder].key) > 0
  {
    assert holder in HoldersOf(s, s.holders[holder].key);
  }

  lemma RegisterKeeps(s: System, contract: Contract, executor: Executor, id: Str)
    requires Inv(s) && id !in s.issued
    ensures Inv(Next(s, Register(contract, executor, id)))
  {
    var s' := Next(s, Register(contract, executor, id));
    if Registered(s.registry, contract, executor, id).Ok? {
      forall key ensures HoldersOf(s', key) == HoldersOf(s, key) {}
      forall t | t in s.holders ensures s.holders[t].key != KeyOf(contract) { HolderCounts(s, t); }
    }
  }

  lemma HoldersWithOneMore(s: System, s': System, holder: nat, h: Holding, key: Key)
    requires holder !in s.holders && s'.holders == s.holders[holder := h]
    ensures |HoldersOf(s', key)| == |HoldersOf(s, key)| + if key == h.key then 1 else 0
  {
    assert HoldersOf(s', key) == if key == h.key then HoldersOf(s, key) + {holder} else HoldersOf(s, key);
  }

  lemma ReserveCounts(s: System, holder: nat, key: Key, id: Str)
    requires Counted(s) && holder !in s.holders && holder !in s.taken && Reserved(s.registry, key, id).Ok?
    ensures Counted(Next(s, Reserve(holder, key, id)))
  {
    hide HoldersOf;
    var s' := Next(s, Reserve(holder, key, id));
    forall k ensures CountOf(s'.registry, k) == |HoldersOf(s', k)| {
      HoldersWithOneMore(s, s', holder, Holding(key, s.registry.entries[key]), k);
    }
  }

  lemma ReserveKeeps(s: System, holder: nat, key: Key, id: Str)
    requires Inv(s) && holder !in s.taken
    ensures Inv(Next(s, Reserve(holder, key, id)))
  {
    hide Counted;
    if Reserved(s.registry, key, id).Ok? { ReserveCounts(s, holder, key, id); }
  }

  lemma ReleaseKeeps(s: System, holder: nat)
    requires Inv(s) && Enabled(s, Release(holder))
    ensures Inv(Next(s, Release(holder)))
  {
    var s', key := Next(s, Release(holder)), s.holders[holder].key;
    forall k ensures CountOf(s'.registry, k) == |HoldersOf(s', k)| {
      assert HoldersOf(s', k) == if k == key then HoldersOf(s, k) - {holder} else HoldersOf(s, k);
      assert holder in HoldersOf(s, key);
    }
  }

  lemma ExecuteKeeps(s: System, holder: nat)
    requires Inv(s) && Enabled(s, Execute(holder))
    ensures Inv(Next(s, Execute(holder)))
  {
    var s' := Next(s, Execute(holder));
    forall key ensures HoldersOf(s', key) == HoldersOf(s, key) {}
    assert Called(s');
  }

  lemma StepKeeps(s: System, step: Step)
    requires Inv(s) && Enabled(s, step)
    ensures Inv(Next(s, step))
  {
    hide Inv;
    match step
    case Register(contract, executor, id) => RegisterKeeps(s, contract, executor, id);
    case Look(_) =>
    case Reserve(holder, key, id) => ReserveKeeps(s, holder, key, id);
    case Execute(holder) => ExecuteKeeps(s, holder);
    case Release(holder) => ReleaseKeeps(s, holder);
  }

  /** In every interleaving the counts are the open reservations and the held entries
      are the registered ones. */
  lemma {:induction false} EveryRunKeeps(s: System, steps: seq<Step>)
    requires Inv(s) && Follows(s, steps)
    ensures Inv(After(s, steps))
    decreases |steps|
  {
    hide Inv, Next, Enabled;
    if steps != [] {
      StepKeeps(s, steps[0]);
      EveryRunKeeps(Next(s, steps[0]), steps[1..]);
    }
  }

  // ------------------------------------------------------------ what it buys

  /** Releasing never fails: the holder's own reservation is still counted. */
  lemma ReleaseNeverFails(steps: seq<Step>, holder: nat)
    requires Follows(Initial(), steps)
    ensures var s := After(Initial(), steps); holder in s.holders ==> Enabled(s, Release(holder))
  {
    hide Next, Enabled;
    InitialInv();
    EveryRunKeeps(Initial(), steps);
    var s := After(Initial(), steps);
    if holder in s.holders { MayRelease(s, holder); }
  }

  lemma MayRelease(s: System, holder: nat)
    requires Inv(s) && holder in s.holders
    ensures Enabled(s, Release(holder))
  {
    HolderCounts(s, holder);
  }

  /** Registering a key raises exactly while someone holds it. */
  lemma RegisterRaisesWhenHeld(steps: seq<Step>, contract: Contract, executor: Executor, id: Str)
    requires Follows(Initial(), steps)
    ensures var s := After(Initial(), steps);
      Registered(s.registry, contract, executor, id).Err? <==> exists t :: t in s.holders && s.holders[t].key == KeyOf(contract)
  {
    hide Next, Enabled;
    InitialInv();
    EveryRunKeeps(Initial(), steps);
    var s := After(Initial(), steps);
    var holders := HoldersOf(s, KeyOf(contract));
    if t :| t in s.holders && s.holders[t].key == KeyOf(contract) {
      HolderCounts(s, t);
    } else {
      assert holders == {};
    }
  }

  /** The holder does not release during the steps. */
  predicate KeepsHold(steps: seq<Step>, holder: nat) {
    forall i :: 0 <= i < |steps| ==> steps[i] != Release(holder)
  }

  lemma StepKeepsHolding(s: System, step: Step, holder: nat)
    requires Called(s) && Enabled(s, step) && holder in s.holders && step != Release(holder)
    ensures holder in Next(s, step).holders && Next(s, step).holders[holder] == s.holders[holder]
  {}

  /** Whatever everyone else does meanwhile, what a holder executes is the executor it reserved,
      under the contract it was shown. */
  lemma {:induction false} ExecutesWhatWasReserved(s: System, steps: seq<Step>, holder: nat)
    requires Inv(s) && holder in s.holders && Follows(s, steps) && KeepsHold(steps, holder)
    ensures var s' := After(s, steps);
      && holder in s'.holders && s'.holders[holder] == s.holders[holder]
      && s.holders[holder].key in s'.registry.entries
      && s'.registry.entries[s.holders[holder].key] == s.holders[holder].entry
    decreases |steps|
  {
    hide Next, Enabled;
    if steps != [] {
      StepKeeps(s, steps[0]);
      StepKeepsHolding(s, steps[0], holder);
      ExecutesWhatWasReserved(Next(s, steps[0]), steps[1..], holder);
    }
  }

  /** A holder can always execute: its entry is there. */
  lemma ExecuteNeverFails(steps: seq<Step>, holder: nat)
    requires Follows(Initial(), steps)
    ensures var s := After(Initial(), steps); holder in s.holders ==> Enabled(s, Execute(holder))
  {
    hide Next;
    InitialInv();
    EveryRunKeeps(Initial(), steps);
  }

  /** Every call in the log was of the executor that its holder had reserved. */
  lemma EveryCallWasReserved(steps: seq<Step>, c: HolderCall)
    requires Follows(Initial(), steps) && c in After(Initial(), steps).calls
    ensures var s := After(Initial(), steps); c.holder in s.taken && c.executor == s.taken[c.holder].entry.executor
  {
    hide Next, Enabled;
    InitialInv();
    EveryRunKeeps(Initial(), steps);
  }

  /** An identity stands for one registration for ever: whenever it can be reserved, the
      reservation shows the contract and executor it was issued for. */
  lemma IssuedOnce(s: System, steps: seq<Step>, id: Str, key: Key)
    requires Inv(s) && Follows(s, steps) && id in s.issued
    ensures var s' := After(s, steps);
      && id in s'.issued && s'.issued[id] == s.issued[id]
      && (Reserved(s'.registry, key, id).Ok? ==> key in s'.registry.entries && Holding(key, s'.registry.entries[key]) == s.issued[id])
  {
    hide Next, Enabled;
    EveryRunKeeps(s, steps);
    IssuedStays(s, steps, id);
  }

  lemma {:induction false} IssuedStays(s: System, steps: seq<Step>, id: Str)
    requires Follows(s, steps) && id in s.issued
    ensures id in After(s, steps).issued && After(s, steps).issued[id] == s.issued[id]
    decreases |steps|
  {
    hide Next, Enabled;
    if steps != [] {
      StepKeepsIssued(s, steps[0], id);
      IssuedStays(Next(s, steps[0]), steps[1..], id);
    }
  }

  lemma StepKeepsIssued(s: System, step: Step, id: Str)
    requires Enabled(s, step) && id in s.issued
    ensures id in Next(s, step).issued && Next(s, step).issued[id] == s.issued[id]
  {}

  /** Once replaced, a registration can never be reserved again. */
  lemma {:induction false} ReplacedStaysStale(s: System, steps: seq<Step>, id: Str, key: Key)
    requires Inv(s) && Follows(s, steps) && id in s.issued
    requires Reserved(s.registry, key, id).Err?
    ensures Reserved(After(s, steps).registry, key, id).Err?
    decreases |steps|
  {
    hide Next, Enabled, Inv;
    if steps != [] {
      StepKeeps(s, steps[0]);
      StepKeepsIssued(s, steps[0], id);
      StepKeepsStale(s, steps[0], id, key);
      ReplacedStaysStale(Next(s, steps[0]), steps[1..], id, key);
    }
  }

  lemma StepKeepsStale(s: System, step: Step, id: Str, key: Key)
    requires Enabled(s, step) && id in s.issued && Reserved(s.registry, key, id).Err?
    ensures Reserved(Next(s, step).registry, key, id).Err?
  {}
}
