/** Executors registered for capabilities, and the reservations that protect a
    registration from being replaced while a dispatch uses it. */
module Registrations {
  import opened Wrappers
  import opened CodePoints
  import opened CanonicalText

  /** A schema's required fields, when it lists them, and whatever else it holds. */
  datatype Schema = Schema(required: Option<seq<Str>>, others: map<Str, Json>)

  datatype Contract = Contract(
    name: Str, division: Str, id: Str, permission: Str, input: Schema, output: Schema,
    retryable: bool, timeout: Option<int>, description: Str, metadata: map<Str, Json>)

  function RequiredFields(s: Schema): seq<Str> { if s.required.Some? then s.required.value else [] }

  function Texts(fields: seq<Str>): seq<Json> { seq(|fields|, i requires 0 <= i < |fields| => Text(fields[i])) }

  function SchemaData(s: Schema): Json {
    var key := FromAscii("required_fields");
    Dict(if s.required.Some? then s.others[key := List(Texts(s.required.value))] else s.others - {key})
  }

  /** A contract as plain data, every field of it. */
  function ContractData(c: Contract): Json {
    Dict(map[
      FromAscii("name") := Text(c.name), FromAscii("division_name") := Text(c.division), FromAscii("contract_id") := Text(c.id),
      FromAscii("permission_scope") := Text(c.permission), FromAscii("input_schema") := SchemaData(c.input),
      FromAscii("output_schema") := SchemaData(c.output), FromAscii("retryable") := Bool(c.retryable),
      FromAscii("timeout_seconds") := if c.timeout.Some? then Int(c.timeout.value) else Null,
      FromAscii("description") := Text(c.description), FromAscii("metadata") := Dict(c.metadata)])
  }

  /** The identity of a callable; what it does is known only to its calls. */
  datatype Executor = Executor(handle: nat)

  datatype Key = Key(division: Str, capability: Str)

  datatype Entry = Entry(id: Str, contract: Contract, executor: Executor)

  datatype Selection = Selection(id: Str, contract: Contract)

  datatype RegistrationError = InUse | StaleOrMissing

  /** `reservations` counts the open reservations of a key; a key with none is absent. */
  datatype Registry = Registry(entries: map<Key, Entry>, reservations: map<Key, nat>)

  function KeyOf(c: Contract): Key { Key(c.division, c.name) }

  function CountOf(r: Registry, key: Key): nat { if key in r.reservations then r.reservations[key] else 0 }

  /** `id` is the fresh identity drawn for the registration. */
  function Registered(r: Registry, contract: Contract, executor: Executor, id: Str): Result<Registry, RegistrationError> {
    var key := KeyOf(contract);
    if CountOf(r, key) != 0 then Err(InUse) else Ok(r.(entries := r.entries[key := Entry(id, contract, executor)]))
  }

  function Lookup(r: Registry, key: Key): Option<Selection> {
    if key in r.entries then Some(Selection(r.entries[key].id, r.entries[key].contract)) else None
  }

  function Reserved(r: Registry, key: Key, id: Str): Result<Registry, RegistrationError> {
    if key !in r.entries || r.entries[key].id != id then Err(StaleOrMissing)
    else Ok(r.(reservations := r.reservations[key := CountOf(r, key) + 1]))
  }

  function Released(r: Registry, key: Key): Registry
    requires CountOf(r, key) > 0
  {
    var left := r.reservations[key] - 1;
    r.(reservations := if left == 0 then r.reservations - {key} else r.reservations[key := left])
  }

  /** No key is kept with a count of zero. */
  predicate Tidy(r: Registry) { forall key :: key in r.reservations ==> r.reservations[key] > 0 }

  /** A reservation undone leaves no trace. */
  lemma ReleaseUndoesReserve(r: Registry, key: Key, id: Str)
    requires Tidy(r) && Reserved(r, key, id).Ok?
    ensures CountOf(Reserved(r, key, id).value, key) > 0
    ensures Released(Reserved(r, key, id).value, key) == r
  {
    var s := Reserved(r, key, id).value;
    if key in r.reservations {
      assert s.reservations[key := r.reservations[key]] == r.reservations;
    } else {
      assert s.reservations - {key} == r.reservations;
    }
  }

  /** What an executor is called with. */
  datatype Request = Request(
    taskId: Str, missionId: Str, specialist: Str, division: Str, capability: Str, permission: Str,
    payload: map<Str, Json>, context: map<Str, Json>)

  datatype Call = Call(executor: Executor, request: Request)

  datatype Reply = Returned(payload: Json) | Raised(message: Str)

  class LocalExecutionRuntime {
    var executors: map<Key, Entry>
    var reservations: map<Key, nat>
    /** Every call of an executor so far. */
    ghost var Calls: seq<Call>

    constructor ()
      ensures View() == Registry(map[], map[]) && Calls == []
    {
      executors, reservations, Calls := map[], map[], [];
    }

    function View(): Registry
      reads this
    {
      Registry(executors, reservations)
    }

    method Register(contract: Contract, executor: Executor, id: Str) returns (raised: Option<RegistrationError>)
      modifies this
      ensures Calls == old(Calls)
      ensures match Registered(old(View()), contract, executor, id)
        case Ok(r) => raised == None && View() == r
        case Err(e) => raised == Some(e) && View() == old(View())
    {
      var key := Key(contract.division, contract.name);
      if key in reservations && reservations[key] != 0 { return Some(InUse); }
      executors := executors[key := Entry(id, contract, executor)];
      return None;
    }

    method GetRegistration(key: Key) returns (selection: Option<Selection>)
      ensures selection == Lookup(View(), key)
    {
      if key in executors { return Some(Selection(executors[key].id, executors[key].contract)); }
      return None;
    }

    method Reserve(key: Key, id: Str) returns (selection: Result<Selection, RegistrationError>)
      modifies this`reservations
      ensures match Reserved(old(View()), key, id)
        case Ok(r) => selection.Ok? && View() == r && Some(selection.value) == Lookup(r, key)
        case Err(e) => selection == Err(e) && View() == old(View())
    {
      if key !in executors { return Err(StaleOrMissing); }
      var entry := executors[key];
      if entry.id != id { return Err(StaleOrMissing); }
      reservations := reservations[key := (if key in reservations then reservations[key] else 0) + 1];
      return Ok(Selection(entry.id, entry.contract));
    }

    method Release(key: Key)
      requires CountOf(View(), key) > 0
      modifies this`reservations
      ensures View() == Released(old(View()), key)
    {
      reservations := reservations[key := reservations[key] - 1];
      if reservations[key] == 0 { reservations := reservations - {key}; }
      assert reservations == Released(old(View()), key).reservations;
    }

    /** `behaviour` is what the callables do when called. */
    method Execute(request: Request, behaviour: (Executor, Request) -> Reply) returns (reply: Reply)
      modifies this`Calls
      ensures var key := Key(request.division, request.capability);
        if key in executors && request.permission == executors[key].contract.permission then
          reply == behaviour(executors[key].executor, request) && Calls == old(Calls) + [Call(executors[key].executor, request)]
        else reply.Raised? && Calls == old(Calls)
    {
      var key := Key(request.division, request.capability);
      if key !in executors { return Raised(FromAscii("KeyError")); }
      var entry := executors[key];
      if request.permission != entry.contract.permission { return Raised(FromAscii("Executor permission scope mismatch.")); }
      reply := behaviour(entry.executor, request);
      Calls := Calls + [Call(entry.executor, request)];
    }
  }

  // ------------------------------------------------------------ contracts as data

  /** What a schema holds beside its required fields has another key. */
  ghost predicate TidySchema(s: Schema) { FromAscii("required_fields") !in s.others }

  lemma TextsDiffer(a: seq<Str>, b: seq<Str>)
    requires Texts(a) == Texts(b)
    ensures a == b
  {
    assert |a| == |Texts(a)| == |Texts(b)| == |b|;
    forall i | 0 <= i < |a| ensures a[i] == b[i] { assert Texts(a)[i] == Text(a[i]) && Texts(b)[i] == Text(b[i]); }
  }

  lemma SchemasDiffer(a: Schema, b: Schema)
    requires TidySchema(a) && TidySchema(b) && SchemaData(a) == SchemaData(b)
    ensures a == b
  {
    hide Texts;
    var key := FromAscii("required_fields");
    var x, y := SchemaData(a).entries, SchemaData(b).entries;
    if a.required.Some? && b.required.Some? {
      assert x[key] == List(Texts(a.required.value)) && y[key] == List(Texts(b.required.value));
      TextsDiffer(a.required.value, b.required.value);
    }
    assert a.others == x - {key} && b.others == y - {key};
    assert a.required.Some? <==> key in x;
    assert b.required.Some? <==> key in y;
  }

  /** The keys of a contract's fields are ten different texts. */
  lemma FieldsDiffer()
    ensures forall i, j :: 0 <= i < j < 10 ==> FieldKeys()[i] != FieldKeys()[j]
  {
    KeyLengths();
    hide FieldKeys, FromAscii;
  }

  ghost function FieldKeys(): (keys: seq<Str>)
    ensures |keys| == 10
  {
    [FromAscii("name"), FromAscii("division_name"), FromAscii("contract_id"), FromAscii("permission_scope"), FromAscii("input_schema"),
     FromAscii("output_schema"), FromAscii("retryable"), FromAscii("timeout_seconds"), FromAscii("description"), FromAscii("metadata")]
  }

  lemma KeyLengths()
    ensures var k := FieldKeys();
      && |k[0]| == 4 && |k[1]| == 13 && |k[2]| == 11 && |k[3]| == 16 && |k[4]| == 12
      && |k[5]| == 13 && |k[6]| == 9 && |k[7]| == 15 && |k[8]| == 11 && |k[9]| == 8
      && k[1][0] != k[5][0] && k[2][0] != k[8][0]
  {}

  lemma ContractFields(c: Contract)
    ensures ContractData(c).Dict?
    ensures var d, k := ContractData(c).entries, FieldKeys();
      && Holds(d, k[0], Text(c.name)) && Holds(d, k[1], Text(c.division)) && Holds(d, k[2], Text(c.id))
      && Holds(d, k[3], Text(c.permission)) && Holds(d, k[4], SchemaData(c.input)) && Holds(d, k[5], SchemaData(c.output))
      && Holds(d, k[6], Bool(c.retryable)) && Holds(d, k[7], if c.timeout.Some? then Int(c.timeout.value) else Null)
      && Holds(d, k[8], Text(c.description)) && Holds(d, k[9], Dict(c.metadata))
  {
    hide SchemaData, FromAscii;
    FieldsDiffer();
    var keys := FieldKeys();
    var values := [Text(c.name), Text(c.division), Text(c.id), Text(c.permission), SchemaData(c.input), SchemaData(c.output), Bool(c.retryable),
                   if c.timeout.Some? then Int(c.timeout.value) else Null, Text(c.description), Dict(c.metadata)];
    MapOfTen(keys, values);
    assert ContractData(c).entries == TenOf(keys, values);
    var d := TenOf(keys, values);
    assert d[keys[0]] == values[0] && d[keys[1]] == values[1] && d[keys[2]] == values[2] && d[keys[3]] == values[3] && d[keys[4]] == values[4];
    assert d[keys[5]] == values[5] && d[keys[6]] == values[6] && d[keys[7]] == values[7] && d[keys[8]] == values[8] && d[keys[9]] == values[9];
  }

  ghost function TenOf(k: seq<Str>, v: seq<Json>): map<Str, Json>
    requires |k| == |v| == 10
  {
    map[k[0] := v[0], k[1] := v[1], k[2] := v[2], k[3] := v[3], k[4] := v[4], k[5] := v[5], k[6] := v[6], k[7] := v[7], k[8] := v[8], k[9] := v[9]]
  }

  lemma MapOfTen(k: seq<Str>, v: seq<Json>)
    requires |k| == |v| == 10 && forall i, j :: 0 <= i < j < 10 ==> k[i] != k[j]
    ensures forall i :: 0 <= i < 10 ==> k[i] in TenOf(k, v) && TenOf(k, v)[k[i]] == v[i]
  {}

  ghost predicate Holds(d: map<Str, Json>, key: Str, v: Json) { key in d && d[key] == v }

  /** Contracts that compare equal as data are the same contract: no field goes uncompared. */
  lemma SameDataSameContract(a: Contract, b: Contract)
    requires TidySchema(a.input) && TidySchema(a.output) && TidySchema(b.input) && TidySchema(b.output)
    requires ContractData(a) == ContractData(b)
    ensures a == b
  {
    hide ContractData, SchemaData, FromAscii;
    ContractFields(a);
    ContractFields(b);
    SchemasDiffer(a.input, b.input);
    SchemasDiffer(a.output, b.output);
  }
}
