/** Sums over finite maps, and least keys. */
module Totals {
  import opened Contracts

  ghost function Total(m: map<u64, nat>): nat {
    if m == map[] then 0
    else
      var k :| k in m;
      m[k] + Total(m - {k})
  }

  lemma {:induction false} TotalSplit(m: map<u64, nat>, k: u64)
    requires k in m
    ensures Total(m) == m[k] + Total(m - {k})
    decreases |m|
  {
    var c :| c in m && Total(m) == m[c] + Total(m - {c});
    if c != k {
      assert |m - {c}| < |m| && |m - {k}| < |m| by {
        assert (m - {c}).Keys == m.Keys - {c} && (m - {k}).Keys == m.Keys - {k};
      }
      TotalSplit(m - {c}, k);
      TotalSplit(m - {k}, c);
      assert m - {c} - {k} == m - {k} - {c};
    }
  }

  lemma TotalInsert(m: map<u64, nat>, k: u64, n: nat)
    requires k !in m
    ensures Total(m[k := n]) == Total(m) + n
  {
    TotalSplit(m[k := n], k);
    assert m[k := n] - {k} == m;
  }

  lemma TotalReplace(m: map<u64, nat>, k: u64, n: nat)
    requires k in m
    ensures Total(m[k := n]) == Total(m) - m[k] + n
  {
    TotalSplit(m, k);
    TotalSplit(m[k := n], k);
    assert m[k := n] - {k} == m - {k};
  }

  lemma SubsetSize<T>(a: set<T>, b: set<T>)
    requires a <= b
    ensures |a| <= |b|
  {
    assert b == a + (b - a);
  }

  lemma {:induction false} FindLeast(keys: set<u64>) returns (least: u64)
    requires keys != {}
    ensures least in keys && forall j :: j in keys ==> least <= j
    decreases |keys|
  {
    var c :| c in keys;
    var rest := keys - {c};
    assert forall j :: j in keys ==> j == c || j in rest;
    if rest == {} {
      least := c;
    } else {
      var other := FindLeast(rest);
      least := if c <= other then c else other;
    }
  }

  lemma LeastExists(keys: set<u64>)
    requires keys != {}
    ensures exists k :: k in keys && forall j :: j in keys ==> k <= j
  {
    var least := FindLeast(keys);
  }

  /** The least key greater than `after`. */
  function UpperKey<V>(m: map<u64, V>, after: u64): (found: Option<u64>)
    ensures found.None? ==> forall j :: j in m ==> j <= after
    ensures found.Some? ==> found.value in m && found.value > after
                            && forall j :: j in m && j > after ==> found.value <= j
  {
    var above := set j | j in m && j > after;
    if above == {} then
      assert forall j :: j in m && j > after ==> j in above;
      None
    else
      LeastExists(above);
      var k :| k in above && forall j :: j in above ==> k <= j;
      assert forall j :: j in m && j > after ==> j in above;
      Some(k)
  }
}

/** One session's repositories as a pure transition system: accounting is always recomputed
    from what is stored, and an operation yields a new session, ID source and outcome. */
module Store {
  import opened Contracts
  import opened Validation
  import opened Registry
  import opened Totals

  const MAX_STORED_VALUES := 100
  const MAX_STORED_OBJECTS := 100
  const MAX_SESSION_BYTES := 8 * 1024 * 1024
  const RECORD_CHARGE := 128
  const PAGE_BYTE_BUDGET := MAX_PAYLOAD_BYTES / 2

  datatype Limits = Limits(values: nat, objects: nat, bytes: nat)

  /** A host may only tighten the hard maxima: each quota is the smaller of the two. */
  function Clamp(limits: Limits): (r: Limits)
    ensures r.values <= limits.values && r.values <= 100 && (r.values == limits.values || r.values == 100)
    ensures r.objects <= limits.objects && r.objects <= 100 && (r.objects == limits.objects || r.objects == 100)
    ensures r.bytes <= limits.bytes && r.bytes <= 0x80_0000 && (r.bytes == limits.bytes || r.bytes == 0x80_0000)
  {
    Limits(Min(limits.values, MAX_STORED_VALUES),
           Min(limits.objects, MAX_STORED_OBJECTS),
           Min(limits.bytes, MAX_SESSION_BYTES))
  }

  datatype StoredObject<!I> = StoredObject(definition: ClassDefinition<I>, instance: I) {
    function State(): seq<NamedValue> { definition.state(instance) }
    function Charge(): nat { RECORD_CHARGE + |definition.description.name| + StateCharge(State()) }
  }

  datatype Session<!I> = Session(values: map<u64, Value>, objects: map<u64, StoredObject<I>>, closed: bool)

  /** What a session borrows from its host: the frozen registry and its clamped quotas. */
  datatype Host<!I> = Host(definitions: seq<ClassDefinition<I>>, limits: Limits)

  datatype Transition<!I> = Transition(session: Session<I>, next: u64, outcome: Outcome)

  ghost function EmptySession<I>(): Session<I> { Session(map[], map[], false) }

  // ---- charges ------------------------------------------------------------------------------

  function ValueCharge(data: Value): nat { RECORD_CHARGE + ValueBytes(data) }

  function StateCharge(state: seq<NamedValue>): nat {
    if state == [] then 0
    else
      var last := state[|state| - 1];
      StateCharge(state[..|state| - 1]) + RECORD_CHARGE + |last.name| + ValueBytes(last.data)
  }

  ghost function ValueCharges(values: map<u64, Value>): map<u64, nat> {
    map k | k in values :: ValueCharge(values[k])
  }
  ghost function ObjectCharges<I>(objects: map<u64, StoredObject<I>>): map<u64, nat> {
    map k | k in objects :: objects[k].Charge()
  }
  ghost function Used<I>(s: Session<I>): nat {
    Total(ValueCharges(s.values)) + Total(ObjectCharges(s.objects))
  }

  function AttributeParameters(attributes: seq<Attribute>): seq<Parameter> {
    seq(|attributes|, i requires 0 <= i < |attributes| => Parameter(attributes[i].name, attributes[i].kind))
  }

  predicate StateMatches<I>(d: ClassDefinition<I>, state: seq<NamedValue>) {
    && ValidArguments(state, AttributeParameters(d.description.attributes))
    && StateCharge(state) <= d.maxStateBytes
  }

  function FindMethod(methods: seq<Method>, name: Bytes): (found: Option<Method>)
    ensures found.Some? ==> found.value in methods && found.value.name == name
  {
    if methods == [] then None
    else if methods[0].name == name then Some(methods[0])
    else FindMethod(methods[1..], name)
  }

  /** The successor of an issued ID; zero means exhausted. */
  function Successor(id: u64): u64 { if id == U64_MAX then 0 else id + 1 }

  // ---- operations ---------------------------------------------------------------------------

  ghost function Refuse<I>(s: Session<I>, next: u64, code: ErrorCode): Transition<I> {
    Transition(s, next, MakeError(code))
  }

  ghost function ApplyPut<I>(host: Host<I>, s: Session<I>, next: u64, data: Value): Transition<I> {
    if !ValidValue(data) then Refuse(s, next, INVALID_REQUEST)
    else if |s.values| >= host.limits.values || Used(s) + ValueCharge(data) > host.limits.bytes then
      Refuse(s, next, QUOTA_EXCEEDED)
    else if next == 0 then Refuse(s, next, QUOTA_EXCEEDED)
    else Transition(s.(values := s.values[next := data]), Successor(next), Stored(ValueRecord(next, data)))
  }

  ghost function ReadValue(values: map<u64, Value>, id: u64): Outcome {
    if id == 0 then MakeError(INVALID_REQUEST)
    else if id in values then Stored(ValueRecord(id, values[id]))
    else MakeError(NOT_FOUND)
  }

  /** The stored records after a cursor, in increasing ID order, while room and budget last. */
  ghost function PageFrom(values: map<u64, Value>, after: u64, room: nat, budget: nat): seq<ValueRecord>
    decreases room
  {
    var k := UpperKey(values, after);
    if room == 0 || k.None? || ValueCharge(values[k.value]) > budget then []
    else [ValueRecord(k.value, values[k.value])]
         + PageFrom(values, k.value, room - 1, budget - ValueCharge(values[k.value]))
  }

  lemma PageStep(values: map<u64, Value>, after: u64, room: nat, budget: nat)
    ensures var k := UpperKey(values, after);
            PageFrom(values, after, room, budget)
            == if room == 0 || k.None? || ValueCharge(values[k.value]) > budget then []
               else [ValueRecord(k.value, values[k.value])]
                    + PageFrom(values, k.value, room - 1, budget - ValueCharge(values[k.value]))
  {
  }

  function LastId(page: seq<ValueRecord>, after: u64): u64 {
    if page == [] then after else page[|page| - 1].id
  }

  ghost function PageOf(values: map<u64, Value>, cursor: u64, limit: u32): Outcome {
    if !ValidPageSize(limit) then MakeError(INVALID_REQUEST)
    else
      var page := PageFrom(values, cursor, limit, PAGE_BYTE_BUDGET);
      var last := LastId(page, cursor);
      ValuesPage(page, if UpperKey(values, last).Some? then last else 0)
  }

  ghost function ApplyCreate<I>(host: Host<I>, s: Session<I>, next: u64, name: Bytes, arguments: seq<NamedValue>)
    : Transition<I>
  {
    if !ValidName(name) then Refuse(s, next, INVALID_REQUEST)
    else
      var found := Lookup(host.definitions, name);
      if found.None? then Refuse(s, next, NOT_FOUND)
      else if !ValidArguments(arguments, found.value.description.constructorParameters) then
        Refuse(s, next, INVALID_REQUEST)
      else if |s.objects| >= host.limits.objects then Refuse(s, next, QUOTA_EXCEEDED)
      else if found.value.create.None? then Refuse(s, next, INTERNAL_FAILURE)
      else
        match found.value.create.value(arguments)
        case CreateFailed(code) => Refuse(s, next, code)
        case Created(None) => Refuse(s, next, INTERNAL_FAILURE)
        case Created(Some(instance)) => Admit(host, s, next, StoredObject(found.value, instance))
  }

  /** Checks and retains a freshly made instance. */
  ghost function Admit<I>(host: Host<I>, s: Session<I>, next: u64, entry: StoredObject<I>): Transition<I> {
    if !StateMatches(entry.definition, entry.State()) then Refuse(s, next, INTERNAL_FAILURE)
    else if Used(s) + entry.Charge() > host.limits.bytes then Refuse(s, next, QUOTA_EXCEEDED)
    else if next == 0 then Refuse(s, next, QUOTA_EXCEEDED)
    else Transition(s.(objects := s.objects[next := entry]), Successor(next),
                    Snapshot(next, entry.definition.description.name, entry.State()))
  }

  ghost function ReadObject<I>(objects: map<u64, StoredObject<I>>, id: u64): Outcome {
    if id == 0 then MakeError(INVALID_REQUEST)
    else if id !in objects then MakeError(NOT_FOUND)
    else if !StateMatches(objects[id].definition, objects[id].State()) then MakeError(INTERNAL_FAILURE)
    else Snapshot(id, objects[id].definition.description.name, objects[id].State())
  }

  ghost function ReadAttribute<I>(objects: map<u64, StoredObject<I>>, id: u64, name: Bytes): Outcome {
    if !ValidName(name) then MakeError(INVALID_REQUEST)
    else
      var snapshot := ReadObject(objects, id);
      if snapshot.Error? then snapshot
      else if !snapshot.Snapshot? then MakeError(INTERNAL_FAILURE)
      else
        var found := Find(snapshot.state, name);
        if found.None? then MakeError(NOT_FOUND) else Result(found.value)
  }

  ghost function ApplyRelease<I>(s: Session<I>, next: u64, id: u64): Transition<I> {
    if id == 0 then Refuse(s, next, INVALID_REQUEST)
    else if id !in s.objects then Refuse(s, next, NOT_FOUND)
    else Transition(s.(objects := s.objects - {id}), next, Released)
  }

  ghost function ApplyInvoke<I>(host: Host<I>, s: Session<I>, next: u64, id: u64, name: Bytes,
                                arguments: seq<NamedValue>): Transition<I>
  {
    if id == 0 || !ValidName(name) then Refuse(s, next, INVALID_REQUEST)
    else if id !in s.objects then Refuse(s, next, NOT_FOUND)
    else
      var entry := s.objects[id];
      var called := FindMethod(entry.definition.description.methods, name);
      if called.None? then Refuse(s, next, NOT_FOUND)
      else if !ValidArguments(arguments, called.value.parameters) then Refuse(s, next, INVALID_REQUEST)
      else
        match entry.definition.clone(entry.instance)
        case None => Refuse(s, next, INTERNAL_FAILURE)
        case Some(copy) =>
          var (candidate, invoked) := entry.definition.invoke(copy, name, arguments);
          Publish(host, s, next, id, called.value.resultKind, candidate, invoked)
  }

  /** Replaces the object only when result, state and quota all hold for the candidate. */
  ghost function Publish<I>(host: Host<I>, s: Session<I>, next: u64, id: u64, resultKind: ValueKind,
                            candidate: I, invoked: Invocation): Transition<I>
    requires id in s.objects
  {
    if invoked.InvokeFailed? then Refuse(s, next, invoked.code)
    else
      var entry := s.objects[id].(instance := candidate);
      if !ValidValue(invoked.value) || KindOf(invoked.value) != resultKind
         || !StateMatches(entry.definition, entry.State()) then Refuse(s, next, INTERNAL_FAILURE)
      else
        var published := s.(objects := s.objects[id := entry]);
        if Used(published) > host.limits.bytes then Refuse(s, next, QUOTA_EXCEEDED)
        else Transition(published, next, Result(invoked.value))
  }

  ghost function DescribeByName<I>(definitions: seq<ClassDefinition<I>>, name: Bytes): Outcome {
    if !ValidName(name) then MakeError(INVALID_REQUEST)
    else
      var found := Lookup(definitions, name);
      if found.None? then MakeError(NOT_FOUND) else Description(found.value.description)
  }

  ghost function Execute<I>(host: Host<I>, s: Session<I>, next: u64, op: Operation): Transition<I> {
    if s.closed then Refuse(s, next, ACCESS_DENIED)
    else
      match op
      case ListClasses(after, limit) => Transition(s, next, List(ClassNames(host.definitions), after, limit))
      case DescribeClass(name) => Transition(s, next, DescribeByName(host.definitions, name))
      case PutValue(data) => ApplyPut(host, s, next, data)
      case GetValue(id) => Transition(s, next, ReadValue(s.values, id))
      case ListValues(cursor, limit) => Transition(s, next, PageOf(s.values, cursor, limit))
      case CreateObject(name, arguments) => ApplyCreate(host, s, next, name, arguments)
      case GetObject(id) => Transition(s, next, ReadObject(s.objects, id))
      case ReleaseObject(id) => ApplyRelease(s, next, id)
      case GetAttribute(id, name) => Transition(s, next, ReadAttribute(s.objects, id, name))
      case InvokeMethod(id, name, arguments) => ApplyInvoke(host, s, next, id, name, arguments)
  }

  ghost function Close<I>(s: Session<I>): Session<I> { Session(map[], map[], true) }

  // ---- the invariant of every reachable session ---------------------------------------------

  ghost predicate ValidHost<I>(host: Host<I>) {
    && ValidRegistry(host.definitions)
    && host.limits.values <= MAX_STORED_VALUES
    && host.limits.objects <= MAX_STORED_OBJECTS
    && host.limits.bytes <= MAX_SESSION_BYTES
  }

  /** Issued before the source reached `next`. */
  predicate Issued(id: u64, next: u64) { id != 0 && (next == 0 || id < next) }

  ghost predicate Registered<I>(host: Host<I>, entry: StoredObject<I>) {
    && entry.definition in host.definitions
    && StateMatches(entry.definition, entry.State())
  }

  ghost predicate ValidSession<I>(host: Host<I>, s: Session<I>, next: u64) {
    && (forall k :: k in s.values ==> ValidValue(s.values[k]) && Issued(k, next))
    && (forall k :: k in s.objects ==> Registered(host, s.objects[k]) && Issued(k, next))
    && s.values.Keys !! s.objects.Keys
    && |s.values| <= host.limits.values
    && |s.objects| <= host.limits.objects
    && Used(s) <= host.limits.bytes
    && (s.closed ==> s.values == map[] && s.objects == map[])
  }

  /** Moving the ID source forward keeps what was issued issued. */
  predicate Advances(next: u64, later: u64) { later == next || (next != 0 && (later == 0 || next < later)) }

  lemma EmptyIsValid<I>(host: Host<I>, next: u64)
    requires ValidHost(host)
    ensures ValidSession(host, EmptySession(), next)
    ensures Used(EmptySession<I>()) == 0
  {
    assert ValueCharges(map[]) == map[];
    assert ObjectCharges<I>(map[]) == map[];
  }

  lemma ClosedIsValid<I>(host: Host<I>, s: Session<I>, next: u64)
    requires ValidHost(host)
    ensures ValidSession(host, Close(s), next)
    ensures Used(Close(s)) == 0
  {
    hide ValidRegistry;
    EmptyIsValid(host, next);
    assert Used(Close(s)) == Used(EmptySession<I>());
  }

  lemma UsedAfterPut<I>(s: Session<I>, id: u64, data: Value)
    requires id !in s.values
    ensures Used(s.(values := s.values[id := data])) == Used(s) + ValueCharge(data)
  {
    TotalInsert(ValueCharges(s.values), id, ValueCharge(data));
    assert ValueCharges(s.values[id := data]) == ValueCharges(s.values)[id := ValueCharge(data)];
  }

  lemma UsedAfterCreate<I>(s: Session<I>, id: u64, entry: StoredObject<I>)
    requires id !in s.objects
    ensures Used(s.(objects := s.objects[id := entry])) == Used(s) + entry.Charge()
  {
    hide StateCharge;
    TotalInsert(ObjectCharges(s.objects), id, entry.Charge());
    assert ObjectCharges(s.objects[id := entry]) == ObjectCharges(s.objects)[id := entry.Charge()];
  }

  lemma UsedAfterRelease<I>(s: Session<I>, id: u64)
    requires id in s.objects
    ensures Used(s) == Used(s.(objects := s.objects - {id})) + s.objects[id].Charge()
  {
    hide StateCharge;
    TotalSplit(ObjectCharges(s.objects), id);
    assert ObjectCharges(s.objects - {id}) == ObjectCharges(s.objects) - {id};
  }

  lemma UsedAfterPublish<I>(s: Session<I>, id: u64, entry: StoredObject<I>)
    requires id in s.objects
    ensures Used(s.(objects := s.objects[id := entry])) == Used(s) - s.objects[id].Charge() + entry.Charge()
  {
    hide StateCharge;
    TotalReplace(ObjectCharges(s.objects), id, entry.Charge());
    assert ObjectCharges(s.objects[id := entry]) == ObjectCharges(s.objects)[id := entry.Charge()];
  }

  lemma PutKeepsValid<I>(host: Host<I>, s: Session<I>, next: u64, data: Value)
    requires ValidHost(host) && ValidSession(host, s, next) && !s.closed
    ensures var t := ApplyPut(host, s, next, data); ValidSession(host, t.session, t.next)
  {
    hide Registered, MakeError, Used, ValueCharge, ValidValue, ValidRegistry;
    var t := ApplyPut(host, s, next, data);
    if t.session != s {
      UsedAfterPut(s, next, data);
    }
  }

  lemma InsertedObjectIsValid<I>(host: Host<I>, s: Session<I>, next: u64, entry: StoredObject<I>)
    requires ValidSession(host, s, next) && !s.closed && next != 0 && Registered(host, entry)
    requires |s.objects| < host.limits.objects
    requires Used(s.(objects := s.objects[next := entry])) <= host.limits.bytes
    ensures ValidSession(host, s.(objects := s.objects[next := entry]), Successor(next))
  {
    hide Registered, Used, ValidValue;
    var more := s.objects[next := entry];
    assert more.Keys == s.objects.Keys + {next};
    assert |more| == |more.Keys| && |s.objects| == |s.objects.Keys|;
  }

  lemma AdmitKeepsValid<I>(host: Host<I>, s: Session<I>, next: u64, entry: StoredObject<I>)
    requires ValidHost(host) && ValidSession(host, s, next) && !s.closed
    requires entry.definition in host.definitions && |s.objects| < host.limits.objects
    ensures var t := Admit(host, s, next, entry); ValidSession(host, t.session, t.next)
  {
    hide StateMatches, MakeError, Used, StateCharge, ValidValue, ValidRegistry;
    var t := Admit(host, s, next, entry);
    if t.outcome.Snapshot? {
      assert Registered(host, entry);
      UsedAfterCreate(s, next, entry);
      InsertedObjectIsValid(host, s, next, entry);
    }
  }

  lemma PublishKeepsValid<I>(host: Host<I>, s: Session<I>, next: u64, id: u64, resultKind: ValueKind,
                             candidate: I, invoked: Invocation)
    requires ValidHost(host) && ValidSession(host, s, next) && id in s.objects
    ensures var t := Publish(host, s, next, id, resultKind, candidate, invoked);
            ValidSession(host, t.session, t.next)
  {
    hide StateMatches, MakeError, StateCharge, Used, ValidValue, ValidRegistry;
    var t := Publish(host, s, next, id, resultKind, candidate, invoked);
    assert t.session.objects.Keys == s.objects.Keys;
    assert |t.session.objects| == |t.session.objects.Keys|;
  }

  lemma ReleaseKeepsValid<I>(host: Host<I>, s: Session<I>, next: u64, id: u64)
    requires ValidHost(host) && ValidSession(host, s, next)
    ensures var t := ApplyRelease(s, next, id); ValidSession(host, t.session, t.next)
  {
    hide Registered, MakeError, StateCharge, Used, ValidValue, ValidRegistry;
    if id != 0 && id in s.objects {
      UsedAfterRelease(s, id);
      assert (s.objects - {id}).Keys == s.objects.Keys - {id};
    }
  }

  /** Every operation keeps the accounting, the quotas and the shape of every stored object. */
  lemma ExecuteKeepsValid<I>(host: Host<I>, s: Session<I>, next: u64, op: Operation)
    requires ValidHost(host) && ValidSession(host, s, next)
    ensures var t := Execute(host, s, next, op); ValidSession(host, t.session, t.next)
  {
    hide ValidSession, ValidRegistry, MakeError, StateMatches, Publish, Admit, ValidArguments, ValidName,
         ApplyPut, ApplyRelease, PageOf, ReadObject, ReadAttribute, List;
    if !s.closed {
      match op
      case PutValue(data) => PutKeepsValid(host, s, next, data);
      case ReleaseObject(id) => ReleaseKeepsValid(host, s, next, id);
      case CreateObject(name, arguments) => CreateKeepsValid(host, s, next, name, arguments);
      case InvokeMethod(id, name, arguments) => InvokeKeepsValid(host, s, next, id, name, arguments);
      case _ =>
    }
  }

  lemma CreateKeepsValid<I>(host: Host<I>, s: Session<I>, next: u64, name: Bytes, arguments: seq<NamedValue>)
    requires ValidHost(host) && ValidSession(host, s, next) && !s.closed
    ensures var t := ApplyCreate(host, s, next, name, arguments); ValidSession(host, t.session, t.next)
  {
    hide ValidSession, ValidRegistry, MakeError, StateMatches, Admit, ValidArguments, ValidName;
    var found := Lookup(host.definitions, name);
    if found.Some? && found.value.create.Some? {
      var made := found.value.create.value(arguments);
      if made.Created? && made.instance.Some? && |s.objects| < host.limits.objects {
        AdmitKeepsValid(host, s, next, StoredObject(found.value, made.instance.value));
      }
    }
  }

  lemma InvokeKeepsValid<I>(host: Host<I>, s: Session<I>, next: u64, id: u64, name: Bytes,
                            arguments: seq<NamedValue>)
    requires ValidHost(host) && ValidSession(host, s, next)
    ensures var t := ApplyInvoke(host, s, next, id, name, arguments); ValidSession(host, t.session, t.next)
  {
    hide ValidSession, ValidRegistry, MakeError, StateMatches, Publish, ValidArguments, ValidName;
    if id in s.objects {
      var entry := s.objects[id];
      var called := FindMethod(entry.definition.description.methods, name);
      var copy := entry.definition.clone(entry.instance);
      if called.Some? && copy.Some? {
        var (candidate, invoked) := entry.definition.invoke(copy.value, name, arguments);
        PublishKeepsValid(host, s, next, id, called.value.resultKind, candidate, invoked);
      }
    }
  }
}
