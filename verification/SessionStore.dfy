/** The session store as it runs: cached charges, a running byte total, and loops. */
module SessionStores {
  import opened Contracts
  import opened Validation
  import opened ByteOrder
  import opened Registry
  import opened Totals
  import Spec = Store
  import opened StoreTheorems

  /** Server-lifetime ID source; it never wraps and zero means exhausted. */
  class IdentifierSource {
    var next: u64

    constructor (first: u64)
      ensures next == first
    {
      next := first;
    }

    method Next() returns (id: Option<u64>)
      modifies this
      ensures id == if old(next) == 0 then None else Some(old(next))
      ensures next == if old(next) == 0 then 0 else Spec.Successor(old(next))
      ensures Spec.Advances(old(next), next)
    {
      if next == 0 {
        return None;
      }
      id := Some(next);
      next := if next == U64_MAX then 0 else next + 1;
    }
  }

  method ChargeState(state: seq<NamedValue>) returns (charge: nat)
    ensures charge == Spec.StateCharge(state)
  {
    charge := 0;
    for i := 0 to |state|
      invariant charge == Spec.StateCharge(state[..i])
    {
      charge := charge + (Spec.RECORD_CHARGE + |state[i].name| + ValueBytes(state[i].data));
      assert state[..i + 1][..i] == state[..i];
    }
    assert state[..|state|] == state;
  }

  datatype Entry<!I> = Entry(definition: ClassDefinition<I>, instance: I, charge: nat) {
    function Object(): Spec.StoredObject<I> { Spec.StoredObject(definition, instance) }
  }

  /** The stored objects without their cached charges. */
  ghost function Project<I>(objects: map<u64, Entry<I>>): (plain: map<u64, Spec.StoredObject<I>>)
    ensures plain.Keys == objects.Keys && |plain| == |objects|
    ensures forall k :: k in objects ==> plain[k] == objects[k].Object()
  {
    var plain := map k | k in objects :: objects[k].Object();
    assert plain.Keys == objects.Keys && |plain.Keys| == |objects.Keys|;
    plain
  }

  /** Every cached charge is the one its object's current state costs. */
  ghost predicate Cached<I>(objects: map<u64, Entry<I>>) {
    forall k :: k in objects ==> objects[k].charge == objects[k].Object().Charge()
  }

  lemma StoreEntry<I>(objects: map<u64, Entry<I>>, id: u64, entry: Entry<I>)
    requires Cached(objects) && entry.charge == entry.Object().Charge()
    ensures Project(objects[id := entry]) == Project(objects)[id := entry.Object()]
    ensures Cached(objects[id := entry])
  {
    hide Spec.StateCharge;
  }

  lemma DropEntry<I>(objects: map<u64, Entry<I>>, id: u64)
    requires Cached(objects)
    ensures Project(objects - {id}) == Project(objects) - {id}
    ensures Cached(objects - {id})
  {
    hide Spec.StateCharge;
  }

  /** Dropping an object gives back exactly its cached charge. */
  lemma DropCharge<I>(s: Spec.Session<I>, objects: map<u64, Entry<I>>, id: u64)
    requires Cached(objects) && s.objects == Project(objects) && id in objects
    ensures Spec.Used(s) == Spec.Used(s.(objects := Project(objects - {id}))) + objects[id].charge
  {
    hide Spec.StateCharge, Spec.Used, Project;
    assert objects[id].charge == s.objects[id].Charge();
    hide Cached;
    DropEntry(objects, id);
    Spec.UsedAfterRelease(s, id);
  }

  /** Replacing an object exchanges its cached charge for the new one. */
  lemma ReplaceCharge<I>(s: Spec.Session<I>, objects: map<u64, Entry<I>>, id: u64, entry: Entry<I>)
    requires Cached(objects) && s.objects == Project(objects) && id in objects
    requires entry.charge == entry.Object().Charge()
    ensures Spec.Used(s) >= objects[id].charge
    ensures Spec.Used(s.(objects := Project(objects)[id := entry.Object()]))
            == Spec.Used(s) - objects[id].charge + entry.charge
  {
    hide Spec.StateCharge, Spec.Used, Project;
    DropCharge(s, objects, id);
    assert objects[id].charge == s.objects[id].Charge();
    hide Cached;
    Spec.UsedAfterPublish(s, id, entry.Object());
  }

  class SessionStore<I> {
    const registry: ClassRegistry<I>
    const identifiers: IdentifierSource
    const limits: Spec.Limits
    var values: map<u64, Value>
    var objects: map<u64, Entry<I>>
    var used: nat
    var closed: bool

    ghost function Host(): Spec.Host<I> reads registry { Spec.Host(registry.definitions, limits) }

    ghost function View(): Spec.Session<I> reads this { Spec.Session(values, Project(objects), closed) }

    /** The caches agree with what a recount of the stored data gives. */
    ghost predicate Accounted() reads this {
      used == Spec.Used(View()) && Cached(objects)
    }

    ghost predicate Valid() reads this, registry, identifiers {
      Accounted() && Spec.ValidHost(Host()) && Spec.ValidSession(Host(), View(), identifiers.next)
    }

    constructor (registry: ClassRegistry<I>, identifiers: IdentifierSource, limits: Spec.Limits)
      requires registry.Valid()
      ensures Valid() && View() == Spec.EmptySession()
      ensures this.registry == registry && this.identifiers == identifiers && this.limits == Spec.Clamp(limits)
    {
      this.registry := registry;
      this.identifiers := identifiers;
      this.limits := Spec.Clamp(limits);
      values, objects, used, closed := map[], map[], 0, false;
      new;
      Spec.EmptyIsValid(Host(), identifiers.next);
      assert View() == Spec.EmptySession();
    }

    method Close()
      requires Valid()
      modifies this
      ensures Valid() && View() == Spec.Close(old(View())) && used == 0
    {
      hide Spec.ValidSession, Spec.ValidHost, Spec.Used;
      Spec.ClosedIsValid(Host(), View(), identifiers.next);
      objects := map[];
      values := map[];
      used := 0;
      closed := true;
      assert Project<I>(map[]) == map[];
    }

    /** What a single operation relies on: the caches, the budget, and an unused next ID. */
    ghost predicate Ready() reads this, identifiers {
      && !closed && Accounted() && used <= limits.bytes
      && identifiers.next !in values && identifiers.next !in objects
    }

    lemma ValidIsReady()
      requires Valid() && !closed
      ensures Ready() && AllValid(values)
    {
      hide ValidValue, Spec.Registered, Spec.Used, Cached;
    }

    /** The store, the ID source and the outcome are those of this specified transition. */
    ghost predicate Reached(t: Spec.Transition<I>, outcome: Outcome) reads this, identifiers {
      View() == t.session && identifiers.next == t.next && outcome == t.outcome
    }

    method ApplyPut(data: Value) returns (outcome: Outcome)
      requires Ready()
      modifies this, identifiers
      ensures Accounted() && Reached(old(Spec.ApplyPut(Host(), View(), identifiers.next, data)), outcome)
    {
      hide MakeError, ValidValue, Spec.Used, Project, Cached;
      if !ValidValue(data) {
        return MakeError(INVALID_REQUEST);
      }
      var charge := Spec.RECORD_CHARGE + ValueBytes(data);
      var room: nat := limits.bytes - used;
      if |values| >= limits.values || charge > room {
        return MakeError(QUOTA_EXCEEDED);
      }
      var id := identifiers.Next();
      if id.None? {
        return MakeError(QUOTA_EXCEEDED);
      }
      Spec.UsedAfterPut(View(), id.value, data);
      values := values[id.value := data];
      used := used + charge;
      return Stored(ValueRecord(id.value, data));
    }

    method ApplyListValues(cursor: u64, limit: u32) returns (outcome: Outcome)
      requires AllValid(values)
      ensures outcome == Spec.PageOf(values, cursor, limit)
    {
      hide MakeError, UpperKey, Spec.ValueCharge, Spec.PageFrom, AllValid;
      if !ValidPageSize(limit) {
        return MakeError(INVALID_REQUEST);
      }
      var page, bytes: nat := [], 0;
      var item := UpperKey(values, cursor);
      ghost var last := cursor;
      while item.Some? && |page| < limit
        invariant |page| <= limit && bytes <= Spec.PAGE_BYTE_BUDGET
        invariant last == Spec.LastId(page, cursor) && item == UpperKey(values, last)
        invariant Spec.PageFrom(values, cursor, limit, Spec.PAGE_BYTE_BUDGET)
                  == page + Spec.PageFrom(values, last, limit - |page|, Spec.PAGE_BYTE_BUDGET - bytes)
        decreases limit - |page|
      {
        var charge := Spec.ValueCharge(values[item.value]);
        var left: nat := Spec.PAGE_BYTE_BUDGET - bytes;
        Spec.PageStep(values, last, limit - |page|, left);
        if charge > left {
          break;
        }
        ghost var rest := Spec.PageFrom(values, item.value, limit - |page| - 1, left - charge);
        bytes := bytes + charge;
        assert page + ([ValueRecord(item.value, values[item.value])] + rest)
               == page + [ValueRecord(item.value, values[item.value])] + rest;
        page := page + [ValueRecord(item.value, values[item.value])];
        last := item.value;
        item := UpperKey(values, item.value);
      }
      Spec.PageStep(values, last, limit - |page|, Spec.PAGE_BYTE_BUDGET - bytes);
      assert page == Spec.PageFrom(values, cursor, limit, Spec.PAGE_BYTE_BUDGET);
      if item.Some? {
        NonfinalPagesProgress(values, cursor, limit);
        return ValuesPage(page, page[|page| - 1].id);
      }
      return ValuesPage(page, 0);
    }

    method ApplyCreate(name: Bytes, arguments: seq<NamedValue>) returns (outcome: Outcome)
      requires Ready() && registry.Valid()
      modifies this, identifiers
      ensures Accounted() && Reached(old(Spec.ApplyCreate(Host(), View(), identifiers.next, name, arguments)), outcome)
    {
      hide MakeError, ValidArguments, ValidName, Spec.ValidSession, Spec.Used, Spec.StateMatches, Spec.Admit, Lookup,
           Increasing, Project, Cached, ValidDescription;
      if !ValidName(name) {
        return MakeError(INVALID_REQUEST);
      }
      var found := Lookup(registry.definitions, name);
      if found.None? {
        return MakeError(NOT_FOUND);
      }
      var definition := found.value;
      if !ValidArguments(arguments, definition.description.constructorParameters) {
        return MakeError(INVALID_REQUEST);
      }
      if |objects| >= limits.objects {
        return MakeError(QUOTA_EXCEEDED);
      }
      assert Admissible(definition);
      var created := definition.create.value(arguments);
      if created.CreateFailed? {
        return MakeError(created.code);
      }
      if created.instance.None? {
        return MakeError(INTERNAL_FAILURE);
      }
      outcome := Retain(name, definition, created.instance.value);
    }

    method Retain(name: Bytes, definition: ClassDefinition<I>, instance: I) returns (outcome: Outcome)
      requires Ready() && name == definition.description.name
      modifies this, identifiers
      ensures Accounted()
      ensures Reached(old(Spec.Admit(Host(), View(), identifiers.next, Spec.StoredObject(definition, instance))),
                      outcome)
    {
      hide MakeError, Spec.StateMatches, ValidValue, Spec.StateCharge, Spec.Used, Project;
      var state := definition.state(instance);
      if !Spec.StateMatches(definition, state) {
        return MakeError(INTERNAL_FAILURE);
      }
      var fields := ChargeState(state);
      var charge := Spec.RECORD_CHARGE + |name| + fields;
      var room: nat := limits.bytes - used;
      if charge > room {
        return MakeError(QUOTA_EXCEEDED);
      }
      var id := identifiers.Next();
      if id.None? {
        return MakeError(QUOTA_EXCEEDED);
      }
      ghost var before := View();
      Spec.UsedAfterCreate(before, id.value, Spec.StoredObject(definition, instance));
      StoreEntry(objects, id.value, Entry(definition, instance, charge));
      objects := objects[id.value := Entry(definition, instance, charge)];
      used := used + charge;
      return Snapshot(id.value, name, state);
    }

    method ApplyGetObject(id: u64) returns (outcome: Outcome)
      ensures outcome == Spec.ReadObject(Project(objects), id)
    {
      if id == 0 {
        return MakeError(INVALID_REQUEST);
      }
      if id !in objects {
        return MakeError(NOT_FOUND);
      }
      var state := objects[id].definition.state(objects[id].instance);
      if !Spec.StateMatches(objects[id].definition, state) {
        return MakeError(INTERNAL_FAILURE);
      }
      return Snapshot(id, objects[id].definition.description.name, state);
    }

    method ApplyRelease(id: u64) returns (outcome: Outcome)
      requires Ready()
      modifies this
      ensures Accounted() && Reached(old(Spec.ApplyRelease(View(), identifiers.next, id)), outcome)
      ensures outcome == Released <==> id != 0 && id in old(objects)
      ensures outcome == Released ==>
                objects == old(objects) - {id} && used == old(used) - old(objects)[id].charge && values == old(values)
    {
      hide MakeError, Spec.Used, Project, Cached;
      if id == 0 {
        return MakeError(INVALID_REQUEST);
      }
      if id !in objects {
        return MakeError(NOT_FOUND);
      }
      DropCharge(View(), objects, id);
      DropEntry(objects, id);
      used := used - objects[id].charge;
      objects := objects - {id};
      return Released;
    }

    method ApplyGetAttribute(id: u64, name: Bytes) returns (outcome: Outcome)
      ensures outcome == Spec.ReadAttribute(Project(objects), id, name)
    {
      hide MakeError;
      if !ValidName(name) {
        return MakeError(INVALID_REQUEST);
      }
      var snapshot := ApplyGetObject(id);
      if snapshot.Error? {
        return snapshot;
      }
      var found := Find(snapshot.state, name);
      return if found.None? then MakeError(NOT_FOUND) else Result(found.value);
    }

    method ApplyInvoke(id: u64, name: Bytes, arguments: seq<NamedValue>) returns (outcome: Outcome)
      requires Ready()
      modifies this
      ensures Accounted() && Reached(old(Spec.ApplyInvoke(Host(), View(), identifiers.next, id, name, arguments)), outcome)
    {
      hide MakeError, ValidArguments, ValidName, Spec.StateMatches, ValidValue, Spec.Publish;
      if id == 0 || !ValidName(name) {
        return MakeError(INVALID_REQUEST);
      }
      if id !in objects {
        return MakeError(NOT_FOUND);
      }
      var entry := objects[id];
      var called := Spec.FindMethod(entry.definition.description.methods, name);
      if called.None? {
        return MakeError(NOT_FOUND);
      }
      if !ValidArguments(arguments, called.value.parameters) {
        return MakeError(INVALID_REQUEST);
      }
      var copy := entry.definition.clone(entry.instance);
      if copy.None? {
        return MakeError(INTERNAL_FAILURE);
      }
      var (candidate, invoked) := entry.definition.invoke(copy.value, name, arguments);
      outcome := Publish(id, called.value.resultKind, candidate, invoked);
    }

    method Publish(id: u64, resultKind: ValueKind, candidate: I, invoked: Invocation) returns (outcome: Outcome)
      requires Ready() && id in objects
      modifies this
      ensures Accounted()
      ensures Reached(old(Spec.Publish(Host(), View(), identifiers.next, id, resultKind, candidate, invoked)),
                      outcome)
    {
      hide MakeError, Spec.StateMatches, ValidValue, Spec.StateCharge, Spec.Used, Project, Cached;
      if invoked.InvokeFailed? {
        return MakeError(invoked.code);
      }
      var entry := objects[id];
      var state := entry.definition.state(candidate);
      if !ValidValue(invoked.value) || KindOf(invoked.value) != resultKind
         || !Spec.StateMatches(entry.definition, state) {
        return MakeError(INTERNAL_FAILURE);
      }
      var fields := ChargeState(state);
      var charge := Spec.RECORD_CHARGE + |entry.definition.description.name| + fields;
      var updated := Entry(entry.definition, candidate, charge);
      ReplaceCharge(View(), objects, id, updated);
      var retained: nat := used - entry.charge;
      var room: nat := limits.bytes - retained;
      if charge > room {
        return MakeError(QUOTA_EXCEEDED);
      }
      StoreEntry(objects, id, updated);
      objects := objects[id := updated];
      used := retained + charge;
      return Result(invoked.value);
    }

    /** The cached, looping store refines the recounting one, operation by operation. */
    method Execute(op: Operation) returns (outcome: Outcome)
      requires Valid()
      modifies this, identifiers
      ensures Valid() && Reached(old(Spec.Execute(Host(), View(), identifiers.next, op)), outcome)
    {
      hide MakeError, Spec.ValidSession, Spec.Used, Spec.ApplyPut, Spec.ApplyCreate,
           Spec.ApplyInvoke, Spec.ApplyRelease, Spec.PageOf, Spec.ReadObject, Spec.ReadAttribute, List,
           ValidName;
      Spec.ExecuteKeepsValid(Host(), View(), identifiers.next, op);
      if closed {
        return MakeError(ACCESS_DENIED);
      }
      ValidIsReady();
      match op
      case ListClasses(after, limit) => outcome := registry.ListClasses(after, limit);
      case DescribeClass(name) =>
        if !ValidName(name) {
          return MakeError(INVALID_REQUEST);
        }
        var found := Lookup(registry.definitions, name);
        outcome := if found.None? then MakeError(NOT_FOUND) else Description(found.value.description);
      case PutValue(data) => outcome := ApplyPut(data);
      case GetValue(id) =>
        outcome := if id == 0 then MakeError(INVALID_REQUEST)
                   else if id in values then Stored(ValueRecord(id, values[id]))
                   else MakeError(NOT_FOUND);
      case ListValues(cursor, limit) => outcome := ApplyListValues(cursor, limit);
      case CreateObject(name, arguments) => outcome := ApplyCreate(name, arguments);
      case GetObject(id) => outcome := ApplyGetObject(id);
      case ReleaseObject(id) => outcome := ApplyRelease(id);
      case GetAttribute(id, name) => outcome := ApplyGetAttribute(id, name);
      case InvokeMethod(id, name, arguments) => outcome := ApplyInvoke(id, name, arguments);
    }
  }
}
