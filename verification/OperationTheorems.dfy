/** What each operation of a session means to its caller, over whole runs of the session. */
module OperationTheorems {
  import opened Contracts
  import opened Validation
  import opened ByteOrder
  import opened Registry
  import opened Totals
  import opened Store
  import opened StoreTheorems
  import opened Server

  // ---- along a run --------------------------------------------------------------------------

  lemma {:induction false} OpenAlongTheRun<I>(host: Host<I>, s: Session<I>, turns: seq<Turn>, i: nat)
    requires i <= |turns|
    ensures After(host, s, turns[..i]).closed == s.closed
  {
    hide Execute;
    if i > 0 {
      OpenAlongTheRun(host, s, turns, i - 1);
      assert turns[..i][..i - 1] == turns[..i - 1];
      StaysOpen(host, After(host, s, turns[..i - 1]), turns[i - 1].next, turns[i - 1].op);
    }
  }

  /** The session a turn finds, with the source that turn sees. */
  lemma BeforeTurn<I>(host: Host<I>, s: Session<I>, next: u64, turns: seq<Turn>, i: nat)
    requires ValidHost(host) && ValidSession(host, s, next) && Paced(host, s, next, turns) && i < |turns|
    ensures ValidSession(host, After(host, s, turns[..i]), turns[i].next)
    ensures After(host, s, turns[..i + 1]) == Take(host, After(host, s, turns[..i]), turns[i]).session
    ensures ValidSession(host, After(host, s, turns[..i + 1]), Take(host, After(host, s, turns[..i]), turns[i]).next)
  {
    hide ValidHost, ValidSession, Take;
    var prefix := turns[..i + 1];
    assert turns == prefix + turns[i + 1..] && prefix[..i] == turns[..i];
    RunSplits(host, s, next, prefix, turns[i + 1..]);
    RunKeepsValid(host, s, next, turns[..i]) by { assert Paced(host, s, next, prefix); }
    RunKeepsValid(host, s, next, prefix);
    AdvanceKeepsValid(host, After(host, s, turns[..i]), SourceAfter(host, s, next, turns[..i]), turns[i].next);
  }

  // ---- values -------------------------------------------------------------------------------

  /** A put is accepted exactly within both quotas and with an ID left; it stores the value itself
      under the next ID, and otherwise changes nothing. */
  lemma PutIsExact<I>(host: Host<I>, s: Session<I>, next: u64, data: Value)
    requires !s.closed
    ensures var t := Execute(host, s, next, PutValue(data));
            if ValidValue(data) && |s.values| < host.limits.values && next != 0
               && Used(s) + RECORD_CHARGE + ValueBytes(data) <= host.limits.bytes
            then t.outcome == Stored(ValueRecord(next, data)) && t.session == s.(values := s.values[next := data])
            else t == Transition(s, next, MakeError(if ValidValue(data) then QUOTA_EXCEEDED else INVALID_REQUEST))
  {
    hide MakeError, Used, ValidValue;
  }

  /** What was put is what every later get returns, whatever happens in between. */
  lemma GetReturnsWhatWasPut<I>(host: Host<I>, s: Session<I>, next: u64, turns: seq<Turn>, m: nat, k: nat)
    requires ValidHost(host) && ValidSession(host, s, next) && Paced(host, s, next, turns) && m < k < |turns|
    requires turns[m].op.PutValue? && OutcomeOf(host, s, turns, m).Stored?
    requires turns[k].op == GetValue(OutcomeOf(host, s, turns, m).record.id)
    ensures OutcomeOf(host, s, turns, k)
            == Stored(ValueRecord(OutcomeOf(host, s, turns, m).record.id, turns[m].op.data))
  {
    hide ValidHost, ValidSession, Paced, After, MakeError, ApplyPut;
    var before, later := After(host, s, turns[..m]), After(host, s, turns[..k]);
    BeforeTurn(host, s, next, turns, m);
    IdentifiersAreConsumedOnce(host, before, turns[m].next, turns[m].op);
    GrowsAlongTheRun(host, s, next, turns, m + 1, k);
    OpenAlongTheRun(host, s, turns, m);
    OpenAlongTheRun(host, s, turns, k);
    var id := turns[m].next;
    assert id in later.values && later.values[id] == turns[m].op.data;
  }

  /** A get of an ID that is no stored value is not found. */
  lemma GetFindsOnlyValues<I>(host: Host<I>, s: Session<I>, next: u64, id: u64)
    requires !s.closed && id !in s.values
    ensures Execute(host, s, next, GetValue(id))
            == Transition(s, next, MakeError(if id == 0 then INVALID_REQUEST else NOT_FOUND))
  {
    hide MakeError;
  }

  // ---- objects ------------------------------------------------------------------------------

  /** A release is answered exactly for a held object: that object is gone, everything else stays,
      and exactly its charge is given back. */
  lemma ReleaseIsExact<I>(host: Host<I>, s: Session<I>, next: u64, id: u64)
    requires !s.closed && id != 0
    ensures var t := Execute(host, s, next, ReleaseObject(id));
            if id in s.objects
            then t.outcome == Released && t.next == next && t.session.values == s.values
                 && t.session.objects.Keys == s.objects.Keys - {id}
                 && (forall k :: k in t.session.objects ==> t.session.objects[k] == s.objects[k])
                 && Used(t.session) + s.objects[id].Charge() == Used(s)
            else t == Transition(s, next, MakeError(NOT_FOUND))
  {
    hide MakeError, Used, StateCharge;
    if id in s.objects {
      UsedAfterRelease(s, id);
    }
  }

  /** An ID that was issued and is not held is never held again. */
  lemma GoneStaysGone<I>(host: Host<I>, s: Session<I>, turn: Turn, id: u64)
    requires Issued(id, turn.next) && id !in Keys(s)
    ensures id !in Keys(Take(host, s, turn).session) && Issued(id, Take(host, s, turn).next)
  {
    hide Execute;
    IdentifiersAreConsumedOnce(host, s, turn.next, turn.op);
  }

  lemma {:induction false} GoneAlongTheRun<I>(host: Host<I>, s: Session<I>, next: u64, turns: seq<Turn>, id: u64)
    requires Paced(host, s, next, turns) && Issued(id, next) && id !in Keys(s)
    ensures id !in Keys(After(host, s, turns)) && Issued(id, SourceAfter(host, s, next, turns))
    decreases |turns|
  {
    hide Take, Keys;
    if turns != [] {
      var n := |turns| - 1;
      GoneAlongTheRun(host, s, next, turns[..n], id);
      GoneStaysGone(host, After(host, s, turns[..n]), turns[n], id);
    }
  }

  /** Once a turn was answered Released, no later operation of the session finds that object. */
  lemma ReleasedIsNeverFound<I>(host: Host<I>, s: Session<I>, next: u64, turns: seq<Turn>, m: nat, k: nat, id: u64)
    requires ValidHost(host) && ValidSession(host, s, next) && Paced(host, s, next, turns) && m < k < |turns|
    requires turns[m].op == ReleaseObject(id) && OutcomeOf(host, s, turns, m) == Released
    requires Target(turns[k].op) == Some(id)
    requires turns[k].op.GetAttribute? || turns[k].op.InvokeMethod? ==> ValidName(turns[k].op.name)
    ensures OutcomeOf(host, s, turns, k) == MakeError(NOT_FOUND)
  {
    hide ValidHost, ValidSession, Paced, After, MakeError, SourceAfter, Execute, Target, ValidName, Used;
    var before := After(host, s, turns[..m]);
    BeforeTurn(host, s, next, turns, m);
    OpenIfReleased(host, before, turns[m].next, id);
    ReleaseIsExact(host, before, turns[m].next, id);
    HeldIsIssued(host, before, turns[m].next, id);
    var t := Take(host, before, turns[m]);
    var prefix, between := turns[..m + 1], turns[m + 1..k];
    SplitTwice(turns, m + 1, k);
    assert prefix[..m] == turns[..m];
    RunSplits(host, s, next, prefix, turns[m + 1..]);
    RunSplits(host, s, next, prefix, between);
    RunSplits(host, After(host, s, prefix), SourceAfter(host, s, next, prefix), between, turns[k..]);
    assert SourceAfter(host, s, next, prefix) == t.next by { LastSource(host, s, next, prefix); }
    GoneAlongTheRun(host, t.session, t.next, between, id);
    OpenAlongTheRun(host, s, turns, m);
    OpenAlongTheRun(host, s, turns, k);
    ForeignIdIsNotFound(host, After(host, s, turns[..k]), turns[k].next, turns[k].op);
  }

  lemma SplitTwice<T>(s: seq<T>, i: nat, j: nat)
    requires i <= j <= |s|
    ensures s == s[..i] + s[i..] && s[i..] == s[i..j] + s[j..] && s[..j] == s[..i] + s[i..j]
  {
  }

  lemma LastSource<I>(host: Host<I>, s: Session<I>, next: u64, turns: seq<Turn>)
    requires turns != []
    ensures var n := |turns| - 1;
            SourceAfter(host, s, next, turns) == Take(host, After(host, s, turns[..n]), turns[n]).next
  {
    hide Take;
  }

  lemma OpenIfReleased<I>(host: Host<I>, s: Session<I>, next: u64, id: u64)
    requires Execute(host, s, next, ReleaseObject(id)).outcome == Released
    ensures !s.closed && id != 0 && id in s.objects
  {
    hide MakeError;
  }

  lemma HeldIsIssued<I>(host: Host<I>, s: Session<I>, next: u64, id: u64)
    requires ValidSession(host, s, next) && id in s.objects
    ensures Issued(id, next) && id !in s.values
  {
    hide Registered, Used, ValidValue;
  }

  /** A created object is retained as its factory made it, and reported as it is. */
  lemma CreateRetainsTheInstance<I>(host: Host<I>, s: Session<I>, next: u64, name: Bytes, arguments: seq<NamedValue>)
    requires Execute(host, s, next, CreateObject(name, arguments)).outcome.Snapshot?
    ensures var t := Execute(host, s, next, CreateObject(name, arguments));
            && next != 0 && next in t.session.objects
            && var entry := t.session.objects[next];
               && entry.definition in host.definitions && entry.definition.description.name == name
               && ValidArguments(arguments, entry.definition.description.constructorParameters)
               && entry.definition.create.Some?
               && entry.definition.create.value(arguments) == Created(Some(entry.instance))
               && t.outcome == Snapshot(next, name, entry.definition.state(entry.instance))
               && t.session == s.(objects := s.objects[next := entry])
               && |s.objects| < host.limits.objects
               && (next !in s.objects ==> Used(t.session) == Used(s) + entry.Charge() <= host.limits.bytes)
  {
    hide MakeError, Used, StateCharge, ValidArguments, StateMatches, ValidName, Lookup;
    var t := Execute(host, s, next, CreateObject(name, arguments));
    var found := Lookup(host.definitions, name);
    var entry := t.session.objects[next];
    if next !in s.objects {
      UsedAfterCreate(s, next, entry);
    }
  }

  /** An answered invocation returned what the method returned on a clone of the object, and the
      object is now that clone as the method left it. */
  lemma InvokePublishesTheCandidate<I>(host: Host<I>, s: Session<I>, next: u64, id: u64, name: Bytes,
                                       arguments: seq<NamedValue>)
    requires Execute(host, s, next, InvokeMethod(id, name, arguments)).outcome.Result?
    ensures id in s.objects
    ensures var t := Execute(host, s, next, InvokeMethod(id, name, arguments));
            var entry := s.objects[id];
            && entry.definition.clone(entry.instance).Some?
            && var copy := entry.definition.clone(entry.instance).value;
               var (candidate, invoked) := entry.definition.invoke(copy, name, arguments);
               && invoked == Returned(t.outcome.value)
               && t.next == next && t.session == s.(objects := s.objects[id := entry.(instance := candidate)])
               && Used(t.session) <= host.limits.bytes && ValidValue(t.outcome.value)
               && exists m :: m in entry.definition.description.methods && m.name == name
                              && ValidArguments(arguments, m.parameters) && KindOf(t.outcome.value) == m.resultKind
  {
    hide MakeError, Used, StateCharge, ValidArguments, StateMatches, ValidName, ValidValue, FindMethod;
    var called := FindMethod(s.objects[id].definition.description.methods, name);
    assert called.value in s.objects[id].definition.description.methods;
  }

  /** A factory that makes an object within the class's bounds is never refused within the quotas. */
  lemma CreateAccepts<I>(host: Host<I>, s: Session<I>, next: u64, i: nat, arguments: seq<NamedValue>, instance: I)
    requires ValidHost(host) && !s.closed && next != 0 && i < |host.definitions| && |s.objects| < host.limits.objects
    requires var d := host.definitions[i];
             && ValidArguments(arguments, d.description.constructorParameters)
             && d.create.Some? && d.create.value(arguments) == Created(Some(instance))
             && StateMatches(d, d.state(instance))
             && Used(s) + RECORD_CHARGE + |d.description.name| + StateCharge(d.state(instance)) <= host.limits.bytes
    ensures var d := host.definitions[i];
            Execute(host, s, next, CreateObject(d.description.name, arguments)).outcome
            == Snapshot(next, d.description.name, d.state(instance))
  {
    hide MakeError, Used, StateCharge, ValidArguments, StateMatches, ValidName, Lookup, Less;
    LookupFinds(host, i);
  }

  /** What a refused creation is told: bad arguments, a full session, the factory's own code, or an
      object that breaks the bounds of its class. */
  lemma CreateRefuses<I>(host: Host<I>, s: Session<I>, next: u64, i: nat, arguments: seq<NamedValue>)
    requires ValidHost(host) && !s.closed && i < |host.definitions|
    ensures var d := host.definitions[i];
            var t := Execute(host, s, next, CreateObject(d.description.name, arguments));
            var sound := ValidArguments(arguments, d.description.constructorParameters);
            && (!sound ==> t == Refuse(s, next, INVALID_REQUEST))
            && (sound && |s.objects| >= host.limits.objects ==> t == Refuse(s, next, QUOTA_EXCEEDED))
            && (sound && |s.objects| < host.limits.objects && d.create.Some? ==>
                  match d.create.value(arguments)
                  case CreateFailed(code) => t == Refuse(s, next, code)
                  case Created(None) => t == Refuse(s, next, INTERNAL_FAILURE)
                  case Created(Some(instance)) =>
                    if !StateMatches(d, d.state(instance)) then t == Refuse(s, next, INTERNAL_FAILURE)
                    else t.outcome.Snapshot? || t == Refuse(s, next, QUOTA_EXCEEDED))
  {
    hide MakeError, Used, StateCharge, ValidArguments, StateMatches, ValidName, Lookup, ValidHost;
    LookupFinds(host, i);
  }

  lemma LookupFinds<I>(host: Host<I>, i: nat)
    requires ValidHost(host) && i < |host.definitions|
    ensures var d := host.definitions[i];
            Lookup(host.definitions, d.description.name) == Some(d) && ValidName(d.description.name)
  {
    hide Lookup, Less, ValidName;
    var d, names := host.definitions[i], ClassNames(host.definitions);
    assert names[i] == d.description.name && Admissible(d);
    var found := Lookup(host.definitions, d.description.name);
    var j :| 0 <= j < |host.definitions| && host.definitions[j] == found.value;
    SameNameSameClass(names, i, j);
  }

  /** A declared method that returns what it declares, on a clone that stays within the bounds of its
      class and session, is never refused. */
  lemma InvokeAccepts<I>(host: Host<I>, s: Session<I>, next: u64, id: u64, k: nat, arguments: seq<NamedValue>,
                         copy: I, candidate: I, value: Value)
    requires ValidHost(host) && ValidSession(host, s, next) && id in s.objects
    requires var entry := s.objects[id];
             && k < |entry.definition.description.methods|
             && var m := entry.definition.description.methods[k];
                && ValidArguments(arguments, m.parameters)
                && entry.definition.clone(entry.instance) == Some(copy)
                && entry.definition.invoke(copy, m.name, arguments) == (candidate, Returned(value))
                && ValidValue(value) && KindOf(value) == m.resultKind
                && var grown := entry.(instance := candidate);
                   && StateMatches(grown.definition, grown.State())
                   && Used(s) - entry.Charge() + grown.Charge() <= host.limits.bytes
    ensures var entry := s.objects[id];
            Execute(host, s, next, InvokeMethod(id, entry.definition.description.methods[k].name, arguments))
            == Transition(s.(objects := s.objects[id := entry.(instance := candidate)]), next, Result(value))
  {
    hide MakeError, Used, StateCharge, ValidArguments, StateMatches, ValidName, ValidValue, FindMethod, ValidHost,
         ValidSession;
    MethodIsFound(host, s, next, id, k);
    UsedAfterPublish(s, id, s.objects[id].(instance := candidate));
  }

  /** What a refused invocation is told: bad arguments, the method's own code, a result or state that
      breaks the declaration, or a full session. The object stays as it was. */
  lemma InvokeRefuses<I>(host: Host<I>, s: Session<I>, next: u64, id: u64, k: nat, arguments: seq<NamedValue>)
    requires ValidHost(host) && ValidSession(host, s, next) && id in s.objects
    requires k < |s.objects[id].definition.description.methods|
    ensures var entry := s.objects[id];
            var m := entry.definition.description.methods[k];
            var t := Execute(host, s, next, InvokeMethod(id, m.name, arguments));
            var copy := entry.definition.clone(entry.instance);
            && (!ValidArguments(arguments, m.parameters) ==> t == Refuse(s, next, INVALID_REQUEST))
            && (ValidArguments(arguments, m.parameters) && copy.None? ==> t == Refuse(s, next, INTERNAL_FAILURE))
            && (ValidArguments(arguments, m.parameters) && copy.Some? ==>
                  var (candidate, invoked) := entry.definition.invoke(copy.value, m.name, arguments);
                  match invoked
                  case InvokeFailed(code) => t == Refuse(s, next, code)
                  case Returned(value) =>
                    if ValidValue(value) && KindOf(value) == m.resultKind
                       && StateMatches(entry.definition, entry.definition.state(candidate))
                    then t.outcome.Result? || t == Refuse(s, next, QUOTA_EXCEEDED)
                    else t == Refuse(s, next, INTERNAL_FAILURE))
  {
    hide MakeError, Used, StateCharge, ValidArguments, StateMatches, ValidName, ValidValue, FindMethod, ValidHost,
         ValidSession;
    MethodIsFound(host, s, next, id, k);
  }

  /** Classes and methods nobody declared are not found. */
  lemma UndeclaredIsNotFound<I>(host: Host<I>, s: Session<I>, next: u64, id: u64, name: Bytes,
                                arguments: seq<NamedValue>)
    requires !s.closed && ValidName(name)
    ensures name !in ClassNames(host.definitions) ==>
              Execute(host, s, next, CreateObject(name, arguments)) == Refuse(s, next, NOT_FOUND)
    ensures id in s.objects && id != 0 && name !in MethodNames(s.objects[id].definition.description.methods) ==>
              Execute(host, s, next, InvokeMethod(id, name, arguments)) == Refuse(s, next, NOT_FOUND)
  {
    hide MakeError, ValidArguments, ValidName, FindMethod;
    if id in s.objects && id != 0 {
      var methods := s.objects[id].definition.description.methods;
      var called := FindMethod(methods, name);
      if called.Some? {
        var j :| 0 <= j < |methods| && methods[j] == called.value;
        assert MethodNames(methods)[j] == name;
      }
    }
  }

  lemma MethodIsFound<I>(host: Host<I>, s: Session<I>, next: u64, id: u64, k: nat)
    requires ValidHost(host) && ValidSession(host, s, next) && id in s.objects
    requires k < |s.objects[id].definition.description.methods|
    ensures !s.closed && id != 0
    ensures var methods := s.objects[id].definition.description.methods;
            FindMethod(methods, methods[k].name) == Some(methods[k]) && ValidName(methods[k].name)
  {
    hide Used, StateMatches, ValidName, ValidValue, FindMethod, Increasing;
    var entry := s.objects[id];
    assert Registered(host, entry) && Admissible(entry.definition);
    DeclaredIsFound(entry.definition.description.methods, k);
  }

  lemma {:induction false} DeclaredIsFound(methods: seq<Method>, k: nat)
    requires k < |methods| && WellNamed(MethodNames(methods))
    ensures FindMethod(methods, methods[k].name) == Some(methods[k]) && ValidName(methods[k].name)
  {
    hide ValidName;
    var names := MethodNames(methods);
    assert names[k] == methods[k].name && names[0] == methods[0].name;
    if k > 0 {
      assert MethodNames(methods[1..]) == names[1..];
      DeclaredIsFound(methods[1..], k - 1);
    }
  }

  /** While nobody invokes it, an object reads as it was created. */
  lemma {:induction false} UntouchedAlongTheRun<I>(host: Host<I>, s: Session<I>, next: u64, turns: seq<Turn>, id: u64)
    requires ValidHost(host) && ValidSession(host, s, next) && Paced(host, s, next, turns) && id in s.objects
    requires forall i :: 0 <= i < |turns| ==>
               !(turns[i].op.InvokeMethod? && turns[i].op.id == id) && turns[i].op != ReleaseObject(id)
    ensures id in After(host, s, turns).objects && After(host, s, turns).objects[id] == s.objects[id]
    decreases |turns|
  {
    hide ValidHost, ValidSession, Take, Paced;
    if turns != [] {
      var n := |turns| - 1;
      assert turns == turns[..n] + [turns[n]];
      RunSplits(host, s, next, turns[..n], [turns[n]]);
      UntouchedAlongTheRun(host, s, next, turns[..n], id);
      BeforeTurn(host, s, next, turns, n);
      assert turns[..n + 1] == turns;
      OthersKeepObjects(host, After(host, s, turns[..n]), turns[n], id);
    }
  }

  /** A get of a created object returns the snapshot its creation returned, until it is invoked or
      released. */
  lemma GetReturnsWhatWasCreated<I>(host: Host<I>, s: Session<I>, next: u64, turns: seq<Turn>, m: nat, k: nat)
    requires ValidHost(host) && ValidSession(host, s, next) && Paced(host, s, next, turns) && m < k < |turns|
    requires turns[m].op.CreateObject? && OutcomeOf(host, s, turns, m).Snapshot?
    requires var id := OutcomeOf(host, s, turns, m).id;
             && turns[k].op == GetObject(id)
             && forall i :: m < i < k ==>
                  !(turns[i].op.InvokeMethod? && turns[i].op.id == id) && turns[i].op != ReleaseObject(id)
    ensures OutcomeOf(host, s, turns, k) == OutcomeOf(host, s, turns, m)
  {
    hide ValidHost, ValidSession, Paced, After, MakeError, SourceAfter, Execute, ValidArguments, Used;
    var before := After(host, s, turns[..m]);
    BeforeTurn(host, s, next, turns, m);
    CreateRetainsTheInstance(host, before, turns[m].next, turns[m].op.className, turns[m].op.arguments);
    var t, id := Take(host, before, turns[m]), turns[m].next;
    var prefix, between := turns[..m + 1], turns[m + 1..k];
    SplitTwice(turns, m + 1, k);
    assert prefix[..m] == turns[..m];
    RunSplits(host, s, next, prefix, turns[m + 1..]);
    RunSplits(host, s, next, prefix, between);
    RunSplits(host, After(host, s, prefix), SourceAfter(host, s, next, prefix), between, turns[k..]);
    assert SourceAfter(host, s, next, prefix) == t.next by { LastSource(host, s, next, prefix); }
    assert forall i :: 0 <= i < |between| ==> between[i] == turns[m + 1 + i];
    UntouchedAlongTheRun(host, t.session, t.next, between, id);
    BeforeTurn(host, s, next, turns, k);
    OpenAlongTheRun(host, s, turns, m);
    OpenAlongTheRun(host, s, turns, k);
    OpenIfAnswered(host, before, turns[m]);
    ObjectsRead(host, After(host, s, turns[..k]), turns[k].next, id);
  }

  lemma ObjectsRead<I>(host: Host<I>, s: Session<I>, next: u64, id: u64)
    requires ValidSession(host, s, next) && !s.closed && id in s.objects
    ensures Execute(host, s, next, GetObject(id)).outcome
            == Snapshot(id, s.objects[id].definition.description.name, s.objects[id].State())
  {
    hide ValidSession, ReadObject;
    RetainedObjectsRead(host, s, next, id);
  }

  lemma OthersKeepObjects<I>(host: Host<I>, s: Session<I>, turn: Turn, id: u64)
    requires ValidSession(host, s, turn.next) && id in s.objects
    requires !(turn.op.InvokeMethod? && turn.op.id == id) && turn.op != ReleaseObject(id)
    ensures id in Take(host, s, turn).session.objects && Take(host, s, turn).session.objects[id] == s.objects[id]
  {
    hide Registered, StateMatches, ValidArguments, ValidName, ValidValue, Used, MakeError, List, PageOf, ReadObject,
         ReadAttribute, ApplyInvoke, ApplyCreate;
    HeldIsIssued(host, s, turn.next, id);
    match turn.op {
      case InvokeMethod(other, name, arguments) => InvokeTouchesOne(host, s, turn.next, other, name, arguments);
      case CreateObject(name, arguments) => CreateIssues(host, s, turn.next, name, arguments);
      case _ =>
    }
  }

  lemma InvokeTouchesOne<I>(host: Host<I>, s: Session<I>, next: u64, id: u64, name: Bytes, arguments: seq<NamedValue>)
    ensures var t := ApplyInvoke(host, s, next, id, name, arguments);
            t.session.objects.Keys == s.objects.Keys
            && forall k :: k in s.objects && k != id ==> t.session.objects[k] == s.objects[k]
  {
    hide StateMatches, ValidArguments, ValidName, ValidValue, Used, MakeError, StateCharge;
  }

  // ---- classes ------------------------------------------------------------------------------

  /** A class is described exactly as it was registered. */
  lemma DescribeIsExact<I>(host: Host<I>, s: Session<I>, next: u64, name: Bytes)
    requires ValidHost(host) && !s.closed
    ensures var outcome := Execute(host, s, next, DescribeClass(name)).outcome;
            && (forall i :: 0 <= i < |host.definitions| && host.definitions[i].description.name == name ==>
                  outcome == Description(host.definitions[i].description))
            && (name !in ClassNames(host.definitions) ==>
                  outcome == MakeError(if ValidName(name) then NOT_FOUND else INVALID_REQUEST))
  {
    hide MakeError, ValidName, Lookup, ValidHost;
    forall i | 0 <= i < |host.definitions| && host.definitions[i].description.name == name
      ensures Execute(host, s, next, DescribeClass(name)).outcome == Description(host.definitions[i].description)
    {
      LookupFinds(host, i);
    }
  }

  lemma SameNameSameClass(names: seq<Bytes>, i: nat, j: nat)
    requires Increasing(names) && i < |names| && j < |names| && names[i] == names[j]
    ensures i == j
  {
    Irreflexive(names[i]);
  }

  /** Turn `i` asked for a page of class names and got one. */
  ghost predicate ListsAt<I>(host: Host<I>, s: Session<I>, turns: seq<Turn>, i: nat) {
    i < |turns| && turns[i].op.ListClasses? && OutcomeOf(host, s, turns, i).ClassesPage?
  }

  lemma ListedPage<I>(host: Host<I>, s: Session<I>, turns: seq<Turn>, i: nat)
    requires ListsAt(host, s, turns, i)
    ensures var op := turns[i].op;
            op.limit > 0 && OutcomeOf(host, s, turns, i) == Page(ClassNames(host.definitions), op.after, op.limit)
  {
    hide MakeError, After, Page, ValidName;
  }

  lemma RegisteredNamesAreNames<I>(host: Host<I>)
    requires ValidHost(host)
    ensures Increasing(ClassNames(host.definitions)) && [] !in ClassNames(host.definitions)
  {
    hide Less;
    var names := ClassNames(host.definitions);
    forall i | 0 <= i < |names| ensures names[i] != [] {
      assert Admissible(host.definitions[i]);
    }
  }

  /** Every name of a page lies strictly behind the cursor the operation named. */
  lemma PagesLieBehindTheirCursor<I>(host: Host<I>, s: Session<I>, turns: seq<Turn>, i: nat, j: nat)
    requires ValidHost(host) && ListsAt(host, s, turns, i) && j < |OutcomeOf(host, s, turns, i).names|
    ensures Less(turns[i].op.after, OutcomeOf(host, s, turns, i).names[j])
  {
    hide ValidHost, Less, Rank, OutcomeOf;
    var names, after := ClassNames(host.definitions), turns[i].op.after;
    ListedPage(host, s, turns, i);
    RegisteredNamesAreNames(host);
    var from := Rank(names, after, true);
    assert OutcomeOf(host, s, turns, i).names[j] == names[from + j];
    Trichotomy(after, names[from]);
    if j > 0 {
      Transitive(after, names[from], names[from + j]);
    }
  }

  /** At turns `at` the session is asked for class pages, from the empty name and then always from
      the name just returned. */
  ghost predicate ListsThrough<I>(host: Host<I>, s: Session<I>, turns: seq<Turn>, at: seq<nat>) {
    && at != []
    && (forall i :: 0 <= i < |at| ==> ListsAt(host, s, turns, at[i]))
    && turns[at[0]].op.after == []
    && (forall i :: 0 <= i < |at| - 1 ==> Resumed(host, s, turns, at, i))
  }

  ghost predicate Resumed<I>(host: Host<I>, s: Session<I>, turns: seq<Turn>, at: seq<nat>, i: nat)
    requires i + 1 < |at| && ListsAt(host, s, turns, at[i]) && ListsAt(host, s, turns, at[i + 1])
  {
    turns[at[i + 1]].op.after == OutcomeOf(host, s, turns, at[i]).nextName != []
  }

  ghost function Listed<I>(host: Host<I>, s: Session<I>, turns: seq<Turn>, at: seq<nat>): seq<Bytes>
    requires forall i :: 0 <= i < |at| ==> ListsAt(host, s, turns, at[i])
  {
    if at == [] then []
    else
      assert ListsAt(host, s, turns, at[|at| - 1]);
      Listed(host, s, turns, at[..|at| - 1]) + OutcomeOf(host, s, turns, at[|at| - 1]).names
  }

  lemma NothingPrecedesTheEmptyName(names: seq<Bytes>)
    requires [] !in names
    ensures Rank(names, [], true) == 0
  {
  }

  /** `count` pages listed the names up to this cursor; no cursor means all of them. */
  ghost predicate Covered(names: seq<Bytes>, listed: seq<Bytes>, cursor: Bytes, count: nat) {
    if cursor == [] then listed == names && count <= |names| + 1
    else var to := Rank(names, cursor, true); count <= to <= |names| && listed == names[..to]
  }

  lemma PageCovers(names: seq<Bytes>, after: Bytes, limit: nat, listed: seq<Bytes>, count: nat)
    requires Increasing(names) && [] !in names && limit > 0
    requires var from := Rank(names, after, true); count <= from <= |names| && listed == names[..from]
    ensures var page := Page(names, after, limit); Covered(names, listed + page.names, page.nextName, count + 1)
  {
    hide Page, Rank, Increasing;
    PageContinues(names, after, limit);
    var from := Rank(names, after, true);
    assert names[..from] + names[from..] == names;
  }

  lemma {:induction false} ListedSoFar<I>(host: Host<I>, s: Session<I>, turns: seq<Turn>, at: seq<nat>)
    requires ValidHost(host) && ListsThrough(host, s, turns, at)
    ensures ListsAt(host, s, turns, at[|at| - 1]) && forall i :: 0 <= i < |at| ==> ListsAt(host, s, turns, at[i])
    ensures Covered(ClassNames(host.definitions), Listed(host, s, turns, at),
                    OutcomeOf(host, s, turns, at[|at| - 1]).nextName, |at|)
    decreases |at|
  {
    hide ValidHost, OutcomeOf, Page, Rank, Increasing, ListsThrough, ListsAt;
    var names, n := ClassNames(host.definitions), |at| - 1;
    ListsEverywhere(host, s, turns, at);
    RegisteredNamesAreNames(host);
    ListedPage(host, s, turns, at[n]);
    if n == 0 {
      NothingPrecedesTheEmptyName(names);
    } else {
      PrefixLists(host, s, turns, at);
      ListedSoFar(host, s, turns, at[..n]);
    }
    PageCovers(names, turns[at[n]].op.after, turns[at[n]].op.limit, Listed(host, s, turns, at[..n]), n);
  }

  lemma ListsEverywhere<I>(host: Host<I>, s: Session<I>, turns: seq<Turn>, at: seq<nat>)
    requires ListsThrough(host, s, turns, at)
    ensures at != [] && (forall i :: 0 <= i < |at| ==> ListsAt(host, s, turns, at[i]))
    ensures at[0] < |turns| && turns[at[0]].op.ListClasses? && turns[at[0]].op.after == []
    ensures at[|at| - 1] < |turns|
    ensures ListsAt(host, s, turns, at[|at| - 1]) && turns[at[|at| - 1]].op.ListClasses?
  {
    hide OutcomeOf;
  }

  lemma PrefixLists<I>(host: Host<I>, s: Session<I>, turns: seq<Turn>, at: seq<nat>)
    requires ListsThrough(host, s, turns, at) && |at| > 1
    ensures var n := |at| - 1;
            && ListsThrough(host, s, turns, at[..n])
            && ListsAt(host, s, turns, at[n]) && ListsAt(host, s, turns, at[n - 1])
            && turns[at[n]].op.after == OutcomeOf(host, s, turns, at[n - 1]).nextName != []
  {
    hide OutcomeOf;
    var n := |at| - 1;
    assert Resumed(host, s, turns, at, n - 1);
    forall i | 0 <= i < n - 1 ensures Resumed(host, s, turns, at[..n], i) {
      assert Resumed(host, s, turns, at, i);
    }
  }

  /** Following `list_classes` cursors from the empty name, with any limits and anything in between,
      delivers exactly the registered names, once and in order, within one page more than there are
      classes. */
  lemma ListingDeliversEveryClass<I>(host: Host<I>, s: Session<I>, turns: seq<Turn>, at: seq<nat>)
    requires ValidHost(host) && ListsThrough(host, s, turns, at)
    ensures |at| <= |host.definitions| + 1
    ensures OutcomeOf(host, s, turns, at[|at| - 1]).nextName == [] ==>
              Listed(host, s, turns, at) == ClassNames(host.definitions)
  {
    hide ValidHost, OutcomeOf, ListsThrough, Listed, Rank;
    ListedSoFar(host, s, turns, at);
  }

  /** A page ends early only at the end of the list, and its cursor is its last name. */
  lemma ClassPagesAreFull<I>(host: Host<I>, s: Session<I>, next: u64, after: Bytes, limit: u32)
    requires !s.closed
    ensures var page := Execute(host, s, next, ListClasses(after, limit)).outcome;
            if ValidName(after, true) && 1 <= limit <= 64 then
              && page.ClassesPage? && |page.names| <= limit
              && (page.nextName != [] ==> |page.names| == limit && page.nextName == page.names[limit - 1])
            else page == MakeError(INVALID_REQUEST)
  {
    hide MakeError, ValidName, Rank;
  }

  /** A page of values ends early only at the last value or where the next one no longer fits the
      page's byte budget. */
  lemma ValuePagesAreFull<I>(host: Host<I>, s: Session<I>, next: u64, cursor: u64, limit: u32)
    requires ValidHost(host) && ValidSession(host, s, next) && !s.closed
    ensures var page := Execute(host, s, next, ListValues(cursor, limit)).outcome;
            if 1 <= limit <= 64 then
              && page.ValuesPage? && |page.values| <= limit && Charges(page.values) <= PAGE_BYTE_BUDGET
              && (page.next != 0 ==> UpperKey(s.values, page.next).Some?)
              && (page.next != 0 && |page.values| < limit ==>
                    Charges(page.values) + RECORD_CHARGE + ValueBytes(s.values[UpperKey(s.values, page.next).value])
                    > PAGE_BYTE_BUDGET)
            else page == MakeError(INVALID_REQUEST)
  {
    hide MakeError, ValidHost, ValidSession, UpperKey, PageFrom, Segment;
    if ValidPageSize(limit) {
      ValuesAreValid(host, s, next);
      NonfinalPagesProgress(s.values, cursor, limit);
      PageIsMaximalSegment(s.values, cursor, limit, PAGE_BYTE_BUDGET);
    }
  }

  // ---- the end of a session -----------------------------------------------------------------

  /** A closed session denies everything and changes no more. */
  lemma ClosedSessionsDeny<I>(host: Host<I>, s: Session<I>, next: u64, op: Operation)
    ensures Execute(host, Close(s), next, op) == Transition(Close(s), next, MakeError(ACCESS_DENIED))
  {
    hide MakeError;
  }
}
