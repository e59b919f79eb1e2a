/** What every operation of a session guarantees, whatever its plugins do. */
module StoreTheorems {
  import opened Contracts
  import opened Validation
  import opened Registry
  import opened Totals
  import opened Store

  // ---- failure atomicity and identifiers ----------------------------------------------------

  /** A refused operation leaves values, objects, accounting and the ID source as they were,
      for every plugin: failing factories, null clones, candidates mutated before a failure. */
  lemma FailureIsAtomic<I>(host: Host<I>, s: Session<I>, next: u64, op: Operation)
    ensures var t := Execute(host, s, next, op); t.outcome.Error? ==> t.session == s && t.next == next
  {
    hide StateMatches, ValidArguments, ValidName, ValidValue, Used, MakeError, List, PageOf, ReadObject,
         ReadAttribute;
  }

  /** The ID source moves exactly when a value or an object is retained; the key is the old head. */
  lemma IdentifiersAreConsumedOnce<I>(host: Host<I>, s: Session<I>, next: u64, op: Operation)
    ensures var t := Execute(host, s, next, op);
            if t.outcome.Stored? && op.PutValue? then
              && next != 0 && t.next == Successor(next) && t.outcome.record == ValueRecord(next, op.data)
              && t.session == s.(values := s.values[next := op.data])
            else if t.outcome.Snapshot? && op.CreateObject? then
              && next != 0 && t.next == Successor(next) && t.outcome.id == next
              && next in t.session.objects
              && t.session == s.(objects := s.objects[next := t.session.objects[next]])
            else t.next == next && t.session.values == s.values && t.session.objects.Keys <= s.objects.Keys
  {
    hide StateMatches, ValidArguments, ValidName, ValidValue, Used, MakeError, List, PageOf, ReadObject,
         ReadAttribute, StateCharge, Publish, Admit, ApplyInvoke, ApplyCreate;
    match op {
      case InvokeMethod(id, name, arguments) => InvokeKeepsKeys(host, s, next, id, name, arguments);
      case CreateObject(name, arguments) => CreateIssues(host, s, next, name, arguments);
      case _ =>
    }
  }

  lemma InvokeKeepsKeys<I>(host: Host<I>, s: Session<I>, next: u64, id: u64, name: Bytes, arguments: seq<NamedValue>)
    ensures var t := ApplyInvoke(host, s, next, id, name, arguments);
            t.next == next && t.session.values == s.values && t.session.objects.Keys <= s.objects.Keys
            && !t.outcome.Stored? && !t.outcome.Snapshot?
            && forall k :: k in t.session.objects && k != id ==> t.session.objects[k] == s.objects[k]
  {
    hide StateMatches, ValidArguments, ValidName, ValidValue, Used, MakeError, StateCharge;
  }

  lemma CreateIssues<I>(host: Host<I>, s: Session<I>, next: u64, name: Bytes, arguments: seq<NamedValue>)
    ensures var t := ApplyCreate(host, s, next, name, arguments);
            if t.outcome.Snapshot? then
              && next != 0 && t.next == Successor(next) && t.outcome.id == next
              && next in t.session.objects
              && t.session == s.(objects := s.objects[next := t.session.objects[next]])
            else t.next == next && t.session == s
  {
    hide StateMatches, ValidArguments, ValidName, ValidValue, Used, MakeError, StateCharge;
  }

  // ---- reads of stored objects --------------------------------------------------------------

  /** Reading a retained object always yields its snapshot; no plugin can turn it into a failure. */
  lemma RetainedObjectsRead<I>(host: Host<I>, s: Session<I>, next: u64, id: u64)
    requires ValidSession(host, s, next)
    ensures id in s.objects ==> ReadObject(s.objects, id)
                                == Snapshot(id, s.objects[id].definition.description.name, s.objects[id].State())
    ensures id !in s.objects ==>
              ReadObject(s.objects, id) == MakeError(if id == 0 then INVALID_REQUEST else NOT_FOUND)
  {
    hide StateMatches, MakeError, Used, ValidValue;
    if id in s.objects {
      assert Registered(host, s.objects[id]);
    }
  }

  lemma AttributesAreParameters<I>(d: ClassDefinition<I>)
    requires Admissible(d)
    ensures var parameters := AttributeParameters(d.description.attributes);
            ParameterNames(parameters) == AttributeNames(d.description.attributes)
            && Distinct(ParameterNames(parameters))
  {
    hide ValidName, ValidMethod, ValidParameters;
  }

  /** A declared attribute always reads, with its declared kind; an undeclared one is not found. */
  lemma AttributesReadExactly<I>(host: Host<I>, s: Session<I>, next: u64, id: u64, name: Bytes)
    requires ValidHost(host) && ValidSession(host, s, next) && id in s.objects && ValidName(name)
    ensures var outcome := ReadAttribute(s.objects, id, name);
            var declared := s.objects[id].definition.description.attributes;
            if name in AttributeNames(declared) then
              && outcome.Result?
              && NamedValue(name, outcome.value) in s.objects[id].State()
              && exists a :: a in declared && a.name == name && KindOf(outcome.value) == a.kind
            else outcome == MakeError(NOT_FOUND)
  {
    hide MakeError, Used, ValidNamedValues, ValidName, StateCharge, ReadObject, Admissible, Find;
    RetainedObjectsRead(host, s, next, id);
    var d := s.objects[id].definition;
    var declared, state := d.description.attributes, s.objects[id].State();
    var parameters := AttributeParameters(declared);
    assert Registered(host, s.objects[id]);
    AttributesAreParameters(d);
    FoundWhenDeclared(state, parameters, name);
    FindMember(state, name);
    if name in AttributeNames(declared) {
      var i :| 0 <= i < |declared| && AttributeNames(declared)[i] == name;
      assert Supplied(state, parameters[i]);
      assert declared[i] in declared;
    }
  }

  // ---- pages and cursor walks ---------------------------------------------------------------

  ghost predicate IncreasingIds(records: seq<ValueRecord>) {
    forall i, j :: 0 <= i < j < |records| ==> records[i].id < records[j].id
  }

  /** `records` are exactly the entries of `values` with lo < key <= hi, in increasing order. */
  ghost predicate Segment(records: seq<ValueRecord>, values: map<u64, Value>, lo: u64, hi: u64) {
    && lo <= hi
    && IncreasingIds(records)
    && (forall i :: 0 <= i < |records| ==>
          lo < records[i].id <= hi && records[i].id in values && values[records[i].id] == records[i].data)
    && (forall k :: k in values && lo < k <= hi ==> exists i :: 0 <= i < |records| && records[i].id == k)
  }

  function Charges(records: seq<ValueRecord>): nat {
    if records == [] then 0 else ValueCharge(records[0].data) + Charges(records[1..])
  }

  lemma SegmentConcat(p: seq<ValueRecord>, q: seq<ValueRecord>, values: map<u64, Value>, a: u64, b: u64, c: u64)
    requires Segment(p, values, a, b) && Segment(q, values, b, c)
    ensures Segment(p + q, values, a, c)
  {
    var r := p + q;
    forall k | k in values && a < k <= c ensures exists i :: 0 <= i < |r| && r[i].id == k {
      if k <= b {
        var i :| 0 <= i < |p| && p[i].id == k;
        assert r[i].id == k;
      } else {
        var i :| 0 <= i < |q| && q[i].id == k;
        assert r[|p| + i].id == k;
      }
    }
  }

  lemma EmptySegment(values: map<u64, Value>, after: u64)
    ensures Segment([], values, after, after)
  {
  }

  lemma NextEntryIsSegment(values: map<u64, Value>, after: u64)
    requires UpperKey(values, after).Some?
    ensures var k := UpperKey(values, after).value; Segment([ValueRecord(k, values[k])], values, after, k)
  {
    var k := UpperKey(values, after).value;
    assert [ValueRecord(k, values[k])][0].id == k;
  }

  lemma PageMember(page: seq<ValueRecord>, values: map<u64, Value>, cursor: u64)
    requires page != [] && Segment(page, values, cursor, LastId(page, cursor))
    ensures LastId(page, cursor) in values
  {
  }

  /** A page is contiguous, ordered and within both bounds, and it stops only when the entries
      end, the limit is reached or the next charge does not fit. */
  lemma {:induction false} PageIsMaximalSegment(values: map<u64, Value>, after: u64, room: nat, budget: nat)
    ensures var page := PageFrom(values, after, room, budget);
            var last := LastId(page, after);
            && Segment(page, values, after, last)
            && |page| <= room && Charges(page) <= budget
            && (UpperKey(values, last).None? || |page| == room
                || Charges(page) + ValueCharge(values[UpperKey(values, last).value]) > budget)
    decreases room
  {
    hide ValueCharge, UpperKey, Segment;
    var k := UpperKey(values, after);
    EmptySegment(values, after);
    if room != 0 && k.Some? && ValueCharge(values[k.value]) <= budget {
      var first := [ValueRecord(k.value, values[k.value])];
      var rest := PageFrom(values, k.value, room - 1, budget - ValueCharge(values[k.value]));
      PageIsMaximalSegment(values, k.value, room - 1, budget - ValueCharge(values[k.value]));
      NextEntryIsSegment(values, after);
      SegmentConcat(first, rest, values, after, k.value, LastId(rest, k.value));
      assert (first + rest)[1..] == rest;
    }
  }

  ghost predicate AllValid(values: map<u64, Value>) {
    0 !in values && forall k :: k in values ==> ValidValue(values[k])
  }

  /** A page that leaves something behind is never empty, so its cursor is the last record's ID. */
  lemma NonfinalPagesProgress(values: map<u64, Value>, cursor: u64, limit: u32)
    requires AllValid(values) && ValidPageSize(limit)
    ensures var page := PageOf(values, cursor, limit);
            && page.ValuesPage? && |page.values| <= limit && Charges(page.values) <= PAGE_BYTE_BUDGET
            && Segment(page.values, values, cursor, LastId(page.values, cursor))
            && (page.next == 0 <==> UpperKey(values, LastId(page.values, cursor)).None?)
            && (page.next != 0 ==> page.values != [] && page.next == page.values[|page.values| - 1].id)
  {
    PageIsMaximalSegment(values, cursor, limit, PAGE_BYTE_BUDGET);
    var page := PageFrom(values, cursor, limit, PAGE_BYTE_BUDGET);
    if UpperKey(values, cursor).Some? {
      assert ValidValue(values[UpperKey(values, cursor).value]);
    }
  }

  /** Values only accumulate, and every newcomer's key is above all earlier ones. */
  ghost predicate Grows(earlier: map<u64, Value>, later: map<u64, Value>) {
    && (forall k :: k in earlier ==> k in later && later[k] == earlier[k])
    && (forall k, j :: k in later && k !in earlier && j in earlier ==> j < k)
  }

  lemma GrowsTransitive(a: map<u64, Value>, b: map<u64, Value>, c: map<u64, Value>)
    requires Grows(a, b) && Grows(b, c)
    ensures Grows(a, c)
  {
  }

  lemma SegmentSurvivesGrowth(records: seq<ValueRecord>, a: map<u64, Value>, b: map<u64, Value>, hi: u64)
    requires Segment(records, a, 0, hi) && Grows(a, b) && hi in a
    ensures Segment(records, b, 0, hi)
  {
  }

  /** One visit: the values stored when the page was taken, and the limit asked for. */
  datatype Visit = Visit(values: map<u64, Value>, limit: u32)

  ghost function VisitPage(v: Visit, cursor: u64): Outcome { PageOf(v.values, cursor, v.limit) }

  /** The next visit resumes at the cursor the last page returned, on a store that only grew. */
  ghost predicate Resumes(v: Visit, cursor: u64, w: Visit, resumed: u64) {
    && Grows(v.values, w.values)
    && resumed != 0
    && VisitPage(v, cursor).ValuesPage? && VisitPage(v, cursor).next == resumed
  }

  /** A client follows cursors from zero while the store grows arbitrarily between pages. */
  ghost predicate Follows(visits: seq<Visit>, cursors: seq<u64>) {
    && 0 < |visits| == |cursors| && cursors[0] == 0
    && (forall i :: 0 <= i < |visits| ==> AllValid(visits[i].values) && ValidPageSize(visits[i].limit))
    && (forall i :: 0 <= i < |visits| - 1 ==> Resumes(visits[i], cursors[i], visits[i + 1], cursors[i + 1]))
  }

  ghost function Gathered(visits: seq<Visit>, cursors: seq<u64>): seq<ValueRecord>
    requires |visits| == |cursors|
  {
    if visits == [] then []
    else
      var n := |visits| - 1;
      var page := VisitPage(visits[n], cursors[n]);
      Gathered(visits[..n], cursors[..n]) + if page.ValuesPage? then page.values else []
  }

  lemma {:induction false} GatheredSoFar(visits: seq<Visit>, cursors: seq<u64>)
    requires Follows(visits, cursors)
    ensures var n := |visits| - 1;
            var last := LastId(VisitPage(visits[n], cursors[n]).values, cursors[n]);
            && VisitPage(visits[n], cursors[n]).ValuesPage?
            && Segment(Gathered(visits, cursors), visits[n].values, 0, last)
            && |Gathered(visits, cursors)| >= n + |VisitPage(visits[n], cursors[n]).values|
    decreases |visits|
  {
    hide PageOf, UpperKey, Segment, Grows, AllValid;
    var n := |visits| - 1;
    var v, c := visits[n], cursors[n];
    NonfinalPagesProgress(v.values, c, v.limit);
    var page := VisitPage(v, c).values;
    if n == 0 {
      assert Gathered(visits, cursors) == page;
    } else {
      var earlier := Gathered(visits[..n], cursors[..n]);
      assert Follows(visits[..n], cursors[..n]);
      GatheredSoFar(visits[..n], cursors[..n]);
      var u := visits[n - 1];
      assert Resumes(u, cursors[n - 1], v, c);
      NonfinalPagesProgress(u.values, cursors[n - 1], u.limit);
      PageMember(VisitPage(u, cursors[n - 1]).values, u.values, cursors[n - 1]);
      SegmentSurvivesGrowth(earlier, u.values, v.values, c);
      SegmentConcat(earlier, page, v.values, 0, c, LastId(page, c));
    }
  }

  lemma SegmentSize(records: seq<ValueRecord>, values: map<u64, Value>, hi: u64)
    requires Segment(records, values, 0, hi)
    ensures |records| <= |values|
  {
    var ids := seq(|records|, i requires 0 <= i < |records| => records[i].id);
    DistinctSize(ids);
    assert Elements(ids) <= values.Keys;
    SubsetSize(Elements(ids), values.Keys);
  }

  ghost predicate Exactly(records: seq<ValueRecord>, values: map<u64, Value>) {
    && IncreasingIds(records)
    && (forall i :: 0 <= i < |records| ==>
          records[i].id in values && values[records[i].id] == records[i].data)
    && (forall k :: k in values ==> exists i :: 0 <= i < |records| && records[i].id == k)
  }

  lemma SegmentToTheEnd(records: seq<ValueRecord>, values: map<u64, Value>, hi: u64)
    requires Segment(records, values, 0, hi) && UpperKey(values, hi).None? && 0 !in values
    ensures Exactly(records, values)
  {
    hide UpperKey;
  }

  /** Following cursors until one is zero delivers exactly the values stored at the last page,
      each once, in increasing ID order, within one page more than there are values. */
  lemma WalkDeliversEverything(visits: seq<Visit>, cursors: seq<u64>)
    requires Follows(visits, cursors)
    ensures var n := |visits| - 1;
            && |visits| <= |visits[n].values| + 1
            && VisitPage(visits[n], cursors[n]).ValuesPage?
            && (VisitPage(visits[n], cursors[n]).next == 0 ==> Exactly(Gathered(visits, cursors), visits[n].values))
  {
    hide PageOf, UpperKey, Segment, Exactly, Gathered;
    var n := |visits| - 1;
    GatheredSoFar(visits, cursors);
    NonfinalPagesProgress(visits[n].values, cursors[n], visits[n].limit);
    var last := LastId(VisitPage(visits[n], cursors[n]).values, cursors[n]);
    SegmentSize(Gathered(visits, cursors), visits[n].values, last);
    if UpperKey(visits[n].values, last).None? {
      SegmentToTheEnd(Gathered(visits, cursors), visits[n].values, last);
    }
  }

  // ---- runs ---------------------------------------------------------------------------------

  /** One operation of this session, and the shared ID source as it finds it: other sessions may
      have moved the source since the previous turn. */
  datatype Turn = Turn(op: Operation, next: u64)

  ghost function Take<I>(host: Host<I>, s: Session<I>, turn: Turn): Transition<I> {
    Execute(host, s, turn.next, turn.op)
  }

  ghost function After<I>(host: Host<I>, s: Session<I>, turns: seq<Turn>): Session<I> {
    if turns == [] then s
    else Take(host, After(host, s, turns[..|turns| - 1]), turns[|turns| - 1]).session
  }

  ghost function SourceAfter<I>(host: Host<I>, s: Session<I>, next: u64, turns: seq<Turn>): u64 {
    if turns == [] then next
    else Take(host, After(host, s, turns[..|turns| - 1]), turns[|turns| - 1]).next
  }

  /** The source only ever moves forward between turns. */
  ghost predicate Paced<I>(host: Host<I>, s: Session<I>, next: u64, turns: seq<Turn>) {
    turns == [] || (var n := |turns| - 1;
                    && Paced(host, s, next, turns[..n])
                    && Advances(SourceAfter(host, s, next, turns[..n]), turns[n].next))
  }

  lemma AdvanceKeepsValid<I>(host: Host<I>, s: Session<I>, next: u64, later: u64)
    requires ValidSession(host, s, next) && Advances(next, later)
    ensures ValidSession(host, s, later)
  {
    hide Registered, Used, ValidValue;
  }

  lemma TurnGrows<I>(host: Host<I>, s: Session<I>, turn: Turn)
    requires ValidSession(host, s, turn.next)
    ensures Grows(s.values, Take(host, s, turn).session.values)
  {
    hide Registered, Used, ValidValue, Execute;
    IdentifiersAreConsumedOnce(host, s, turn.next, turn.op);
  }

  /** Objects change only by their own invocation and never come back once gone. */
  lemma OnlyItsInvocationTouches<I>(host: Host<I>, s: Session<I>, turn: Turn, id: u64)
    requires ValidSession(host, s, turn.next) && Issued(id, turn.next)
    requires !(turn.op.InvokeMethod? && turn.op.id == id)
    ensures id in Take(host, s, turn).session.objects ==>
              id in s.objects && Take(host, s, turn).session.objects[id] == s.objects[id]
  {
    hide Registered, StateMatches, ValidArguments, ValidName, ValidValue, Used, MakeError, List, PageOf,
         ReadObject, ReadAttribute, ApplyInvoke, ApplyCreate;
    match turn.op {
      case InvokeMethod(other, name, arguments) => InvokeKeepsKeys(host, s, turn.next, other, name, arguments);
      case CreateObject(name, arguments) => CreateIssues(host, s, turn.next, name, arguments);
      case _ =>
    }
  }

  /** Every reachable session is valid, and along every run its values only grow upwards. */
  lemma {:induction false} RunKeepsValid<I>(host: Host<I>, s: Session<I>, next: u64, turns: seq<Turn>)
    requires ValidHost(host) && ValidSession(host, s, next) && Paced(host, s, next, turns)
    ensures ValidSession(host, After(host, s, turns), SourceAfter(host, s, next, turns))
    ensures Grows(s.values, After(host, s, turns).values)
    decreases |turns|
  {
    hide ValidSession, ValidHost, Execute;
    if turns != [] {
      var n := |turns| - 1;
      var before := After(host, s, turns[..n]);
      RunKeepsValid(host, s, next, turns[..n]);
      AdvanceKeepsValid(host, before, SourceAfter(host, s, next, turns[..n]), turns[n].next);
      ExecuteKeepsValid(host, before, turns[n].next, turns[n].op);
      TurnGrows(host, before, turns[n]);
      GrowsTransitive(s.values, before.values, Take(host, before, turns[n]).session.values);
    }
  }

  // ---- parts of runs ------------------------------------------------------------------------

  /** The outcome of turn `i` of a run. */
  ghost function OutcomeOf<I>(host: Host<I>, s: Session<I>, turns: seq<Turn>, i: nat): Outcome
    requires i < |turns|
  {
    Take(host, After(host, s, turns[..i]), turns[i]).outcome
  }

  /** A run is its first part followed by the rest. */
  lemma {:induction false} RunSplits<I>(host: Host<I>, s: Session<I>, next: u64, a: seq<Turn>, b: seq<Turn>)
    ensures After(host, s, a + b) == After(host, After(host, s, a), b)
    ensures SourceAfter(host, s, next, a + b) == SourceAfter(host, After(host, s, a), SourceAfter(host, s, next, a), b)
    ensures Paced(host, s, next, a + b)
            <==> Paced(host, s, next, a) && Paced(host, After(host, s, a), SourceAfter(host, s, next, a), b)
    decreases |b|
  {
    hide Execute;
    if b == [] {
      assert a + b == a;
    } else {
      var n := |b| - 1;
      RunSplits(host, s, next, a, b[..n]);
      assert (a + b)[..|a| + n] == a + b[..n];
      assert (a + b)[|a| + n] == b[n];
    }
  }

  /** From any point of a run to any later one the values only grow upwards. */
  lemma GrowsAlongTheRun<I>(host: Host<I>, s: Session<I>, next: u64, turns: seq<Turn>, i: nat, j: nat)
    requires ValidHost(host) && ValidSession(host, s, next) && Paced(host, s, next, turns) && i <= j <= |turns|
    ensures ValidSession(host, After(host, s, turns[..i]), SourceAfter(host, s, next, turns[..i]))
    ensures Grows(After(host, s, turns[..i]).values, After(host, s, turns[..j]).values)
  {
    hide ValidHost, ValidSession, Grows, After, SourceAfter, Paced;
    var middle := turns[i..j];
    assert turns == turns[..i] + turns[i..] && turns[..j] == turns[..i] + middle && turns[i..] == middle + turns[j..];
    RunSplits(host, s, next, turns[..i], turns[i..]);
    RunSplits(host, s, next, turns[..i], middle);
    var t, source := After(host, s, turns[..i]), SourceAfter(host, s, next, turns[..i]);
    RunSplits(host, t, source, middle, turns[j..]);
    RunKeepsValid(host, s, next, turns[..i]);
    RunKeepsValid(host, t, source, middle);
  }

  lemma OpenIfAnswered<I>(host: Host<I>, s: Session<I>, turn: Turn)
    requires !Take(host, s, turn).outcome.Error?
    ensures !s.closed
  {
    hide MakeError;
  }

  // ---- paging through a run -----------------------------------------------------------------

  /** At turns `at` the session is asked for pages, from cursor zero and then always from the cursor
      just returned; anything may happen in between. */
  ghost predicate PagesThrough<I>(host: Host<I>, s: Session<I>, turns: seq<Turn>, at: seq<nat>) {
    && at != []
    && (forall i :: 0 <= i < |at| ==> at[i] < |turns| && turns[at[i]].op.ListValues?
                                      && OutcomeOf(host, s, turns, at[i]).ValuesPage?)
    && turns[at[0]].op.cursor == 0
    && (forall i :: 0 <= i < |at| - 1 ==> Continues(host, s, turns, at, i))
  }

  /** Page `i + 1` is asked for later, with the cursor page `i` returned. */
  ghost predicate Continues<I>(host: Host<I>, s: Session<I>, turns: seq<Turn>, at: seq<nat>, i: nat)
    requires i + 1 < |at| && at[i] < |turns| && at[i + 1] < |turns|
    requires turns[at[i + 1]].op.ListValues? && OutcomeOf(host, s, turns, at[i]).ValuesPage?
  {
    at[i] < at[i + 1] && turns[at[i + 1]].op.cursor == OutcomeOf(host, s, turns, at[i]).next != 0
  }

  /** Everything those pages delivered. */
  ghost function Delivered<I>(host: Host<I>, s: Session<I>, turns: seq<Turn>, at: seq<nat>): seq<ValueRecord>
    requires forall i :: 0 <= i < |at| ==> at[i] < |turns|
  {
    if at == [] then []
    else
      var outcome := OutcomeOf(host, s, turns, at[|at| - 1]);
      Delivered(host, s, turns, at[..|at| - 1]) + if outcome.ValuesPage? then outcome.values else []
  }

  ghost function VisitAt<I>(host: Host<I>, s: Session<I>, turns: seq<Turn>, i: nat): Visit
    requires i < |turns| && turns[i].op.ListValues?
  {
    Visit(After(host, s, turns[..i]).values, turns[i].op.limit)
  }

  lemma PageOfTurn<I>(host: Host<I>, s: Session<I>, turns: seq<Turn>, i: nat)
    requires i < |turns| && turns[i].op.ListValues? && OutcomeOf(host, s, turns, i).ValuesPage?
    ensures OutcomeOf(host, s, turns, i) == VisitPage(VisitAt(host, s, turns, i), turns[i].op.cursor)
    ensures ValidPageSize(turns[i].op.limit)
  {
    hide After, MakeError, PageFrom;
  }

  lemma ValuesAreValid<I>(host: Host<I>, s: Session<I>, next: u64)
    requires ValidSession(host, s, next)
    ensures AllValid(s.values)
  {
    hide ValidValue, Registered, Used;
  }

  /** The pages of a run are visits of a growing store. */
  lemma PagesFollow<I>(host: Host<I>, s: Session<I>, next: u64, turns: seq<Turn>, at: seq<nat>)
    returns (visits: seq<Visit>, cursors: seq<u64>)
    requires ValidHost(host) && ValidSession(host, s, next) && Paced(host, s, next, turns)
    requires PagesThrough(host, s, turns, at)
    ensures |visits| == |cursors| == |at| && Follows(visits, cursors)
    ensures forall i :: 0 <= i < |at| ==>
              visits[i] == VisitAt(host, s, turns, at[i]) && cursors[i] == turns[at[i]].op.cursor
  {
    hide ValidHost, ValidSession, Paced, After, OutcomeOf, Grows, AllValid, VisitPage, VisitAt;
    visits := seq(|at|, i requires 0 <= i < |at| => VisitAt(host, s, turns, at[i]));
    cursors := seq(|at|, i requires 0 <= i < |at| => turns[at[i]].op.cursor);
    forall i | 0 <= i < |at| ensures AllValid(visits[i].values) && ValidPageSize(visits[i].limit) {
      GrowsAlongTheRun(host, s, next, turns, at[i], at[i]);
      ValuesAreValid(host, After(host, s, turns[..at[i]]), SourceAfter(host, s, next, turns[..at[i]]));
      PageOfTurn(host, s, turns, at[i]);
      VisitIs(host, s, turns, at[i]);
    }
    forall i | 0 <= i < |at| - 1 ensures Resumes(visits[i], cursors[i], visits[i + 1], cursors[i + 1]) {
      assert Continues(host, s, turns, at, i);
      GrowsAlongTheRun(host, s, next, turns, at[i], at[i + 1]);
      PageOfTurn(host, s, turns, at[i]);
      VisitIs(host, s, turns, at[i]);
      VisitIs(host, s, turns, at[i + 1]);
    }
  }

  lemma VisitIs<I>(host: Host<I>, s: Session<I>, turns: seq<Turn>, i: nat)
    requires i < |turns| && turns[i].op.ListValues?
    ensures VisitAt(host, s, turns, i) == Visit(After(host, s, turns[..i]).values, turns[i].op.limit)
  {
  }

  lemma {:induction false} DeliveredIsGathered<I>(host: Host<I>, s: Session<I>, turns: seq<Turn>, at: seq<nat>,
                                                  visits: seq<Visit>, cursors: seq<u64>)
    requires |visits| == |cursors| == |at|
    requires forall i :: 0 <= i < |at| ==> at[i] < |turns| && turns[at[i]].op.ListValues?
                                           && OutcomeOf(host, s, turns, at[i]).ValuesPage?
                                           && visits[i] == VisitAt(host, s, turns, at[i])
                                           && cursors[i] == turns[at[i]].op.cursor
    ensures Delivered(host, s, turns, at) == Gathered(visits, cursors)
    decreases |at|
  {
    hide OutcomeOf, VisitAt, VisitPage;
    if at != [] {
      var n := |at| - 1;
      DeliveredIsGathered(host, s, turns, at[..n], visits[..n], cursors[..n]);
      PageOfTurn(host, s, turns, at[n]);
    }
  }

  /** In every run of a session, following `list_values` cursors from zero until one is zero, with
      any operations of this and other sessions in between, takes at most one page more than there
      are values and delivers exactly the values stored when the last page was taken. */
  lemma PagingDeliversEverything<I>(host: Host<I>, s: Session<I>, next: u64, turns: seq<Turn>, at: seq<nat>)
    requires ValidHost(host) && ValidSession(host, s, next) && Paced(host, s, next, turns)
    requires PagesThrough(host, s, turns, at)
    ensures var last := at[|at| - 1];
            var values := After(host, s, turns[..last]).values;
            && |at| <= |values| + 1
            && (OutcomeOf(host, s, turns, last).next == 0 ==> Exactly(Delivered(host, s, turns, at), values))
  {
    hide ValidHost, ValidSession, Paced, After, OutcomeOf, Follows, VisitAt, VisitPage, Exactly, Gathered, Delivered;
    var visits, cursors := PagesFollow(host, s, next, turns, at);
    var n := |at| - 1;
    DeliveredIsGathered(host, s, turns, at, visits, cursors);
    WalkDeliversEverything(visits, cursors);
    PageOfTurn(host, s, turns, at[n]);
    VisitIs(host, s, turns, at[n]);
  }
}
