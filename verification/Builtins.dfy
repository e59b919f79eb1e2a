/** The built-in classes, living beside arbitrary plugins of another instance type. */
module Builtins {
  import opened Contracts
  import opened Validation
  import opened Registry
  import opened Store
  import opened StoreTheorems
  import Utf8

  datatype Instance<+P> = Counter(value: i64) | TextBuffer(text: Bytes) | Plugin(data: P)

  const COUNTER: Bytes := Ascii("Counter")
  const TEXT_BUFFER: Bytes := Ascii("TextBuffer")
  const VALUE_FIELD: Bytes := Ascii("value")
  const TEXT_FIELD: Bytes := Ascii("text")
  const INITIAL: Bytes := Ascii("initial")
  const INCREMENT: Bytes := Ascii("increment")
  const DELTA: Bytes := Ascii("delta")
  const APPEND: Bytes := Ascii("append")
  const SUFFIX: Bytes := Ascii("suffix")

  function SingleArgument(arguments: seq<NamedValue>, name: Bytes): Option<Value> {
    if |arguments| != 1 || arguments[0].name != name || !ValidValue(arguments[0].data) then None
    else Some(arguments[0].data)
  }

  // ---- Counter ------------------------------------------------------------------------------

  /** The overflow test as written: both bound expressions stay inside int64. */
  predicate Overflows(value: i64, delta: i64) {
    if delta > 0 then var bound: i64 := I64_MAX - delta; value > bound
    else if delta < 0 then var bound: i64 := I64_MIN - delta; value < bound
    else false
  }

  /** It fires exactly when the true sum leaves the int64 range. */
  lemma OverflowIsExact(value: i64, delta: i64)
    ensures Overflows(value, delta) <==> !(I64_MIN <= value + delta <= I64_MAX)
  {
  }

  function CounterInvoke<P>(self: Instance<P>, name: Bytes, arguments: seq<NamedValue>): (Instance<P>, Invocation)
    requires self.Counter?
  {
    if name != INCREMENT then (self, InvokeFailed(NOT_FOUND))
    else
      var argument := SingleArgument(arguments, DELTA);
      if argument.None? || !argument.value.Integer? then (self, InvokeFailed(INVALID_REQUEST))
      else if Overflows(self.value, argument.value.integer) then (self, InvokeFailed(NUMERIC_OVERFLOW))
      else
        var sum: i64 := self.value + argument.value.integer;
        (Counter(sum), Returned(Integer(sum)))
  }

  function CounterDescription(): ClassDescription {
    ClassDescription(COUNTER, [Attribute(VALUE_FIELD, INTEGER, true)],
                     [Method(INCREMENT, [Parameter(DELTA, INTEGER)], INTEGER)],
                     [Parameter(INITIAL, INTEGER)])
  }

  function CounterCreate<P>(arguments: seq<NamedValue>): Creation<Instance<P>> {
    var argument := SingleArgument(arguments, INITIAL);
    if argument.None? || !argument.value.Integer? then CreateFailed(INVALID_REQUEST)
    else Created(Some(Counter(argument.value.integer)))
  }

  function CounterState<P>(self: Instance<P>): seq<NamedValue> {
    if self.Counter? then [NamedValue(VALUE_FIELD, Integer(self.value))] else []
  }

  function CounterDefinition<P>(): ClassDefinition<Instance<P>> {
    ClassDefinition(
      CounterDescription(),
      Some(arguments => CounterCreate<P>(arguments)),
      (self: Instance<P>) => Some(self),
      (self: Instance<P>) => CounterState(self),
      (self: Instance<P>, name, arguments) =>
        if self.Counter? then CounterInvoke(self, name, arguments) else (self, InvokeFailed(INTERNAL_FAILURE)),
      MAX_OBJECT_STATE_BYTES)
  }

  // ---- TextBuffer ---------------------------------------------------------------------------

  function TextBufferInvoke<P>(self: Instance<P>, name: Bytes, arguments: seq<NamedValue>)
    : (Instance<P>, Invocation)
    requires self.TextBuffer? && |self.text| <= MAX_STRING_BYTES
  {
    if name != APPEND then (self, InvokeFailed(NOT_FOUND))
    else
      var argument := SingleArgument(arguments, SUFFIX);
      if argument.None? || !argument.value.Text? then (self, InvokeFailed(INVALID_REQUEST))
      else
        var room: nat := MAX_STRING_BYTES - |self.text|;
        if |argument.value.text| > room then (self, InvokeFailed(QUOTA_EXCEEDED))
        else (TextBuffer(self.text + argument.value.text), Returned(Text(self.text + argument.value.text)))
  }

  function TextBufferDescription(): ClassDescription {
    ClassDescription(TEXT_BUFFER, [Attribute(TEXT_FIELD, TEXT, true)],
                     [Method(APPEND, [Parameter(SUFFIX, TEXT)], TEXT)],
                     [Parameter(INITIAL, TEXT)])
  }

  function TextBufferCreate<P>(arguments: seq<NamedValue>): Creation<Instance<P>> {
    var argument := SingleArgument(arguments, INITIAL);
    if argument.None? || !argument.value.Text? then CreateFailed(INVALID_REQUEST)
    else Created(Some(TextBuffer(argument.value.text)))
  }

  function TextBufferState<P>(self: Instance<P>): seq<NamedValue> {
    if self.TextBuffer? then [NamedValue(TEXT_FIELD, Text(self.text))] else []
  }

  function TextBufferDefinition<P>(): ClassDefinition<Instance<P>> {
    ClassDefinition(
      TextBufferDescription(),
      Some(arguments => TextBufferCreate<P>(arguments)),
      (self: Instance<P>) => Some(self),
      (self: Instance<P>) => TextBufferState(self),
      (self: Instance<P>, name, arguments) =>
        if self.TextBuffer? && |self.text| <= MAX_STRING_BYTES then TextBufferInvoke(self, name, arguments)
        else (self, InvokeFailed(INTERNAL_FAILURE)),
      MAX_OBJECT_STATE_BYTES)
  }

  // ---- registration -------------------------------------------------------------------------

  lemma NamesAreValid()
    ensures ValidName(COUNTER) && ValidName(TEXT_BUFFER) && ValidName(VALUE_FIELD) && ValidName(TEXT_FIELD)
    ensures ValidName(INITIAL) && ValidName(INCREMENT) && ValidName(DELTA) && ValidName(APPEND) && ValidName(SUFFIX)
    ensures COUNTER != TEXT_BUFFER
  {
  }

  lemma BuiltinsAreAdmissible<P>()
    ensures Admissible(CounterDefinition<P>()) && Admissible(TextBufferDefinition<P>())
  {
    NamesAreValid();
    hide ValidName;
  }

  // ---- behaviour through the store ----------------------------------------------------------

  lemma OneArgument(arguments: seq<NamedValue>, name: Bytes, kind: ValueKind)
    requires ValidName(name)
    ensures ValidArguments(arguments, [Parameter(name, kind)])
            <==> |arguments| == 1 && arguments[0].name == name && ValidValue(arguments[0].data)
                 && KindOf(arguments[0].data) == kind
  {
    hide ValidName, ValidValue;
    var parameters := [Parameter(name, kind)];
    if ValidArguments(arguments, parameters) {
      assert Supplied(arguments, parameters[0]);
      assert Find(arguments[1..], name).None?;
    }
    if |arguments| == 1 && arguments[0].name == name && ValidValue(arguments[0].data) {
      assert ValueNames(arguments) == [name];
      if KindOf(arguments[0].data) == kind {
        assert forall i :: 0 <= i < |parameters| ==> parameters[i] == Parameter(name, kind);
      }
    }
  }

  ghost predicate IsCounter<P>(entry: StoredObject<Instance<P>>) {
    entry.definition == CounterDefinition<P>() && entry.instance.Counter?
  }

  ghost predicate IsTextBuffer<P>(entry: StoredObject<Instance<P>>) {
    entry.definition == TextBufferDefinition<P>() && entry.instance.TextBuffer?
    && ValidValue(Text(entry.instance.text))
  }

  /** The state check alone tells which instances a retained built-in can hold. */
  lemma RetainedBuiltins<P>(host: Host<Instance<P>>, s: Session<Instance<P>>, next: u64, id: u64)
    requires ValidSession(host, s, next) && id in s.objects
    ensures s.objects[id].definition == CounterDefinition<P>() ==> IsCounter(s.objects[id])
    ensures s.objects[id].definition == TextBufferDefinition<P>() ==> IsTextBuffer(s.objects[id])
  {
    hide Used, ValidName, Utf8.Valid;
    var entry := s.objects[id];
    assert Registered(host, entry);
    NamesAreValid();
    if entry.definition == TextBufferDefinition<P>() {
      var parameters := AttributeParameters(TextBufferDescription().attributes);
      assert parameters == [Parameter(TEXT_FIELD, TEXT)];
      OneArgument(entry.State(), TEXT_FIELD, TEXT);
    }
    if entry.definition == CounterDefinition<P>() {
      var parameters := AttributeParameters(CounterDescription().attributes);
      assert parameters == [Parameter(VALUE_FIELD, INTEGER)];
      OneArgument(entry.State(), VALUE_FIELD, INTEGER);
    }
  }

  /** Applying `increment` either adds the delta or reports the overflow and changes nothing:
      no clone, state, kind or quota check of the store can get in the way. */
  lemma IncrementIsExact<P>(host: Host<Instance<P>>, s: Session<Instance<P>>, next: u64, id: u64,
                            arguments: seq<NamedValue>)
    requires ValidSession(host, s, next) && id in s.objects && IsCounter(s.objects[id])
    requires ValidArguments(arguments, [Parameter(DELTA, INTEGER)])
    ensures |arguments| == 1 && arguments[0].data.Integer?
    ensures var sum := s.objects[id].instance.value + arguments[0].data.integer;
            Execute(host, s, next, InvokeMethod(id, INCREMENT, arguments))
            == if I64_MIN <= sum <= I64_MAX
               then Transition(s.(objects := s.objects[id := s.objects[id].(instance := Counter(sum))]), next,
                               Result(Integer(sum)))
               else Transition(s, next, MakeError(NUMERIC_OVERFLOW))
  {
    hide ValidArguments, ValidName, MakeError, Used, Registered, ValidSession, StateMatches;
    NamesAreValid();
    OneArgument(arguments, DELTA, INTEGER);
    var entry, delta := s.objects[id], arguments[0].data.integer;
    OverflowIsExact(entry.instance.value, delta);
    assert id != 0 && !s.closed && Used(s) <= host.limits.bytes by { ReadyToInvoke(host, s, next, id); }
    if !Overflows(entry.instance.value, delta) {
      var grown := entry.(instance := Counter(entry.instance.value + delta));
      CounterStateMatches(grown);
      UsedAfterPublish(s, id, grown);
      assert entry.Charge() == grown.Charge() by { CounterCharge(entry); CounterCharge(grown); }
    }
  }

  lemma ReadyToInvoke<I>(host: Host<I>, s: Session<I>, next: u64, id: u64)
    requires ValidSession(host, s, next) && id in s.objects
    ensures id != 0 && !s.closed && Used(s) <= host.limits.bytes
  {
    hide Registered, Used, ValidValue;
  }

  lemma CounterCharge<P>(entry: StoredObject<Instance<P>>)
    requires IsCounter(entry)
    ensures entry.Charge() == 2 * RECORD_CHARGE + |COUNTER| + |VALUE_FIELD| + 8
  {
    assert entry.State() == [NamedValue(VALUE_FIELD, Integer(entry.instance.value))];
    assert StateCharge(entry.State()[..0]) == 0;
  }

  lemma CounterStateMatches<P>(entry: StoredObject<Instance<P>>)
    requires IsCounter(entry)
    ensures StateMatches(entry.definition, entry.State())
  {
    hide ValidArguments, ValidName;
    NamesAreValid();
    assert AttributeParameters(CounterDescription().attributes) == [Parameter(VALUE_FIELD, INTEGER)];
    assert entry.State() == [NamedValue(VALUE_FIELD, Integer(entry.instance.value))];
    OneArgument(entry.State(), VALUE_FIELD, INTEGER);
    CounterCharge(entry);
  }

  lemma TextBufferCharge<P>(entry: StoredObject<Instance<P>>)
    requires IsTextBuffer(entry)
    ensures entry.Charge() == 2 * RECORD_CHARGE + |TEXT_BUFFER| + |TEXT_FIELD| + |entry.instance.text|
  {
    hide Utf8.Valid;
    assert entry.State() == [NamedValue(TEXT_FIELD, Text(entry.instance.text))];
    assert StateCharge(entry.State()[..0]) == 0;
  }

  lemma TextBufferStateMatches<P>(entry: StoredObject<Instance<P>>)
    requires IsTextBuffer(entry)
    ensures StateMatches(entry.definition, entry.State())
  {
    hide ValidArguments, ValidName, Utf8.Valid;
    NamesAreValid();
    assert AttributeParameters(TextBufferDescription().attributes) == [Parameter(TEXT_FIELD, TEXT)];
    assert entry.State() == [NamedValue(TEXT_FIELD, Text(entry.instance.text))];
    OneArgument(entry.State(), TEXT_FIELD, TEXT);
    TextBufferCharge(entry);
  }

  /** Applying `append` concatenates, or reports the text bound or the session budget; the result
      is again valid UTF-8 of at most 64 KiB, so it never ends as an internal failure. */
  lemma AppendIsExact<P>(host: Host<Instance<P>>, s: Session<Instance<P>>, next: u64, id: u64,
                         arguments: seq<NamedValue>)
    requires ValidSession(host, s, next) && id in s.objects && IsTextBuffer(s.objects[id])
    requires ValidArguments(arguments, [Parameter(SUFFIX, TEXT)])
    ensures |arguments| == 1 && arguments[0].data.Text?
    ensures var suffix := arguments[0].data.text;
            var text := s.objects[id].instance.text + suffix;
            && (|text| <= MAX_STRING_BYTES ==> ValidValue(Text(text)))
            && Execute(host, s, next, InvokeMethod(id, APPEND, arguments))
               == if |text| <= MAX_STRING_BYTES && Used(s) + |suffix| <= host.limits.bytes
                  then Transition(s.(objects := s.objects[id := s.objects[id].(instance := TextBuffer(text))]), next,
                                  Result(Text(text)))
                  else Transition(s, next, MakeError(QUOTA_EXCEEDED))
  {
    hide ValidArguments, ValidName, MakeError, Used, Registered, ValidSession, StateMatches, Utf8.Valid;
    NamesAreValid();
    OneArgument(arguments, SUFFIX, TEXT);
    var entry, suffix := s.objects[id], arguments[0].data.text;
    Utf8.Concatenation(entry.instance.text, suffix);
    assert id != 0 && !s.closed by { ReadyToInvoke(host, s, next, id); }
    if |entry.instance.text + suffix| <= MAX_STRING_BYTES {
      var grown := entry.(instance := TextBuffer(entry.instance.text + suffix));
      TextBufferStateMatches(grown);
      UsedAfterPublish(s, id, grown);
      TextBufferCharge(entry);
      TextBufferCharge(grown);
    }
  }

  // ---- creation -----------------------------------------------------------------------------

  /** The object a created built-in is retained as. */
  function CounterObject<P>(initial: i64): StoredObject<Instance<P>> {
    StoredObject(CounterDefinition<P>(), Counter(initial))
  }
  function TextBufferObject<P>(initial: Bytes): StoredObject<Instance<P>> {
    StoredObject(TextBufferDefinition<P>(), TextBuffer(initial))
  }

  /** Retention, or the quota that stands in its way. */
  ghost function Retained<I>(host: Host<I>, s: Session<I>, next: u64, entry: StoredObject<I>): Transition<I> {
    if |s.objects| < host.limits.objects && Used(s) + entry.Charge() <= host.limits.bytes && next != 0
    then Transition(s.(objects := s.objects[next := entry]), Successor(next),
                    Snapshot(next, entry.definition.description.name, entry.State()))
    else Transition(s, next, MakeError(QUOTA_EXCEEDED))
  }

  /** Creating a Counter needs exactly one integer named `initial` and then only quota: it holds
      that integer, and no state check can get in the way. */
  lemma CreateCounterIsExact<P>(host: Host<Instance<P>>, s: Session<Instance<P>>, next: u64, arguments: seq<NamedValue>)
    requires Lookup(host.definitions, COUNTER) == Some(CounterDefinition<P>()) && !s.closed
    ensures var t := Execute(host, s, next, CreateObject(COUNTER, arguments));
            if ValidArguments(arguments, [Parameter(INITIAL, INTEGER)])
            then |arguments| == 1 && arguments[0].data.Integer?
                 && t == Retained(host, s, next, CounterObject(arguments[0].data.integer))
            else t == Transition(s, next, MakeError(INVALID_REQUEST))
  {
    hide ValidArguments, ValidName, MakeError, Used, StateMatches, StateCharge, Lookup;
    NamesAreValid();
    OneArgument(arguments, INITIAL, INTEGER);
    if ValidArguments(arguments, [Parameter(INITIAL, INTEGER)]) {
      CounterStateMatches(CounterObject<P>(arguments[0].data.integer));
    }
  }

  lemma CreateTextBufferIsExact<P>(host: Host<Instance<P>>, s: Session<Instance<P>>, next: u64,
                                   arguments: seq<NamedValue>)
    requires Lookup(host.definitions, TEXT_BUFFER) == Some(TextBufferDefinition<P>()) && !s.closed
    ensures var t := Execute(host, s, next, CreateObject(TEXT_BUFFER, arguments));
            if ValidArguments(arguments, [Parameter(INITIAL, TEXT)])
            then |arguments| == 1 && arguments[0].data.Text?
                 && t == Retained(host, s, next, TextBufferObject(arguments[0].data.text))
            else t == Transition(s, next, MakeError(INVALID_REQUEST))
  {
    hide ValidArguments, ValidName, MakeError, Used, StateMatches, StateCharge, Lookup, Utf8.Valid;
    NamesAreValid();
    OneArgument(arguments, INITIAL, TEXT);
    if ValidArguments(arguments, [Parameter(INITIAL, TEXT)]) {
      TextBufferStateMatches(TextBufferObject<P>(arguments[0].data.text));
    }
  }

  // ---- histories ----------------------------------------------------------------------------

  /** What an accepted invocation of this object contributed. */
  function AcceptedDelta(op: Operation, outcome: Outcome, id: u64): int {
    if op.InvokeMethod? && op.id == id && outcome.Result? && |op.arguments| == 1
       && op.arguments[0].data.Integer? then op.arguments[0].data.integer else 0
  }
  function AcceptedSuffix(op: Operation, outcome: Outcome, id: u64): Bytes {
    if op.InvokeMethod? && op.id == id && outcome.Result? && |op.arguments| == 1
       && op.arguments[0].data.Text? then op.arguments[0].data.text else []
  }

  ghost function Deltas<I>(host: Host<I>, s: Session<I>, turns: seq<Turn>, id: u64): int {
    if turns == [] then 0
    else
      var n := |turns| - 1;
      Deltas(host, s, turns[..n], id)
      + AcceptedDelta(turns[n].op, Take(host, After(host, s, turns[..n]), turns[n]).outcome, id)
  }
  ghost function Suffixes<I>(host: Host<I>, s: Session<I>, turns: seq<Turn>, id: u64): Bytes {
    if turns == [] then []
    else
      var n := |turns| - 1;
      Suffixes(host, s, turns[..n], id)
      + AcceptedSuffix(turns[n].op, Take(host, After(host, s, turns[..n]), turns[n]).outcome, id)
  }

  lemma InvokeNeedsDeclaration<I>(host: Host<I>, s: Session<I>, next: u64, id: u64, m: Method, op: Operation)
    requires id in s.objects && s.objects[id].definition.description.methods == [m]
    requires op.InvokeMethod? && op.id == id
    requires op.name != m.name || !ValidArguments(op.arguments, m.parameters)
    ensures var t := Execute(host, s, next, op); t.session == s && t.outcome.Error?
  {
    hide ValidArguments, ValidName, MakeError, Used, StateMatches, Publish;
    assert [m][1..] == [];
  }

  ghost predicate CounterHolds<P>(entry: StoredObject<Instance<P>>, value: int) {
    IsCounter(entry) && entry.instance.value == value
  }
  ghost predicate BufferHolds<P>(entry: StoredObject<Instance<P>>, text: Bytes) {
    IsTextBuffer(entry) && entry.instance.text == text
  }

  lemma CounterStep<P>(host: Host<Instance<P>>, s: Session<Instance<P>>, turn: Turn, id: u64, value: int)
    requires ValidSession(host, s, turn.next) && Issued(id, turn.next)
    requires id in s.objects && CounterHolds(s.objects[id], value)
    ensures var t := Take(host, s, turn);
            id in t.session.objects ==>
              CounterHolds(t.session.objects[id], value + AcceptedDelta(turn.op, t.outcome, id))
  {
    hide Execute, ValidArguments, ValidSession;
    if turn.op.InvokeMethod? && turn.op.id == id {
      var m := Method(INCREMENT, [Parameter(DELTA, INTEGER)], INTEGER);
      if turn.op.name == m.name && ValidArguments(turn.op.arguments, m.parameters) {
        IncrementIsExact(host, s, turn.next, id, turn.op.arguments);
      } else {
        InvokeNeedsDeclaration(host, s, turn.next, id, m, turn.op);
      }
    } else {
      OnlyItsInvocationTouches(host, s, turn, id);
    }
  }

  lemma TextBufferStep<P>(host: Host<Instance<P>>, s: Session<Instance<P>>, turn: Turn, id: u64, text: Bytes)
    requires ValidSession(host, s, turn.next) && Issued(id, turn.next)
    requires id in s.objects && BufferHolds(s.objects[id], text)
    ensures var t := Take(host, s, turn);
            id in t.session.objects ==>
              BufferHolds(t.session.objects[id], text + AcceptedSuffix(turn.op, t.outcome, id))
  {
    hide Execute, ValidArguments, ValidSession, Utf8.Valid;
    if turn.op.InvokeMethod? && turn.op.id == id {
      var m := Method(APPEND, [Parameter(SUFFIX, TEXT)], TEXT);
      if turn.op.name == m.name && ValidArguments(turn.op.arguments, m.parameters) {
        AppendIsExact(host, s, turn.next, id, turn.op.arguments);
      } else {
        InvokeNeedsDeclaration(host, s, turn.next, id, m, turn.op);
      }
    } else {
      OnlyItsInvocationTouches(host, s, turn, id);
    }
  }

  lemma KeyIsIssued<I>(host: Host<I>, s: Session<I>, next: u64, id: u64)
    requires ValidSession(host, s, next) && id in s.objects
    ensures Issued(id, next)
  {
    hide Registered, Used, ValidValue;
  }

  lemma RevivalIsImpossible<I>(host: Host<I>, s: Session<I>, turn: Turn, id: u64)
    requires ValidSession(host, s, turn.next) && Issued(id, turn.next)
    ensures id in Take(host, s, turn).session.objects ==> id in s.objects
    ensures Issued(id, Take(host, s, turn).next)
  {
    hide Execute, ValidSession;
    IdentifiersAreConsumedOnce(host, s, turn.next, turn.op);
  }

  /** What one more turn of a run may rely on. */
  lemma BeforeLastTurn<I>(host: Host<I>, s: Session<I>, next: u64, turns: seq<Turn>)
    requires ValidHost(host) && ValidSession(host, s, next) && Paced(host, s, next, turns) && turns != []
    ensures var n := |turns| - 1;
            && Paced(host, s, next, turns[..n])
            && ValidSession(host, After(host, s, turns[..n]), turns[n].next)
            && Advances(SourceAfter(host, s, next, turns[..n]), turns[n].next)
  {
    hide Take, ValidSession, ValidHost;
    var n := |turns| - 1;
    RunKeepsValid(host, s, next, turns[..n]);
    AdvanceKeepsValid(host, After(host, s, turns[..n]), SourceAfter(host, s, next, turns[..n]), turns[n].next);
  }

  /** Through any run a surviving Counter holds its first value plus every accepted delta. */
  lemma {:induction false} CounterAccumulates<P>(host: Host<Instance<P>>, s: Session<Instance<P>>, next: u64,
                                                 turns: seq<Turn>, id: u64, initial: int)
    requires ValidHost(host) && ValidSession(host, s, next) && Paced(host, s, next, turns)
    requires id in s.objects && CounterHolds(s.objects[id], initial)
    ensures Issued(id, SourceAfter(host, s, next, turns))
    ensures id in After(host, s, turns).objects ==>
              CounterHolds(After(host, s, turns).objects[id], initial + Deltas(host, s, turns, id))
    decreases |turns|
  {
    hide Take, ValidSession, ValidHost, CounterHolds;
    KeyIsIssued(host, s, next, id);
    if turns != [] {
      var n := |turns| - 1;
      var before := After(host, s, turns[..n]);
      BeforeLastTurn(host, s, next, turns);
      CounterAccumulates(host, s, next, turns[..n], id, initial);
      RevivalIsImpossible(host, before, turns[n], id);
      if id in before.objects {
        CounterStep(host, before, turns[n], id, initial + Deltas(host, s, turns[..n], id));
      }
    }
  }

  /** Through any run a surviving TextBuffer holds its first text, then every accepted suffix. */
  lemma {:induction false} TextBufferAccumulates<P>(host: Host<Instance<P>>, s: Session<Instance<P>>, next: u64,
                                                    turns: seq<Turn>, id: u64, initial: Bytes)
    requires ValidHost(host) && ValidSession(host, s, next) && Paced(host, s, next, turns)
    requires id in s.objects && BufferHolds(s.objects[id], initial)
    ensures Issued(id, SourceAfter(host, s, next, turns))
    ensures id in After(host, s, turns).objects ==>
              BufferHolds(After(host, s, turns).objects[id], initial + Suffixes(host, s, turns, id))
    decreases |turns|
  {
    hide Take, ValidSession, ValidHost, BufferHolds;
    KeyIsIssued(host, s, next, id);
    if turns == [] {
      assert initial + [] == initial;
    } else {
      var n := |turns| - 1;
      var before := After(host, s, turns[..n]);
      BeforeLastTurn(host, s, next, turns);
      TextBufferAccumulates(host, s, next, turns[..n], id, initial);
      RevivalIsImpossible(host, before, turns[n], id);
      if id in before.objects {
        var suffixes := Suffixes(host, s, turns[..n], id);
        var suffix := AcceptedSuffix(turns[n].op, Take(host, before, turns[n]).outcome, id);
        TextBufferStep(host, before, turns[n], id, initial + suffixes);
        assert initial + suffixes + suffix == initial + (suffixes + suffix);
      }
    }
  }

  // ---- lifetimes ----------------------------------------------------------------------------

  /** Turn `m` of the run created this object of this class. */
  ghost predicate CreatedAt<I>(host: Host<I>, s: Session<I>, turns: seq<Turn>, m: nat, name: Bytes, id: u64) {
    && m < |turns| && turns[m].op.CreateObject? && turns[m].op.className == name
    && OutcomeOf(host, s, turns, m).Snapshot? && OutcomeOf(host, s, turns, m).id == id
  }

  /** The run up to and including turn `m`, and the rest, which starts from a valid session. */
  lemma SplitAfter<I>(host: Host<I>, s: Session<I>, next: u64, turns: seq<Turn>, m: nat)
    requires ValidHost(host) && ValidSession(host, s, next) && Paced(host, s, next, turns) && m < |turns|
    ensures var t := Take(host, After(host, s, turns[..m]), turns[m]);
            && After(host, s, turns[..m + 1]) == t.session
            && ValidSession(host, t.session, t.next) && Paced(host, t.session, t.next, turns[m + 1..])
            && After(host, s, turns) == After(host, t.session, turns[m + 1..])
  {
    hide ValidHost, ValidSession, Take, Paced;
    var prefix := turns[..m + 1];
    assert turns == prefix + turns[m + 1..] && prefix[..m] == turns[..m];
    RunSplits(host, s, next, prefix, turns[m + 1..]);
    RunKeepsValid(host, s, next, prefix);
  }

  /** In every run a surviving Counter holds the integer it was created with plus every delta
      accepted since. */
  lemma CounterLifetime<P>(host: Host<Instance<P>>, s: Session<Instance<P>>, next: u64, turns: seq<Turn>, m: nat, id: u64)
    requires ValidHost(host) && ValidSession(host, s, next) && Paced(host, s, next, turns)
    requires Lookup(host.definitions, COUNTER) == Some(CounterDefinition<P>())
    requires CreatedAt(host, s, turns, m, COUNTER, id)
    ensures |turns[m].op.arguments| == 1 && turns[m].op.arguments[0].data.Integer?
    ensures id in After(host, s, turns).objects ==>
              CounterHolds(After(host, s, turns).objects[id],
                           turns[m].op.arguments[0].data.integer
                           + Deltas(host, After(host, s, turns[..m + 1]), turns[m + 1..], id))
  {
    hide ValidHost, ValidSession, Execute, After, Paced, Deltas, ValidArguments, Lookup, Used, MakeError;
    SplitAfter(host, s, next, turns, m);
    var before := After(host, s, turns[..m]);
    var t := Take(host, before, turns[m]);
    OpenIfAnswered(host, before, turns[m]);
    CreateCounterIsExact(host, before, turns[m].next, turns[m].op.arguments);
    CounterAccumulates(host, t.session, t.next, turns[m + 1..], id, turns[m].op.arguments[0].data.integer);
  }

  /** In every run a surviving TextBuffer holds the text it was created with, then every suffix
      accepted since. */
  lemma TextBufferLifetime<P>(host: Host<Instance<P>>, s: Session<Instance<P>>, next: u64, turns: seq<Turn>, m: nat,
                              id: u64)
    requires ValidHost(host) && ValidSession(host, s, next) && Paced(host, s, next, turns)
    requires Lookup(host.definitions, TEXT_BUFFER) == Some(TextBufferDefinition<P>())
    requires CreatedAt(host, s, turns, m, TEXT_BUFFER, id)
    ensures |turns[m].op.arguments| == 1 && turns[m].op.arguments[0].data.Text?
    ensures id in After(host, s, turns).objects ==>
              BufferHolds(After(host, s, turns).objects[id],
                          turns[m].op.arguments[0].data.text
                          + Suffixes(host, After(host, s, turns[..m + 1]), turns[m + 1..], id))
  {
    hide ValidHost, ValidSession, Execute, After, Paced, Suffixes, ValidArguments, Lookup, Used, MakeError, Utf8.Valid;
    SplitAfter(host, s, next, turns, m);
    var before := After(host, s, turns[..m]);
    var t := Take(host, before, turns[m]);
    OpenIfAnswered(host, before, turns[m]);
    CreateTextBufferIsExact(host, before, turns[m].next, turns[m].op.arguments);
    NamesAreValid();
    OneArgument(turns[m].op.arguments, INITIAL, TEXT);
    TextBufferAccumulates(host, t.session, t.next, turns[m + 1..], id, turns[m].op.arguments[0].data.text);
  }

}
