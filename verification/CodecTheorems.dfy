/** The conversions undo each other, in both directions. */
module CodecTheorems {
  import opened Contracts
  import opened Validation
  import opened Messages
  import opened Budgets
  import opened Codec

  // ---- which values read back ---------------------------------------------------------------

  predicate Readable(v: Value) { v.Real? ==> Finite(v.bits) }

  predicate NamedOk(s: seq<NamedValue>) {
    WellNamed(ValueNames(s)) && forall i :: 0 <= i < |s| ==> Readable(s[i].data)
  }
  predicate ParametersOk(s: seq<Parameter>) {
    WellNamed(ParameterNames(s)) && forall i :: 0 <= i < |s| ==> ValidKind(s[i].kind)
  }
  predicate AttributesOk(s: seq<Attribute>) {
    WellNamed(AttributeNames(s)) && forall i :: 0 <= i < |s| ==> ValidKind(s[i].kind)
  }
  predicate MethodsOk(s: seq<Method>) {
    && WellNamed(MethodNames(s))
    && forall i :: 0 <= i < |s| ==> ValidKind(s[i].resultKind) && ParametersOk(s[i].parameters)
  }
  predicate DescriptionOk(d: ClassDescription) {
    && ValidName(d.name) && ParametersOk(d.constructorParameters)
    && AttributesOk(d.attributes) && MethodsOk(d.methods)
  }
  predicate RecordsOk(s: seq<ValueRecord>, previous: u64) {
    s == [] || (s[0].id > previous && Readable(s[0].data) && RecordsOk(s[1..], s[0].id))
  }

  predicate OperationOk(op: Operation) {
    match op
    case ListClasses(after, limit) => ValidName(after, true) && ValidPageSize(limit)
    case DescribeClass(name) => ValidName(name)
    case PutValue(data) => Readable(data)
    case GetValue(id) => id != 0
    case ListValues(_, limit) => ValidPageSize(limit)
    case CreateObject(name, arguments) => ValidName(name) && NamedOk(arguments)
    case GetObject(id) => id != 0
    case ReleaseObject(id) => id != 0
    case GetAttribute(id, name) => id != 0 && ValidName(name)
    case InvokeMethod(id, name, arguments) => id != 0 && ValidName(name) && NamedOk(arguments)
  }

  predicate OutcomeOk(o: Outcome) {
    match o
    case ClassesPage(names, next) => ValidClassesPage(names, next)
    case Description(d) => DescriptionOk(d)
    case Stored(r) => r.id != 0 && Readable(r.data)
    case ValuesPage(values, next) =>
      RecordsOk(values, 0) && (next != 0 ==> values != [] && next == values[|values| - 1].id)
    case Snapshot(id, name, state) => id != 0 && ValidName(name) && NamedOk(state)
    case Released => true
    case Result(v) => Readable(v)
    case Error(code, _) => INVALID_REQUEST <= code <= NUMERIC_OVERFLOW
  }

  // ---- reading what was written -------------------------------------------------------------

  lemma NamedReadsBack(s: seq<NamedValue>)
    ensures ReadNamed(WriteNamed(s)) == if NamedOk(s) then Some(s) else None
  {
    hide WellNamed, Finite;
    var w := WriteNamed(s);
    assert forall i :: 0 <= i < |s| ==> w[i].value == Some(WriteValue(s[i].data));
    assert forall i :: 0 <= i < |s| ==> (ReadValue(w[i].value).Some? <==> Readable(s[i].data));
    if AllReadable(w) {
      assert Converted(w) == s;
    }
  }

  lemma ParametersReadBack(s: seq<Parameter>)
    ensures ReadParameters(WriteParameters(s)) == if ParametersOk(s) then Some(s) else None
  {
    hide WellNamed;
    var w := WriteParameters(s);
    assert forall i :: 0 <= i < |s| ==> w[i].kind == s[i].kind && NarrowKind(w[i].kind) == s[i].kind;
    if forall i :: 0 <= i < |w| ==> GoodKind(w[i].kind) {
      assert seq(|w|, i requires 0 <= i < |w| => Parameter(w[i].name, NarrowKind(w[i].kind))) == s;
    }
  }

  lemma AttributesReadBack(s: seq<Attribute>)
    ensures ReadAttributes(WriteAttributes(s)) == if AttributesOk(s) then Some(s) else None
  {
    hide WellNamed;
    var w := WriteAttributes(s);
    assert forall i :: 0 <= i < |s| ==> w[i].kind == s[i].kind && NarrowKind(w[i].kind) == s[i].kind;
    if forall i :: 0 <= i < |w| ==> GoodKind(w[i].kind) {
      assert seq(|w|, i requires 0 <= i < |w| => Attribute(w[i].name, NarrowKind(w[i].kind), w[i].readOnly)) == s;
    }
  }

  lemma MethodReadsBack(m: Method)
    ensures ReadableMethod(WriteMethod(m)) <==> ValidKind(m.resultKind) && ParametersOk(m.parameters)
    ensures ReadableMethod(WriteMethod(m)) ==> MethodOf(WriteMethod(m)) == m
  {
    hide ReadParameters, WriteParameters, ParametersOk;
    ParametersReadBack(m.parameters);
  }

  lemma MethodsReadBack(s: seq<Method>)
    ensures ReadMethods(WriteMethods(s)) == if MethodsOk(s) then Some(s) else None
  {
    hide WellNamed, ReadableMethod, WriteMethod, ParametersOk, MethodOf;
    var w := WriteMethods(s);
    forall i | 0 <= i < |s|
      ensures ReadableMethod(w[i]) <==> ValidKind(s[i].resultKind) && ParametersOk(s[i].parameters)
      ensures ReadableMethod(w[i]) ==> MethodOf(w[i]) == s[i]
    {
      MethodReadsBack(s[i]);
    }
    if forall i :: 0 <= i < |w| ==> ReadableMethod(w[i]) {
      assert MethodsOf(w) == s;
    }
  }

  lemma DescriptionReadsBack(d: ClassDescription)
    ensures ReadDescription(WriteDescription(d)) == if DescriptionOk(d) then Some(d) else None
  {
    hide ReadParameters, ReadAttributes, ReadMethods, ValidName, ParametersOk, AttributesOk, MethodsOk,
         WriteParameters, WriteAttributes, WriteMethods;
    ParametersReadBack(d.constructorParameters);
    AttributesReadBack(d.attributes);
    MethodsReadBack(d.methods);
  }

  lemma {:induction false} RecordsReadBack(s: seq<ValueRecord>, previous: u64)
    ensures ReadRecords(WriteRecords(s), previous) == if RecordsOk(s, previous) then Some(s) else None
    decreases |s|
  {
    hide Finite;
    if s != [] {
      assert WriteRecords(s)[0] == WriteRecord(s[0]);
      assert WriteRecords(s)[1..] == WriteRecords(s[1..]);
      RecordsReadBack(s[1..], s[0].id);
      assert s == [s[0]] + s[1..];
    }
  }

  /** Reading a written operation returns it exactly when its fields obey the rules. */
  lemma OperationReadsBack(op: Operation)
    ensures ReadOperation(WriteOperation(op)) == if OperationOk(op) then Some(op) else None
  {
    hide ReadNamed, WriteNamed, NamedOk, ValidName, Finite;
    match op
    case CreateObject(_, arguments) => NamedReadsBack(arguments);
    case InvokeMethod(_, _, arguments) => NamedReadsBack(arguments);
    case _ =>
  }

  lemma OutcomeReadsBack(o: Outcome)
    ensures ReadOutcome(WriteOutcome(o)) == if OutcomeOk(o) then Some(o) else None
  {
    hide ReadNamed, WriteNamed, NamedOk, ReadRecords, RecordsOk, ReadDescription, WriteDescription, DescriptionOk,
         WriteRecords, ValidClassesPage, ValidName, Finite;
    match o
    case Description(d) => DescriptionReadsBack(d);
    case ValuesPage(values, _) => RecordsReadBack(values, 0);
    case Snapshot(_, _, state) => NamedReadsBack(state);
    case _ =>
  }

  // ---- what can be read at all --------------------------------------------------------------

  lemma {:induction false} ReadRecordsAreOk(s: seq<PbRecord>, previous: u64)
    ensures ReadRecords(s, previous).Some? ==> RecordsOk(ReadRecords(s, previous).value, previous)
    decreases |s|
  {
    hide Finite;
    if ReadRecords(s, previous).Some? && s != [] {
      var first := ReadRecord(s[0]).value;
      ReadRecordsAreOk(s[1..], first.id);
      assert ReadRecords(s, previous).value[1..] == ReadRecords(s[1..], first.id).value;
    }
  }

  lemma ReadOperationIsOk(m: PbOperation)
    requires ReadOperation(m).Some?
    ensures OperationOk(ReadOperation(m).value)
  {
    hide WellNamed, ValidName, Finite;
  }

  lemma ReadOutcomeIsOk(m: PbOutcome)
    requires ReadOutcome(m).Some?
    ensures OutcomeOk(ReadOutcome(m).value)
  {
    hide WellNamed, ValidName, Finite, ValidClassesPage, ReadRecords, RecordsOk, ReadDescription, DescriptionOk;
    match m
    case PbDescribed(d) => ReadDescriptionIsOk(d);
    case PbValues(values, _, _) => ReadRecordsAreOk(values, 0);
    case _ =>
  }

  lemma ReadDescriptionIsOk(d: PbDescription)
    requires ReadDescription(d).Some?
    ensures DescriptionOk(ReadDescription(d).value)
  {
    hide WellNamed, ValidName;
    var methods := ReadMethods(d.methods).value;
    forall i | 0 <= i < |methods| ensures ParametersOk(methods[i].parameters) && ValidKind(methods[i].resultKind) {
      assert ReadableMethod(d.methods[i]);
    }
  }

  lemma EnvelopeHasBytes(version: Option<u32>, id: u64, body: seq<Field>, unknown: Unknowns)
    requires version.Some?
    ensures ByteSize(Envelope(version, id, body, unknown)) > 0
  {
    var tree := Envelope(version, id, body, unknown);
    assert tree.fields[0] == Scalar(VersionBytes(version));
    assert FieldsBytes(tree.fields) >= FieldBytes(tree.fields[0]);
  }

  /** Every accepted request or response decodes to itself. */
  lemma EncodedRequestDecodes(r: Request)
    ensures EncodeRequest(r).Ok? ==> DecodeRequest(EncodeRequest(r).value) == Ok(r)
  {
    hide CheckMessage, ByteSize, ReadOperation, WriteOperation, OperationField;
    OperationReadsBack(r.body);
    EnvelopeHasBytes(Some(r.version), r.id, OperationField(WriteOperation(r.body)), []);
  }

  lemma EncodedResponseDecodes(r: Response)
    ensures EncodeResponse(r).Ok? ==> DecodeResponse(EncodeResponse(r).value) == Ok(r)
  {
    hide CheckMessage, ByteSize, ReadOutcome, WriteOutcome, OutcomeField;
    OutcomeReadsBack(r.body);
    EnvelopeHasBytes(Some(r.version), r.id, OutcomeField(WriteOutcome(r.body)), []);
  }

  // ---- writing what was read ----------------------------------------------------------------

  lemma {:induction false} StripAllAt(nodes: seq<Node>, i: nat)
    requires i < |nodes|
    ensures StripAll(nodes)[i] == Strip(nodes[i])
  {
    if i > 0 {
      StripAllAt(nodes[1..], i - 1);
    }
  }

  lemma {:induction false} StripFieldsAt(fields: seq<Field>, i: nat)
    requires i < |fields|
    ensures StripFields(fields)[i] == StripField(fields[i])
  {
    if i > 0 {
      StripFieldsAt(fields[1..], i - 1);
    }
  }

  /** A field list strips entry by entry. */
  lemma StripsTo(fields: seq<Field>, stripped: seq<Field>)
    requires |stripped| == |fields|
    requires forall i :: 0 <= i < |fields| ==> stripped[i] == StripField(fields[i])
    ensures StripFields(fields) == stripped
  {
    forall i | 0 <= i < |fields| ensures StripFields(fields)[i] == stripped[i] {
      StripFieldsAt(fields, i);
    }
  }

  lemma NodesStripTo(nodes: seq<Node>, stripped: seq<Node>)
    requires |stripped| == |nodes|
    requires forall i :: 0 <= i < |nodes| ==> stripped[i] == Strip(nodes[i])
    ensures StripAll(nodes) == stripped
  {
    forall i | 0 <= i < |nodes| ensures StripAll(nodes)[i] == stripped[i] {
      StripAllAt(nodes, i);
    }
  }

  lemma ValueRewrites(m: PbValue)
    requires ReadValue(Some(m)).Some?
    ensures ValueNode(WriteValue(ReadValue(Some(m)).value)) == Strip(ValueNode(m))
  {
    hide VarintSize;
    StripsTo(ValueNode(m).fields, ValueNode(m).fields);
  }

  lemma OptionalRewrites(m: Option<PbValue>)
    requires ReadValue(m).Some?
    ensures OptionalNode(Some(WriteValue(ReadValue(m).value))) == StripAll(OptionalNode(m))
  {
    hide ValueNode;
    ValueRewrites(m.value);
    NodesStripTo(OptionalNode(m), [Strip(ValueNode(m.value))]);
  }

  lemma NamedRewrites(s: seq<PbNamed>)
    requires ReadNamed(s).Some?
    ensures NamedNodes(WriteNamed(ReadNamed(s).value)) == StripAll(NamedNodes(s))
  {
    hide WellNamed, OptionalNode, WriteValue, ReadValue, Strip;
    var rewritten := NamedNodes(WriteNamed(ReadNamed(s).value));
    forall i | 0 <= i < |s| ensures rewritten[i] == Strip(NamedNodes(s)[i]) {
      NamedEntryRewrites(s[i]);
    }
    NodesStripTo(NamedNodes(s), rewritten);
  }

  lemma NamedEntryRewrites(n: PbNamed)
    requires ReadValue(n.value).Some?
    ensures NamedNode(PbNamed(n.name, Some(WriteValue(ReadValue(n.value).value)), [])) == Strip(NamedNode(n))
  {
    hide OptionalNode, WriteValue, ReadValue;
    OptionalRewrites(n.value);
    StripsTo(NamedNode(n).fields,
             NamedNode(PbNamed(n.name, Some(WriteValue(ReadValue(n.value).value)), [])).fields);
  }

  lemma RecordRewrites(r: PbRecord)
    requires ReadRecord(r).Some?
    ensures RecordNode(WriteRecord(ReadRecord(r).value)) == Strip(RecordNode(r))
  {
    hide OptionalNode, WriteValue, ReadValue, VarintSize;
    OptionalRewrites(r.value);
    StripsTo(RecordNode(r).fields, RecordNode(WriteRecord(ReadRecord(r).value)).fields);
  }

  lemma {:induction false} RecordsRewrite(s: seq<PbRecord>, previous: u64)
    requires ReadRecords(s, previous).Some?
    ensures RecordNodes(WriteRecords(ReadRecords(s, previous).value)) == StripAll(RecordNodes(s))
    decreases |s|
  {
    hide RecordNode, WriteRecord, ReadRecord;
    if s != [] {
      var first := ReadRecord(s[0]).value;
      var rest := ReadRecords(s[1..], first.id).value;
      RecordRewrites(s[0]);
      RecordsRewrite(s[1..], first.id);
      assert RecordNodes(s)[1..] == RecordNodes(s[1..]);
      assert WriteRecords([first] + rest) == [WriteRecord(first)] + WriteRecords(rest);
      assert RecordNodes(WriteRecords([first] + rest))
             == [RecordNode(WriteRecord(first))] + RecordNodes(WriteRecords(rest));
    }
  }

  lemma ParametersRewrite(s: seq<PbParameter>)
    requires ReadParameters(s).Some?
    ensures ParameterNodes(WriteParameters(ReadParameters(s).value)) == StripAll(ParameterNodes(s))
  {
    hide WellNamed, VarintSize, Strip;
    var rewritten := ParameterNodes(WriteParameters(ReadParameters(s).value));
    forall i | 0 <= i < |s| ensures rewritten[i] == Strip(ParameterNodes(s)[i]) {
      assert GoodKind(s[i].kind);
      PlainStrips(ParameterNode(s[i]));
    }
    NodesStripTo(ParameterNodes(s), rewritten);
  }

  /** A node without submessages only loses its own unknown fields. */
  lemma PlainStrips(n: Node)
    requires forall i :: 0 <= i < |n.fields| ==> !n.fields[i].Children?
    ensures Strip(n) == Node([], n.fields)
  {
    StripsTo(n.fields, n.fields);
  }

  lemma AttributesRewrite(s: seq<PbAttribute>)
    requires ReadAttributes(s).Some?
    ensures AttributeNodes(WriteAttributes(ReadAttributes(s).value)) == StripAll(AttributeNodes(s))
  {
    hide WellNamed, VarintSize, Strip;
    var rewritten := AttributeNodes(WriteAttributes(ReadAttributes(s).value));
    forall i | 0 <= i < |s| ensures rewritten[i] == Strip(AttributeNodes(s)[i]) {
      assert GoodKind(s[i].kind);
      PlainStrips(AttributeNode(s[i]));
    }
    NodesStripTo(AttributeNodes(s), rewritten);
  }

  lemma MethodRewrites(m: PbMethod)
    requires ReadableMethod(m)
    ensures MethodNode(WriteMethod(MethodOf(m))) == Strip(MethodNode(m))
  {
    hide ReadParameters, WriteParameters, ParameterNodes, VarintSize;
    ParametersRewrite(m.parameters);
    StripsTo(MethodNode(m).fields, MethodNode(WriteMethod(MethodOf(m))).fields);
  }

  lemma MethodsRewrite(s: seq<PbMethod>)
    requires ReadMethods(s).Some?
    ensures MethodNodes(WriteMethods(ReadMethods(s).value)) == StripAll(MethodNodes(s))
  {
    hide WellNamed, MethodNode, WriteMethod, MethodOf, ReadableMethod, Strip;
    var rewritten := MethodNodes(WriteMethods(ReadMethods(s).value));
    forall i | 0 <= i < |s| ensures rewritten[i] == Strip(MethodNodes(s)[i]) {
      MethodRewrites(s[i]);
    }
    NodesStripTo(MethodNodes(s), rewritten);
  }

  lemma DescriptionRewrites(d: PbDescription)
    requires ReadDescription(d).Some?
    ensures DescriptionNode(WriteDescription(ReadDescription(d).value)) == Strip(DescriptionNode(d))
  {
    hide ReadParameters, ReadAttributes, ReadMethods, WriteParameters, WriteAttributes, WriteMethods,
         ParameterNodes, AttributeNodes, MethodNodes, ValidName;
    ParametersRewrite(d.constructorParameters);
    AttributesRewrite(d.attributes);
    MethodsRewrite(d.methods);
    StripsTo(DescriptionNode(d).fields, DescriptionNode(WriteDescription(ReadDescription(d).value)).fields);
  }

  /** The single body field of an envelope, once its content is known to strip to `inner`. */
  lemma BodyStrips(tag: nat, content: Node, inner: Node)
    requires Strip(content) == inner
    ensures StripFields([Children(tag, [content])]) == [Children(tag, [inner])]
  {
    hide Strip;
    NodesStripTo([content], [inner]);
    StripsTo([Children(tag, [content])], [Children(tag, [inner])]);
  }

  lemma OperationRewrites(m: PbOperation)
    requires ReadOperation(m).Some?
    ensures OperationField(WriteOperation(ReadOperation(m).value)) == StripFields(OperationField(m))
  {
    hide ReadNamed, WriteNamed, NamedNodes, ReadValue, WriteValue, OptionalNode, VarintSize, ValidName, StripFields;
    var body := OperationField(m)[0];
    var content := body.nodes[0];
    var inner := OperationField(WriteOperation(ReadOperation(m).value))[0].nodes[0];
    match m {
      case PbPutValue(value, _) => OptionalRewrites(value);
      case PbCreateObject(_, arguments, _) => NamedRewrites(arguments);
      case PbInvokeMethod(_, _, arguments, _) => NamedRewrites(arguments);
      case _ =>
    }
    StripsTo(content.fields, inner.fields);
    BodyStrips(body.tag, content, inner);
  }

  lemma OutcomeRewrites(m: PbOutcome)
    requires ReadOutcome(m).Some?
    ensures OutcomeField(WriteOutcome(ReadOutcome(m).value)) == StripFields(OutcomeField(m))
  {
    hide ReadNamed, WriteNamed, NamedNodes, ReadValue, WriteValue, ValueNode, VarintSize, ValidName, StripFields,
         ReadRecords, WriteRecords, RecordNodes, ReadRecord, WriteRecord, RecordNode, ReadDescription,
         WriteDescription, DescriptionNode, ValidClassesPage;
    var body := OutcomeField(m)[0];
    var content := body.nodes[0];
    var inner := OutcomeField(WriteOutcome(ReadOutcome(m).value))[0].nodes[0];
    match m {
      case PbDescribed(d) => DescriptionRewrites(d);
      case PbStored(r) => RecordRewrites(r);
      case PbResult(v) => ValueRewrites(v);
      case PbValues(values, _, _) =>
        RecordsRewrite(values, 0);
        StripsTo(content.fields, inner.fields);
      case PbSnapshot(_, _, state, _) =>
        NamedRewrites(state);
        StripsTo(content.fields, inner.fields);
      case _ => StripsTo(content.fields, inner.fields);
    }
    BodyStrips(body.tag, content, inner);
  }

  lemma EnvelopeStrips(version: Option<u32>, id: u64, body: seq<Field>, unknown: Unknowns)
    ensures Strip(Envelope(version, id, body, unknown)) == Envelope(version, id, StripFields(body), [])
  {
    hide VarintSize;
    var tree := Envelope(version, id, body, unknown);
    var stripped := [Scalar(VersionBytes(version)), Scalar(UintBytes(id))] + StripFields(body);
    forall i | 0 <= i < |tree.fields| ensures stripped[i] == StripField(tree.fields[i]) {
      if i >= 2 {
        StripFieldsAt(body, i - 2);
      }
    }
    StripsTo(tree.fields, stripped);
  }

  lemma StrippedStaysWithin(tree: Node)
    requires CheckMessage(tree, FULL_BUDGET).Within?
    ensures CheckMessage(Strip(tree), FULL_BUDGET).Within?
    ensures NodeCount(Strip(tree)) == NodeCount(tree) && UnknownsOf(Strip(tree)) == 0
    ensures ByteSize(Strip(tree)) <= ByteSize(tree)
  {
    hide CheckMessage, Strip, NodeCount, UnknownsOf, ByteSize, Tame;
    CheckIsExact(tree, FULL_BUDGET);
    StripIsSmaller(tree);
    CheckIsExact(Strip(tree), FULL_BUDGET);
  }

  /** Whatever decodes can be written again: the message loses its unknown fields and nothing
      else, it never grows, it passes the same limits, and it decodes to the same request. It is
      accepted whenever the payload was no shorter than the tree it parsed to. */
  lemma DecodedRequestReencodes(p: Packet<PbRequest>)
    requires DecodeRequest(p).Ok?
    ensures var r, tree := DecodeRequest(p).value, RequestNode(p.message.value);
            var again := RequestNode(RequestMessage(r));
            && again == Strip(tree)
            && NodeCount(again) == NodeCount(tree) && UnknownsOf(again) == 0 && ByteSize(again) <= ByteSize(tree)
            && (ByteSize(again) <= MAX_PAYLOAD_BYTES <==> EncodeRequest(r).Ok?)
            && (EncodeRequest(r).Ok? ==> DecodeRequest(EncodeRequest(r).value) == Ok(r))
            && (ByteSize(tree) <= p.size ==> EncodeRequest(r).Ok? && EncodeRequest(r).value.size <= p.size)
  {
    hide CheckMessage, ByteSize, ReadOperation, WriteOperation, OperationField, Strip, StripFields, NodeCount,
         UnknownsOf;
    var m, r := p.message.value, DecodeRequest(p).value;
    OperationRewrites(m.operation);
    EnvelopeStrips(m.version, m.id, OperationField(m.operation), m.unknown);
    StrippedStaysWithin(RequestNode(m));
    EncodedRequestDecodes(r);
    ReadOperationIsOk(m.operation);
    OperationReadsBack(r.body);
  }

  lemma DecodedResponseReencodes(p: Packet<PbResponse>)
    requires DecodeResponse(p).Ok?
    ensures var r, tree := DecodeResponse(p).value, ResponseNode(p.message.value);
            var again := ResponseNode(ResponseMessage(r));
            && again == Strip(tree)
            && NodeCount(again) == NodeCount(tree) && UnknownsOf(again) == 0 && ByteSize(again) <= ByteSize(tree)
            && (ByteSize(again) <= MAX_PAYLOAD_BYTES <==> EncodeResponse(r).Ok?)
            && (EncodeResponse(r).Ok? ==> DecodeResponse(EncodeResponse(r).value) == Ok(r))
            && (ByteSize(tree) <= p.size ==> EncodeResponse(r).Ok? && EncodeResponse(r).value.size <= p.size)
  {
    hide CheckMessage, ByteSize, ReadOutcome, WriteOutcome, OutcomeField, Strip, StripFields, NodeCount,
         UnknownsOf;
    var m, r := p.message.value, DecodeResponse(p).value;
    OutcomeRewrites(m.outcome);
    EnvelopeStrips(m.version, m.id, OutcomeField(m.outcome), m.unknown);
    StrippedStaysWithin(ResponseNode(m));
    EncodedResponseDecodes(r);
    ReadOutcomeIsOk(m.outcome);
    OutcomeReadsBack(r.body);
  }
}
