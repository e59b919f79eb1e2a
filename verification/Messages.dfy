/** Wire messages: the generated types as the codec sees them, and the tree that reflection and
    size computation walk. Sizes follow the Protocol Buffers encoding guide, "Base 128 Varints"
    and "Length-Delimited Records", with proto3 implicit presence. */
module Messages {
  import opened Contracts

  datatype UnknownField = Plain(wire: nat) | Delimited(header: nat, length: nat) | Group(tags: nat, fields: Unknowns)
  type Unknowns = seq<UnknownField>

  datatype PbData = NoData | PbText(text: Bytes) | PbInteger(integer: i64) | PbReal(bits: u64)
  datatype PbValue = PbValue(data: PbData, unknown: Unknowns)
  datatype PbNamed = PbNamed(name: Bytes, value: Option<PbValue>, unknown: Unknowns)
  datatype PbRecord = PbRecord(id: u64, value: Option<PbValue>, unknown: Unknowns)
  datatype PbParameter = PbParameter(name: Bytes, kind: i32, unknown: Unknowns)
  datatype PbAttribute = PbAttribute(name: Bytes, kind: i32, readOnly: bool, unknown: Unknowns)
  datatype PbMethod = PbMethod(name: Bytes, parameters: seq<PbParameter>, resultKind: i32, unknown: Unknowns)
  datatype PbDescription = PbDescription(
    name: Bytes,
    attributes: seq<PbAttribute>,
    methods: seq<PbMethod>,
    constructorParameters: seq<PbParameter>,
    unknown: Unknowns)

  datatype PbOperation =
    | NoOperation
    | PbListClasses(after: Bytes, limit: u32, unknown: Unknowns)
    | PbDescribeClass(name: Bytes, unknown: Unknowns)
    | PbPutValue(value: Option<PbValue>, unknown: Unknowns)
    | PbGetValue(id: u64, unknown: Unknowns)
    | PbListValues(cursor: u64, limit: u32, unknown: Unknowns)
    | PbCreateObject(className: Bytes, arguments: seq<PbNamed>, unknown: Unknowns)
    | PbGetObject(id: u64, unknown: Unknowns)
    | PbReleaseObject(id: u64, unknown: Unknowns)
    | PbGetAttribute(id: u64, name: Bytes, unknown: Unknowns)
    | PbInvokeMethod(id: u64, name: Bytes, arguments: seq<PbNamed>, unknown: Unknowns)

  datatype PbOutcome =
    | NoOutcome
    | PbClasses(names: seq<Bytes>, nextName: Bytes, unknown: Unknowns)
    | PbDescribed(description: PbDescription)
    | PbStored(record: PbRecord)
    | PbValues(values: seq<PbRecord>, next: u64, unknown: Unknowns)
    | PbSnapshot(id: u64, className: Bytes, state: seq<PbNamed>, unknown: Unknowns)
    | PbReleased(unknown: Unknowns)
    | PbResult(result: PbValue)
    | PbError(code: i32, message: Bytes, unknown: Unknowns)

  datatype PbRequest = PbRequest(version: Option<u32>, id: u64, operation: PbOperation, unknown: Unknowns)
  datatype PbResponse = PbResponse(version: Option<u32>, id: u64, outcome: PbOutcome, unknown: Unknowns)

  // ---- the tree -----------------------------------------------------------------------------

  /** A message's listed fields; `implicit` strings are absent from the wire when empty. */
  datatype Node = Node(unknown: Unknowns, fields: seq<Field>)
  datatype Field =
    | Scalar(bytes: nat)
    | Texts(tag: nat, texts: seq<Bytes>, implicit: bool)
    | Children(tag: nat, nodes: seq<Node>)

  function VarintSize(n: nat): (size: nat)
    ensures size >= 1
  {
    if n < 128 then 1 else 1 + VarintSize(n / 128)
  }

  function ZigZag(n: i64): nat { if n >= 0 then 2 * n else -2 * n - 1 }

  function UintBytes(n: nat): nat { if n == 0 then 0 else 1 + VarintSize(n) }
  function EnumBytes(n: i32): nat { if n == 0 then 0 else if n < 0 then 11 else 1 + VarintSize(n) }
  function VersionBytes(v: Option<u32>): nat { if v.None? then 0 else 1 + VarintSize(v.value) }

  function ValueNode(v: PbValue): Node {
    Node(v.unknown,
         match v.data
         case NoData => []
         case PbText(t) => [Texts(1, [t], false)]
         case PbInteger(i) => [Scalar(1 + VarintSize(ZigZag(i)))]
         case PbReal(_) => [Scalar(9)])
  }

  function OptionalNode(v: Option<PbValue>): seq<Node> { if v.None? then [] else [ValueNode(v.value)] }

  function NamedNode(n: PbNamed): Node {
    Node(n.unknown, [Texts(1, [n.name], true), Children(1, OptionalNode(n.value))])
  }
  function NamedNodes(s: seq<PbNamed>): seq<Node> { seq(|s|, i requires 0 <= i < |s| => NamedNode(s[i])) }

  function RecordNode(r: PbRecord): Node {
    Node(r.unknown, [Scalar(UintBytes(r.id)), Children(1, OptionalNode(r.value))])
  }
  function RecordNodes(s: seq<PbRecord>): seq<Node> { seq(|s|, i requires 0 <= i < |s| => RecordNode(s[i])) }

  function ParameterNode(p: PbParameter): Node {
    Node(p.unknown, [Texts(1, [p.name], true), Scalar(EnumBytes(p.kind))])
  }
  function ParameterNodes(s: seq<PbParameter>): seq<Node> {
    seq(|s|, i requires 0 <= i < |s| => ParameterNode(s[i]))
  }

  function AttributeNode(a: PbAttribute): Node {
    Node(a.unknown, [Texts(1, [a.name], true), Scalar(EnumBytes(a.kind)), Scalar(if a.readOnly then 2 else 0)])
  }
  function AttributeNodes(s: seq<PbAttribute>): seq<Node> {
    seq(|s|, i requires 0 <= i < |s| => AttributeNode(s[i]))
  }

  function MethodNode(m: PbMethod): Node {
    Node(m.unknown, [Texts(1, [m.name], true), Children(1, ParameterNodes(m.parameters)),
                     Scalar(EnumBytes(m.resultKind))])
  }
  function MethodNodes(s: seq<PbMethod>): seq<Node> { seq(|s|, i requires 0 <= i < |s| => MethodNode(s[i])) }

  function DescriptionNode(d: PbDescription): Node {
    Node(d.unknown, [Texts(1, [d.name], true), Children(1, AttributeNodes(d.attributes)),
                     Children(1, MethodNodes(d.methods)), Children(1, ParameterNodes(d.constructorParameters))])
  }

  // Field numbers below sixteen take one tag byte, the later ones two.
  function OperationField(o: PbOperation): seq<Field> {
    match o
    case NoOperation => []
    case PbListClasses(after, limit, u) =>
      [Children(1, [Node(u, [Texts(1, [after], true), Scalar(UintBytes(limit))])])]
    case PbDescribeClass(name, u) => [Children(1, [Node(u, [Texts(1, [name], true)])])]
    case PbPutValue(value, u) => [Children(1, [Node(u, [Children(1, OptionalNode(value))])])]
    case PbGetValue(id, u) => [Children(1, [Node(u, [Scalar(UintBytes(id))])])]
    case PbListValues(cursor, limit, u) =>
      [Children(1, [Node(u, [Scalar(UintBytes(cursor)), Scalar(UintBytes(limit))])])]
    case PbCreateObject(name, arguments, u) =>
      [Children(1, [Node(u, [Texts(1, [name], true), Children(1, NamedNodes(arguments))])])]
    case PbGetObject(id, u) => [Children(2, [Node(u, [Scalar(UintBytes(id))])])]
    case PbReleaseObject(id, u) => [Children(2, [Node(u, [Scalar(UintBytes(id))])])]
    case PbGetAttribute(id, name, u) =>
      [Children(2, [Node(u, [Scalar(UintBytes(id)), Texts(1, [name], true)])])]
    case PbInvokeMethod(id, name, arguments, u) =>
      [Children(2, [Node(u, [Scalar(UintBytes(id)), Texts(1, [name], true), Children(1, NamedNodes(arguments))])])]
  }

  function OutcomeField(o: PbOutcome): seq<Field> {
    match o
    case NoOutcome => []
    case PbClasses(names, next, u) =>
      [Children(1, [Node(u, [Texts(1, names, false), Texts(1, [next], true)])])]
    case PbDescribed(d) => [Children(1, [DescriptionNode(d)])]
    case PbStored(r) => [Children(1, [RecordNode(r)])]
    case PbValues(values, next, u) =>
      [Children(1, [Node(u, [Children(1, RecordNodes(values)), Scalar(UintBytes(next))])])]
    case PbSnapshot(id, name, state, u) =>
      [Children(1, [Node(u, [Scalar(UintBytes(id)), Texts(1, [name], true), Children(1, NamedNodes(state))])])]
    case PbReleased(u) => [Children(1, [Node(u, [])])]
    case PbResult(v) => [Children(2, [ValueNode(v)])]
    case PbError(code, message, u) =>
      [Children(2, [Node(u, [Scalar(EnumBytes(code)), Texts(1, [message], true)])])]
  }

  function Envelope(version: Option<u32>, id: u64, body: seq<Field>, unknown: Unknowns): Node {
    Node(unknown, [Scalar(VersionBytes(version)), Scalar(UintBytes(id))] + body)
  }
  function RequestNode(m: PbRequest): Node { Envelope(m.version, m.id, OperationField(m.operation), m.unknown) }
  function ResponseNode(m: PbResponse): Node { Envelope(m.version, m.id, OutcomeField(m.outcome), m.unknown) }

  // ---- measures -----------------------------------------------------------------------------

  function UnknownBytes(u: Unknowns): nat {
    if u == [] then 0
    else
      (match u[0]
       case Plain(wire) => wire
       case Delimited(header, length) => header + length
       case Group(tags, fields) => tags + UnknownBytes(fields))
      + UnknownBytes(u[1..])
  }

  function TextBytes(tag: nat, texts: seq<Bytes>, implicit: bool): nat {
    if texts == [] then 0
    else (if implicit && texts[0] == [] then 0 else tag + VarintSize(|texts[0]|) + |texts[0]|)
         + TextBytes(tag, texts[1..], implicit)
  }

  /** Serialized length of a message. */
  function ByteSize(n: Node): nat
    decreases n, 1
  {
    UnknownBytes(n.unknown) + FieldsBytes(n.fields)
  }
  function FieldsBytes(fields: seq<Field>): nat
    decreases fields, 0
  {
    if fields == [] then 0 else FieldBytes(fields[0]) + FieldsBytes(fields[1..])
  }
  function FieldBytes(f: Field): nat
    decreases f, 1
  {
    match f
    case Scalar(bytes) => bytes
    case Texts(tag, texts, implicit) => TextBytes(tag, texts, implicit)
    case Children(tag, nodes) => ChildrenBytes(tag, nodes)
  }
  function ChildrenBytes(tag: nat, nodes: seq<Node>): nat
    decreases nodes, 0
  {
    if nodes == [] then 0
    else tag + VarintSize(ByteSize(nodes[0])) + ByteSize(nodes[0]) + ChildrenBytes(tag, nodes[1..])
  }

  /** Known messages in the tree, itself included. */
  function NodeCount(n: Node): nat
    decreases n, 1
  {
    1 + FieldsCount(n.fields)
  }
  function FieldsCount(fields: seq<Field>): nat
    decreases fields, 0
  {
    if fields == [] then 0
    else (if fields[0].Children? then ChildrenCount(fields[0].nodes) else 0) + FieldsCount(fields[1..])
  }
  function ChildrenCount(nodes: seq<Node>): nat
    decreases nodes, 0
  {
    if nodes == [] then 0 else NodeCount(nodes[0]) + ChildrenCount(nodes[1..])
  }

  /** Unknown fields, nested groups included. */
  function UnknownCount(u: Unknowns): nat {
    if u == [] then 0
    else 1 + (if u[0].Group? then UnknownCount(u[0].fields) else 0) + UnknownCount(u[1..])
  }

  function UnknownsOf(n: Node): nat
    decreases n, 1
  {
    UnknownCount(n.unknown) + UnknownsOfFields(n.fields)
  }
  function UnknownsOfFields(fields: seq<Field>): nat
    decreases fields, 0
  {
    if fields == [] then 0
    else (if fields[0].Children? then UnknownsOfChildren(fields[0].nodes) else 0) + UnknownsOfFields(fields[1..])
  }
  function UnknownsOfChildren(nodes: seq<Node>): nat
    decreases nodes, 0
  {
    if nodes == [] then 0 else UnknownsOf(nodes[0]) + UnknownsOfChildren(nodes[1..])
  }

  /** The same message with every unknown field dropped. */
  function Strip(n: Node): Node
    decreases n, 1
  {
    Node([], StripFields(n.fields))
  }
  function StripFields(fields: seq<Field>): (stripped: seq<Field>)
    ensures |stripped| == |fields|
    decreases fields, 0
  {
    if fields == [] then []
    else [StripField(fields[0])] + StripFields(fields[1..])
  }
  function StripField(f: Field): Field
    decreases f, 1
  {
    if f.Children? then f.(nodes := StripAll(f.nodes)) else f
  }
  function StripAll(nodes: seq<Node>): (stripped: seq<Node>)
    ensures |stripped| == |nodes|
    decreases nodes, 0
  {
    if nodes == [] then [] else [Strip(nodes[0])] + StripAll(nodes[1..])
  }
}
