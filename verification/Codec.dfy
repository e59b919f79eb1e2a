/** Conversion between contract values and wire messages, and the envelope checks around it.
    A payload is its byte length and the message its bytes parse to, if any. */
module Codec {
  import opened Contracts
  import opened Validation
  import opened ByteOrder
  import opened Messages
  import opened Budgets

  datatype Packet<+M> = Packet(size: nat, message: Option<M>)

  // ---- values and named values --------------------------------------------------------------

  /** An absent submessage reads like an empty one: no alternative is set. */
  function ReadValue(m: Option<PbValue>): Option<Value> {
    if m.None? then None
    else
      match m.value.data
      case NoData => None
      case PbText(t) => Some(Text(t))
      case PbInteger(i) => Some(Integer(i))
      case PbReal(bits) => if Finite(bits) then Some(Real(bits)) else None
  }

  function WriteValue(v: Value): PbValue {
    PbValue(match v
            case Text(t) => PbText(t)
            case Integer(i) => PbInteger(i)
            case Real(bits) => PbReal(bits),
            [])
  }

  predicate AllReadable(entries: seq<PbNamed>) {
    forall i :: 0 <= i < |entries| ==> ReadValue(entries[i].value).Some?
  }
  function Converted(entries: seq<PbNamed>): seq<NamedValue>
    requires AllReadable(entries)
  {
    seq(|entries|, i requires 0 <= i < |entries| => NamedValue(entries[i].name, ReadValue(entries[i].value).value))
  }
  function ReadNamed(entries: seq<PbNamed>): Option<seq<NamedValue>> {
    if AllReadable(entries) && WellNamed(ValueNames(Converted(entries))) then Some(Converted(entries)) else None
  }

  function WriteNamed(entries: seq<NamedValue>): seq<PbNamed> {
    seq(|entries|, i requires 0 <= i < |entries| =>
          PbNamed(entries[i].name, Some(WriteValue(entries[i].data)), []))
  }

  /** The conversion as it runs: fill a list, stop at the first unreadable value. */
  method ReadNamedEntries(entries: seq<PbNamed>) returns (result: Option<seq<NamedValue>>)
    ensures result == ReadNamed(entries)
  {
    var output := [];
    for i := 0 to |entries|
      invariant |output| == i
      invariant forall k :: 0 <= k < i ==> ReadValue(entries[k].value).Some?
                                           && output[k] == NamedValue(entries[k].name, ReadValue(entries[k].value).value)
    {
      var data := ReadValue(entries[i].value);
      if data.None? {
        return None;
      }
      output := output + [NamedValue(entries[i].name, data.value)];
    }
    assert output == Converted(entries);
    var named := ValidNames(ValueNames(output));
    return if named then Some(output) else None;
  }

  // ---- requests -----------------------------------------------------------------------------

  function ReadOperation(m: PbOperation): Option<Operation> {
    match m
    case NoOperation => None
    case PbListClasses(after, limit, _) =>
      if ValidName(after, true) && ValidPageSize(limit) then Some(ListClasses(after, limit)) else None
    case PbDescribeClass(name, _) => if ValidName(name) then Some(DescribeClass(name)) else None
    case PbPutValue(value, _) =>
      var data := ReadValue(value);
      if data.Some? then Some(PutValue(data.value)) else None
    case PbGetValue(id, _) => if id != 0 then Some(GetValue(id)) else None
    case PbListValues(cursor, limit, _) => if ValidPageSize(limit) then Some(ListValues(cursor, limit)) else None
    case PbCreateObject(name, arguments, _) =>
      var read := ReadNamed(arguments);
      if ValidName(name) && read.Some? then Some(CreateObject(name, read.value)) else None
    case PbGetObject(id, _) => if id != 0 then Some(GetObject(id)) else None
    case PbReleaseObject(id, _) => if id != 0 then Some(ReleaseObject(id)) else None
    case PbGetAttribute(id, name, _) => if id != 0 && ValidName(name) then Some(GetAttribute(id, name)) else None
    case PbInvokeMethod(id, name, arguments, _) =>
      var read := ReadNamed(arguments);
      if id != 0 && ValidName(name) && read.Some? then Some(InvokeMethod(id, name, read.value)) else None
  }

  function WriteOperation(op: Operation): PbOperation {
    match op
    case ListClasses(after, limit) => PbListClasses(after, limit, [])
    case DescribeClass(name) => PbDescribeClass(name, [])
    case PutValue(data) => PbPutValue(Some(WriteValue(data)), [])
    case GetValue(id) => PbGetValue(id, [])
    case ListValues(cursor, limit) => PbListValues(cursor, limit, [])
    case CreateObject(name, arguments) => PbCreateObject(name, WriteNamed(arguments), [])
    case GetObject(id) => PbGetObject(id, [])
    case ReleaseObject(id) => PbReleaseObject(id, [])
    case GetAttribute(id, name) => PbGetAttribute(id, name, [])
    case InvokeMethod(id, name, arguments) => PbInvokeMethod(id, name, WriteNamed(arguments), [])
  }

  // ---- responses ----------------------------------------------------------------------------

  function ReadRecord(m: PbRecord): Option<ValueRecord> {
    var data := ReadValue(m.value);
    if data.Some? && m.id != 0 then Some(ValueRecord(m.id, data.value)) else None
  }
  function WriteRecord(r: ValueRecord): PbRecord { PbRecord(r.id, Some(WriteValue(r.data)), []) }

  function WriteRecords(records: seq<ValueRecord>): seq<PbRecord> {
    seq(|records|, i requires 0 <= i < |records| => WriteRecord(records[i]))
  }

  /** Enumerations arrive as int and are narrowed to a byte before they are compared back. */
  function NarrowKind(kind: i32): ValueKind { kind % 0x100 }
  predicate GoodKind(kind: i32) { ValidKind(NarrowKind(kind)) && NarrowKind(kind) == kind }

  function ReadParameters(entries: seq<PbParameter>): Option<seq<Parameter>> {
    if exists i :: 0 <= i < |entries| && !GoodKind(entries[i].kind) then None
    else
      var output := seq(|entries|, i requires 0 <= i < |entries| =>
                          Parameter(entries[i].name, NarrowKind(entries[i].kind)));
      if WellNamed(ParameterNames(output)) then Some(output) else None
  }
  function WriteParameters(entries: seq<Parameter>): seq<PbParameter> {
    seq(|entries|, i requires 0 <= i < |entries| => PbParameter(entries[i].name, entries[i].kind, []))
  }

  function ReadAttributes(entries: seq<PbAttribute>): Option<seq<Attribute>> {
    if exists i :: 0 <= i < |entries| && !GoodKind(entries[i].kind) then None
    else
      var output := seq(|entries|, i requires 0 <= i < |entries| =>
                          Attribute(entries[i].name, NarrowKind(entries[i].kind), entries[i].readOnly));
      if WellNamed(AttributeNames(output)) then Some(output) else None
  }
  function WriteAttributes(entries: seq<Attribute>): seq<PbAttribute> {
    seq(|entries|, i requires 0 <= i < |entries| =>
          PbAttribute(entries[i].name, entries[i].kind, entries[i].readOnly, []))
  }

  predicate ReadableMethod(m: PbMethod) { GoodKind(m.resultKind) && ReadParameters(m.parameters).Some? }
  function MethodOf(m: PbMethod): Method
    requires ReadableMethod(m)
  {
    Method(m.name, ReadParameters(m.parameters).value, NarrowKind(m.resultKind))
  }
  function MethodsOf(entries: seq<PbMethod>): seq<Method>
    requires forall i :: 0 <= i < |entries| ==> ReadableMethod(entries[i])
  {
    seq(|entries|, i requires 0 <= i < |entries| => MethodOf(entries[i]))
  }
  function ReadMethods(entries: seq<PbMethod>): Option<seq<Method>> {
    if (forall i :: 0 <= i < |entries| ==> ReadableMethod(entries[i])) && WellNamed(MethodNames(MethodsOf(entries)))
    then Some(MethodsOf(entries)) else None
  }
  function WriteMethod(m: Method): PbMethod { PbMethod(m.name, WriteParameters(m.parameters), m.resultKind, []) }
  function WriteMethods(entries: seq<Method>): seq<PbMethod> {
    seq(|entries|, i requires 0 <= i < |entries| => WriteMethod(entries[i]))
  }

  function ReadDescription(m: PbDescription): Option<ClassDescription> {
    var constructor_ := ReadParameters(m.constructorParameters);
    var attributes, methods := ReadAttributes(m.attributes), ReadMethods(m.methods);
    if ValidName(m.name) && constructor_.Some? && attributes.Some? && methods.Some?
    then Some(ClassDescription(m.name, attributes.value, methods.value, constructor_.value)) else None
  }
  function WriteDescription(d: ClassDescription): PbDescription {
    PbDescription(d.name, WriteAttributes(d.attributes), WriteMethods(d.methods),
                  WriteParameters(d.constructorParameters), [])
  }

  /** Neighbours neither descend nor repeat. */
  predicate AdjacentIncreasing(names: seq<Bytes>) {
    forall i :: 0 <= i < |names| - 1 ==> !Less(names[i + 1], names[i]) && names[i] != names[i + 1]
  }

  predicate ValidClassesPage(names: seq<Bytes>, next: Bytes) {
    && (forall i :: 0 <= i < |names| ==> ValidName(names[i]))
    && AdjacentIncreasing(names)
    && (next != [] ==> names != [] && next == names[|names| - 1])
  }

  function ReadRecords(entries: seq<PbRecord>, previous: u64): Option<seq<ValueRecord>> {
    if entries == [] then Some([])
    else
      var first := ReadRecord(entries[0]);
      if first.None? || first.value.id <= previous then None
      else
        var rest := ReadRecords(entries[1..], first.value.id);
        if rest.None? then None else Some([first.value] + rest.value)
  }

  function ReadOutcome(m: PbOutcome): Option<Outcome> {
    match m
    case NoOutcome => None
    case PbClasses(names, next, _) => if ValidClassesPage(names, next) then Some(ClassesPage(names, next)) else None
    case PbDescribed(d) =>
      var read := ReadDescription(d);
      if read.Some? then Some(Description(read.value)) else None
    case PbStored(r) =>
      var read := ReadRecord(r);
      if read.Some? then Some(Stored(read.value)) else None
    case PbValues(values, next, _) =>
      var read := ReadRecords(values, 0);
      if read.Some? && (next != 0 ==> read.value != [] && next == read.value[|read.value| - 1].id)
      then Some(ValuesPage(read.value, next)) else None
    case PbSnapshot(id, name, state, _) =>
      var read := ReadNamed(state);
      if id != 0 && ValidName(name) && read.Some? then Some(Snapshot(id, name, read.value)) else None
    case PbReleased(_) => Some(Released)
    case PbResult(v) =>
      var read := ReadValue(Some(v));
      if read.Some? then Some(Result(read.value)) else None
    case PbError(code, message, _) =>
      if INVALID_REQUEST <= code <= NUMERIC_OVERFLOW then Some(Error(code, message)) else None
  }

  function WriteOutcome(o: Outcome): PbOutcome {
    match o
    case ClassesPage(names, next) => PbClasses(names, next, [])
    case Description(d) => PbDescribed(WriteDescription(d))
    case Stored(r) => PbStored(WriteRecord(r))
    case ValuesPage(values, next) => PbValues(WriteRecords(values), next, [])
    case Snapshot(id, name, state) => PbSnapshot(id, name, WriteNamed(state), [])
    case Released => PbReleased([])
    case Result(v) => PbResult(WriteValue(v))
    case Error(code, message) => PbError(code, message, [])
  }

  // ---- envelopes ----------------------------------------------------------------------------

  const FULL_BUDGET := Budget(MAX_MESSAGE_NODES, MAX_UNKNOWN_FIELDS)

  function CheckEnvelope(version: Option<u32>, id: u64, tree: Node): Option<Failure> {
    if id == 0 then Some(Failure(InvalidFields, true, None))
    else if version.None? then Some(Failure(InvalidFields, false, Some(id)))
    else if version.value != VERSION then Some(Failure(UnsupportedVersion, false, Some(id)))
    else
      match CheckMessage(tree, FULL_BUDGET)
      case Exceeds(code) => Some(Failure(code, false, Some(id)))
      case Within(_) => None
  }

  function CheckPacket<M>(p: Packet<M>): Option<Failure> {
    if p.size == 0 || p.size > MAX_PAYLOAD_BYTES then Some(Failure(LimitExceeded, true, None))
    else if p.message.None? then Some(Failure(Malformed, true, None))
    else None
  }

  function DecodeRequest(p: Packet<PbRequest>): Checked<Request> {
    var unusable := CheckPacket(p);
    if unusable.Some? then Rejected(unusable.value)
    else
      var m := p.message.value;
      var invalid := CheckEnvelope(m.version, m.id, RequestNode(m));
      if invalid.Some? then Rejected(invalid.value)
      else
        var body := ReadOperation(m.operation);
        if body.Some? then Ok(Request(m.id, body.value, m.version.value))
        else Rejected(Failure(InvalidFields, false, Some(m.id)))
  }

  function DecodeResponse(p: Packet<PbResponse>): Checked<Response> {
    var unusable := CheckPacket(p);
    if unusable.Some? then Rejected(unusable.value)
    else
      var m := p.message.value;
      var invalid := CheckEnvelope(m.version, m.id, ResponseNode(m));
      if invalid.Some? then Rejected(invalid.value)
      else
        var body := ReadOutcome(m.outcome);
        if body.Some? then Ok(Response(m.id, body.value, m.version.value))
        else Rejected(Failure(InvalidFields, false, Some(m.id)))
  }

  function RequestMessage(r: Request): PbRequest { PbRequest(Some(r.version), r.id, WriteOperation(r.body), []) }
  function ResponseMessage(r: Response): PbResponse { PbResponse(Some(r.version), r.id, WriteOutcome(r.body), []) }

  function EncodeRequest(r: Request): Checked<Packet<PbRequest>> {
    var m := RequestMessage(r);
    var invalid := CheckEnvelope(m.version, m.id, RequestNode(m));
    if invalid.Some? then Rejected(invalid.value)
    else if ReadOperation(m.operation).None? then Rejected(Failure(InvalidFields, false, Some(r.id)))
    else if ByteSize(RequestNode(m)) > MAX_PAYLOAD_BYTES then Rejected(Failure(LimitExceeded, false, Some(r.id)))
    else Ok(Packet(ByteSize(RequestNode(m)), Some(m)))
  }

  function EncodeResponse(r: Response): Checked<Packet<PbResponse>> {
    var m := ResponseMessage(r);
    var invalid := CheckEnvelope(m.version, m.id, ResponseNode(m));
    if invalid.Some? then Rejected(invalid.value)
    else if ReadOutcome(m.outcome).None? then Rejected(Failure(InvalidFields, false, Some(r.id)))
    else if ByteSize(ResponseNode(m)) > MAX_PAYLOAD_BYTES then Rejected(Failure(LimitExceeded, false, Some(r.id)))
    else Ok(Packet(ByteSize(ResponseNode(m)), Some(m)))
  }
}
