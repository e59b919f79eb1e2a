/** The owning values, operations and outcomes shared by every component.
    Text and names are byte strings; a double is its 64-bit pattern. */
module Contracts {
  type byte = x: int | 0 <= x < 0x100
  type u32 = x: int | 0 <= x < 0x1_0000_0000
  type i32 = x: int | -0x8000_0000 <= x < 0x8000_0000
  type u64 = x: int | 0 <= x < 0x1_0000_0000_0000_0000
  type i64 = x: int | -0x8000_0000_0000_0000 <= x < 0x8000_0000_0000_0000
  type Bytes = seq<byte>

  const U64_MAX: u64 := 0xFFFF_FFFF_FFFF_FFFF
  const I64_MAX: i64 := 0x7FFF_FFFF_FFFF_FFFF
  const I64_MIN: i64 := -0x8000_0000_0000_0000

  const VERSION: u32 := 1
  const MAX_PAYLOAD_BYTES := 1024 * 1024
  const MAX_STRING_BYTES := 64 * 1024
  const FRAME_HEADER_BYTES := 4
  const MAX_ENTRIES := 64
  const MAX_NAME_BYTES := 128
  const MAX_RECURSION_DEPTH := 16
  const MAX_MESSAGE_NODES := 4096
  const MAX_UNKNOWN_FIELDS := 128

  datatype Option<+T> = None | Some(value: T)

  // Enumerations keep their raw underlying byte: trusted code may hand over an undeclared code.
  type ErrorCode = byte
  const INVALID_REQUEST: ErrorCode := 1
  const NOT_FOUND: ErrorCode := 2
  const QUOTA_EXCEEDED: ErrorCode := 3
  const TIMEOUT: ErrorCode := 4
  const CANCELLED: ErrorCode := 5
  const ACCESS_DENIED: ErrorCode := 6
  const TRANSPORT_FAILURE: ErrorCode := 7
  const INTERNAL_FAILURE: ErrorCode := 8
  const UNSUPPORTED_VERSION: ErrorCode := 9
  const NUMERIC_OVERFLOW: ErrorCode := 10

  type ValueKind = byte
  const TEXT: ValueKind := 1
  const INTEGER: ValueKind := 2
  const REAL: ValueKind := 3

  datatype Value = Text(text: Bytes) | Integer(integer: i64) | Real(bits: u64)

  datatype NamedValue = NamedValue(name: Bytes, data: Value)
  datatype ValueRecord = ValueRecord(id: u64, data: Value)
  datatype Parameter = Parameter(name: Bytes, kind: ValueKind)
  datatype Attribute = Attribute(name: Bytes, kind: ValueKind, readOnly: bool)
  datatype Method = Method(name: Bytes, parameters: seq<Parameter>, resultKind: ValueKind)
  datatype ClassDescription = ClassDescription(
    name: Bytes,
    attributes: seq<Attribute>,
    methods: seq<Method>,
    constructorParameters: seq<Parameter>)

  datatype Operation =
    | ListClasses(after: Bytes, limit: u32)
    | DescribeClass(name: Bytes)
    | PutValue(data: Value)
    | GetValue(id: u64)
    | ListValues(cursor: u64, limit: u32)
    | CreateObject(className: Bytes, arguments: seq<NamedValue>)
    | GetObject(id: u64)
    | ReleaseObject(id: u64)
    | GetAttribute(id: u64, name: Bytes)
    | InvokeMethod(id: u64, name: Bytes, arguments: seq<NamedValue>)

  datatype Outcome =
    | ClassesPage(names: seq<Bytes>, nextName: Bytes)
    | Description(description: ClassDescription)
    | Stored(record: ValueRecord)
    | ValuesPage(values: seq<ValueRecord>, next: u64)
    | Snapshot(id: u64, className: Bytes, state: seq<NamedValue>)
    | Released
    | Result(value: Value)
    | Error(code: ErrorCode, message: Bytes)

  datatype Request = Request(id: u64, body: Operation, version: u32)
  datatype Response = Response(id: u64, body: Outcome, version: u32)

  /** Codec and framing rejections. */
  datatype FailureCode = Malformed | InvalidFields | UnsupportedVersion | LimitExceeded | Truncated
  datatype Failure = Failure(code: FailureCode, closeSession: bool, requestId: Option<u64>)
  datatype Checked<+T> = Ok(value: T) | Rejected(failure: Failure)

  /** The bytes of an ASCII literal. */
  function Ascii(s: string): (b: Bytes)
    ensures |b| == |s|
    ensures forall i :: 0 <= i < |s| ==> b[i] < 0x80 && (s[i] as int < 0x80 ==> b[i] == s[i] as int)
  {
    seq(|s|, i requires 0 <= i < |s| => if s[i] as int < 0x80 then s[i] as int else 63)
  }

  function Min(a: int, b: int): int { if a <= b then a else b }

  // IEEE-754 binary64 read from the bit pattern: exponent field, fraction field, sign.
  const EXPONENT_UNIT := 0x10_0000_0000_0000
  const SIGN_BIT := 0x8000_0000_0000_0000

  predicate Finite(bits: u64) { bits / EXPONENT_UNIT % 0x800 != 0x7FF }
  predicate IsNan(bits: u64) { !Finite(bits) && bits % EXPONENT_UNIT != 0 }
  predicate IsZero(bits: u64) { bits % SIGN_BIT == 0 }

  /** Floating equality: NaN differs from itself, the two zeros agree. */
  predicate SameReal(a: u64, b: u64) { !IsNan(a) && !IsNan(b) && (a == b || (IsZero(a) && IsZero(b))) }

  /** Structural equality of values, as the variant comparison does it. */
  predicate SameValue(a: Value, b: Value) {
    match (a, b)
    case (Text(s), Text(t)) => s == t
    case (Integer(m), Integer(n)) => m == n
    case (Real(x), Real(y)) => SameReal(x, y)
    case _ => false
  }

  /** Fixed server-side texts; an undeclared code becomes an internal failure. */
  function MakeError(code: ErrorCode): (error: Outcome)
    ensures error.Error? && INVALID_REQUEST <= error.code <= NUMERIC_OVERFLOW
    ensures error.code == if INVALID_REQUEST <= code <= NUMERIC_OVERFLOW then code else INTERNAL_FAILURE
    ensures 0 < |error.message| < 64 && forall i :: 0 <= i < |error.message| ==> error.message[i] < 0x80
  {
    if code == INVALID_REQUEST then Error(code, Ascii("Invalid request"))
    else if code == NOT_FOUND then Error(code, Ascii("Resource not found"))
    else if code == QUOTA_EXCEEDED then Error(code, Ascii("Resource limit exceeded"))
    else if code == TIMEOUT then Error(code, Ascii("Operation timed out"))
    else if code == CANCELLED then Error(code, Ascii("Operation cancelled"))
    else if code == ACCESS_DENIED then Error(code, Ascii("Session access denied"))
    else if code == TRANSPORT_FAILURE then Error(code, Ascii("Transport failure"))
    else if code == UNSUPPORTED_VERSION then Error(code, Ascii("Unsupported protocol version"))
    else if code == NUMERIC_OVERFLOW then Error(code, Ascii("Numeric overflow"))
    else Error(INTERNAL_FAILURE, Ascii("Internal failure"))
  }
}
