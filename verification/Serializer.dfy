/** The proto3 encoding of what the codec writes, as bytes: its length is the computed size and it is
    injective, so there is a message library of the kind the byte system expects. Follows "Base 128
    Varints", "Length-Delimited Records" and "More Integer Types" of the Protocol Buffers encoding
    guide, with the field numbers of the schema. */
module Serializer {
  import opened Contracts
  import opened Messages
  import opened Codec
  import opened CodecTheorems
  import opened Replies
  import opened ByteSystems

  // ---- fields -------------------------------------------------------------------------------

  datatype Item = Num(tag: nat, value: nat) | Fix(tag: nat, bits: u64) | Blob(tag: nat, bytes: Bytes)

  function Varint(n: nat): (bytes: Bytes)
    ensures |bytes| == VarintSize(n)
  {
    if n < 128 then [n] else [128 + n % 128] + Varint(n / 128)
  }

  function Power(k: nat): nat { if k == 0 then 1 else 256 * Power(k - 1) }

  function Little(n: nat, k: nat): (bytes: Bytes)
    ensures |bytes| == k
  {
    if k == 0 then [] else [n % 256] + Little(n / 256, k - 1)
  }

  function ItemBytes(x: Item): Bytes {
    match x
    case Num(tag, value) => Varint(8 * tag) + Varint(value)
    case Fix(tag, bits) => Varint(8 * tag + 1) + Little(bits, 8)
    case Blob(tag, bytes) => Varint(8 * tag + 2) + Varint(|bytes|) + bytes
  }

  function Serialized(items: seq<Item>): Bytes {
    if items == [] then [] else ItemBytes(items[0]) + Serialized(items[1..])
  }

  lemma {:induction false} VarintPrefix(n: nat, m: nat, s: Bytes, t: Bytes)
    requires Varint(n) + s == Varint(m) + t
    ensures n == m && s == t
  {
    var a, b := Varint(n) + s, Varint(m) + t;
    assert a[0] == Varint(n)[0] && b[0] == Varint(m)[0];
    if n < 128 {
      assert m < 128;
      assert s == a[1..] && t == b[1..];
    } else {
      assert m >= 128;
      assert Varint(n / 128) + s == a[1..] && Varint(m / 128) + t == b[1..];
      VarintPrefix(n / 128, m / 128, s, t);
    }
  }

  lemma {:induction false} LittlePrefix(n: nat, m: nat, k: nat, s: Bytes, t: Bytes)
    requires Little(n, k) + s == Little(m, k) + t && n < Power(k) && m < Power(k)
    ensures n == m && s == t
    decreases k
  {
    var a, b := Little(n, k) + s, Little(m, k) + t;
    if k == 0 {
      assert s == a && t == b;
    } else {
      assert a[0] == n % 256 && b[0] == m % 256;
      assert Little(n / 256, k - 1) + s == a[1..] && Little(m / 256, k - 1) + t == b[1..];
      LittlePrefix(n / 256, m / 256, k - 1, s, t);
    }
  }

  /** The number a row of bytes denotes, least significant byte first. */
  function Denoted(bytes: Bytes): nat { if bytes == [] then 0 else bytes[0] + 256 * Denoted(bytes[1..]) }

  lemma {:induction false} LittleDenotes(n: nat, k: nat)
    requires n < Power(k)
    ensures Denoted(Little(n, k)) == n
  {
    if k > 0 {
      LittleDenotes(n / 256, k - 1);
      assert Little(n, k)[1..] == Little(n / 256, k - 1);
    }
  }

  lemma U64Fits(bits: u64)
    ensures bits < Power(8)
  {
    assert Power(8) == 256 * 256 * 256 * 256 * 256 * 256 * 256 * 256;
  }

  function Key(x: Item): nat { 8 * x.tag + if x.Num? then 0 else if x.Fix? then 1 else 2 }
  function Rest(x: Item): Bytes {
    match x
    case Num(_, value) => Varint(value)
    case Fix(_, bits) => Little(bits, 8)
    case Blob(_, bytes) => Varint(|bytes|) + bytes
  }

  lemma ItemParts(x: Item)
    ensures ItemBytes(x) == Varint(Key(x)) + Rest(x)
  {
    hide Varint, Little;
  }

  /** A field ends where its own bytes say. */
  lemma ItemPrefix(x: Item, y: Item, s: Bytes, t: Bytes)
    requires ItemBytes(x) + s == ItemBytes(y) + t
    ensures x == y && s == t
  {
    hide Varint, Little, Power;
    ItemParts(x);
    ItemParts(y);
    assert ItemBytes(x) + s == Varint(Key(x)) + (Rest(x) + s);
    assert ItemBytes(y) + t == Varint(Key(y)) + (Rest(y) + t);
    VarintPrefix(Key(x), Key(y), Rest(x) + s, Rest(y) + t);
    match x {
      case Num(_, value) => VarintPrefix(value, y.value, s, t);
      case Fix(_, bits) =>
        U64Fits(bits);
        U64Fits(y.bits);
        LittlePrefix(bits, y.bits, 8, s, t);
      case Blob(_, bytes) => DelimitedPrefix(bytes, y.bytes, s, t);
    }
  }

  lemma DelimitedPrefix(a: Bytes, b: Bytes, s: Bytes, t: Bytes)
    requires Varint(|a|) + a + s == Varint(|b|) + b + t
    ensures a == b && s == t
  {
    hide Varint;
    Associative(Varint(|a|), a, s);
    Associative(Varint(|b|), b, t);
    VarintPrefix(|a|, |b|, a + s, b + t);
    SameSplit(a, s, b, t);
  }

  lemma Associative(a: Bytes, b: Bytes, c: Bytes)
    ensures a + b + c == a + (b + c)
  {
  }

  lemma SameSplit(a: Bytes, s: Bytes, b: Bytes, t: Bytes)
    requires |a| == |b| && a + s == b + t
    ensures a == b && s == t
  {
    assert a == (a + s)[..|a|] && s == (a + s)[|a|..];
    assert b == (b + t)[..|a|] && t == (b + t)[|a|..];
  }

  lemma ItemIsNotEmpty(x: Item)
    ensures ItemBytes(x) != []
  {
    hide Varint, Little;
    ItemParts(x);
  }

  /** Different field lists have different bytes. */
  lemma {:induction false} SerializedInjective(a: seq<Item>, b: seq<Item>)
    requires Serialized(a) == Serialized(b)
    ensures a == b
  {
    hide ItemBytes;
    if a == [] {
      if b != [] {
        ItemIsNotEmpty(b[0]);
      }
    } else if b == [] {
      ItemIsNotEmpty(a[0]);
    } else {
      ItemPrefix(a[0], b[0], Serialized(a[1..]), Serialized(b[1..]));
      SerializedInjective(a[1..], b[1..]);
      assert a == [a[0]] + a[1..] && b == [b[0]] + b[1..];
    }
  }

  lemma {:induction false} SerializedConcat(a: seq<Item>, b: seq<Item>)
    ensures |Serialized(a + b)| == |Serialized(a)| + |Serialized(b)|
  {
    hide ItemBytes;
    if a == [] {
      assert a + b == b;
    } else {
      SerializedConcat(a[1..], b);
      assert (a + b)[1..] == a[1..] + b;
    }
  }

  // ---- groups of fields with one number -----------------------------------------------------

  function Str(tag: nat, text: Bytes): seq<Item> { if text == [] then [] else [Blob(tag, text)] }
  function Uint(tag: nat, n: nat): seq<Item> { if n == 0 then [] else [Num(tag, n)] }
  function Rep(tag: nat, blobs: seq<Bytes>): seq<Item> {
    seq(|blobs|, i requires 0 <= i < |blobs| => Blob(tag, blobs[i]))
  }

  predicate Has(items: seq<Item>, tag: nat) { exists i :: 0 <= i < |items| && items[i].tag == tag }
  predicate All(items: seq<Item>, tag: nat) { forall i :: 0 <= i < |items| ==> items[i].tag == tag }

  function Lead(items: seq<Item>, tag: nat): nat {
    if items == [] || items[0].tag != tag then 0 else 1 + Lead(items[1..], tag)
  }

  lemma {:induction false} LeadIs(a: seq<Item>, rest: seq<Item>, tag: nat)
    requires All(a, tag) && !Has(rest, tag)
    ensures Lead(a + rest, tag) == |a|
  {
    if a == [] {
      assert a + rest == rest;
    } else {
      LeadIs(a[1..], rest, tag);
      assert (a + rest)[1..] == a[1..] + rest;
    }
  }

  /** The leading group of one number is determined by the whole. */
  lemma HeadGroup(a: seq<Item>, rest: seq<Item>, b: seq<Item>, more: seq<Item>, tag: nat)
    requires All(a, tag) && All(b, tag) && !Has(rest, tag) && !Has(more, tag) && a + rest == b + more
    ensures a == b && rest == more
  {
    LeadIs(a, rest, tag);
    LeadIs(b, more, tag);
    assert a == (a + rest)[..|a|] && b == (b + more)[..|a|];
    assert rest == (a + rest)[|a|..] && more == (b + more)[|a|..];
  }

  lemma RepInjective(tag: nat, a: seq<Bytes>, b: seq<Bytes>)
    requires Rep(tag, a) == Rep(tag, b)
    ensures a == b
  {
    assert |a| == |Rep(tag, a)| && |b| == |Rep(tag, b)|;
    forall i | 0 <= i < |a| ensures a[i] == b[i] {
      assert Rep(tag, a)[i] == Blob(tag, a[i]) && Rep(tag, b)[i] == Blob(tag, b[i]);
    }
  }

  lemma KeySize(tag: nat, kind: nat)
    requires kind < 8 && 1 <= tag < 2048
    ensures VarintSize(8 * tag + kind) == if tag < 16 then 1 else 2
  {
  }

  lemma NoItems()
    ensures Serialized([]) == []
  {
  }

  lemma OneItem(x: Item)
    ensures Serialized([x]) == ItemBytes(x)
  {
    hide ItemBytes;
    NoItems();
    assert [x][1..] == [];
  }

  lemma StrSize(tag: nat, text: Bytes)
    requires 1 <= tag < 16
    ensures |Serialized(Str(tag, text))| == TextBytes(1, [text], true) == FieldBytes(Texts(1, [text], true))
  {
    hide Varint, Serialized;
    NoItems();
    OneItem(Blob(tag, text));
    KeySize(tag, 2);
  }

  lemma UintSize(tag: nat, n: nat)
    requires 1 <= tag < 16
    ensures |Serialized(Uint(tag, n))| == UintBytes(n) == FieldBytes(Scalar(UintBytes(n)))
  {
    hide Varint, Serialized;
    NoItems();
    OneItem(Num(tag, n));
    KeySize(tag, 0);
  }

  /** A submessage costs its field number, its length and its own size. */
  lemma BlobSize(tag: nat, bytes: Bytes)
    requires 1 <= tag < 2048
    ensures |Serialized([Blob(tag, bytes)])| == (if tag < 16 then 1 else 2) + VarintSize(|bytes|) + |bytes|
  {
    hide Varint, Serialized;
    OneItem(Blob(tag, bytes));
    KeySize(tag, 2);
  }

  lemma {:induction false} RepSize(tag: nat, blobs: seq<Bytes>, nodes: seq<Node>)
    requires 1 <= tag < 16 && |blobs| == |nodes|
    requires forall i :: 0 <= i < |blobs| ==> |blobs[i]| == ByteSize(nodes[i])
    ensures |Serialized(Rep(tag, blobs))| == ChildrenBytes(1, nodes)
    decreases |blobs|
  {
    hide Varint, Serialized, ByteSize;
    if blobs == [] {
      NoItems();
    } else {
      RepSize(tag, blobs[1..], nodes[1..]);
      assert Rep(tag, blobs) == [Blob(tag, blobs[0])] + Rep(tag, blobs[1..]);
      SerializedConcat([Blob(tag, blobs[0])], Rep(tag, blobs[1..]));
      BlobSize(tag, blobs[0]);
    }
  }

  lemma {:induction false} RepTextSize(tag: nat, texts: seq<Bytes>)
    requires 1 <= tag < 16
    ensures |Serialized(Rep(tag, texts))| == TextBytes(1, texts, false)
    decreases |texts|
  {
    hide Varint, Serialized;
    if texts == [] {
      NoItems();
    } else {
      RepTextSize(tag, texts[1..]);
      assert Rep(tag, texts) == [Blob(tag, texts[0])] + Rep(tag, texts[1..]);
      SerializedConcat([Blob(tag, texts[0])], Rep(tag, texts[1..]));
      BlobSize(tag, texts[0]);
    }
  }

  // ---- messages -----------------------------------------------------------------------------

  function ValueItems(v: Value): seq<Item> {
    match v
    case Text(t) => [Blob(1, t)]
    case Integer(i) => [Num(2, ZigZag(i))]
    case Real(bits) => [Fix(3, bits)]
  }
  function NamedItems(n: NamedValue): seq<Item> { Str(1, n.name) + [Blob(2, Serialized(ValueItems(n.data)))] }
  function RecordItems(r: ValueRecord): seq<Item> { Uint(1, r.id) + [Blob(2, Serialized(ValueItems(r.data)))] }
  function ParameterItems(p: Parameter): seq<Item> { Str(1, p.name) + Uint(2, p.kind) }
  function AttributeItems(a: Attribute): seq<Item> {
    Str(1, a.name) + (Uint(2, a.kind) + Uint(3, if a.readOnly then 1 else 0))
  }

  function Named(s: seq<NamedValue>): seq<Bytes> { seq(|s|, i requires 0 <= i < |s| => Serialized(NamedItems(s[i]))) }
  function Records(s: seq<ValueRecord>): seq<Bytes> { seq(|s|, i requires 0 <= i < |s| => Serialized(RecordItems(s[i]))) }
  function Parameters(s: seq<Parameter>): seq<Bytes> {
    seq(|s|, i requires 0 <= i < |s| => Serialized(ParameterItems(s[i])))
  }
  function Attributes(s: seq<Attribute>): seq<Bytes> {
    seq(|s|, i requires 0 <= i < |s| => Serialized(AttributeItems(s[i])))
  }

  function MethodItems(m: Method): seq<Item> {
    Str(1, m.name) + (Rep(2, Parameters(m.parameters)) + Uint(3, m.resultKind))
  }
  function Methods(s: seq<Method>): seq<Bytes> { seq(|s|, i requires 0 <= i < |s| => Serialized(MethodItems(s[i]))) }

  function DescriptionItems(d: ClassDescription): seq<Item> {
    Str(1, d.name)
    + (Rep(2, Attributes(d.attributes)) + (Rep(3, Methods(d.methods)) + Rep(4, Parameters(d.constructorParameters))))
  }

  lemma ValueInjective(a: Value, b: Value)
    requires ValueItems(a) == ValueItems(b)
    ensures a == b
  {
    assert ValueItems(a)[0] == ValueItems(b)[0];
  }

  lemma ValueBytesInjective(a: Value, b: Value)
    requires Serialized(ValueItems(a)) == Serialized(ValueItems(b))
    ensures a == b
  {
    SerializedInjective(ValueItems(a), ValueItems(b));
    ValueInjective(a, b);
  }

  lemma StrInjective(tag: nat, a: Bytes, b: Bytes)
    requires Str(tag, a) == Str(tag, b)
    ensures a == b
  {
    if a != [] && b != [] {
      assert Str(tag, a)[0] == Str(tag, b)[0];
    }
  }

  lemma UintInjective(tag: nat, a: nat, b: nat)
    requires Uint(tag, a) == Uint(tag, b)
    ensures a == b
  {
    if a != 0 && b != 0 {
      assert Uint(tag, a)[0] == Uint(tag, b)[0];
    }
  }

  lemma NamedInjective(a: NamedValue, b: NamedValue)
    requires Serialized(NamedItems(a)) == Serialized(NamedItems(b))
    ensures a == b
  {
    hide Serialized, ValueItems;
    SerializedInjective(NamedItems(a), NamedItems(b));
    var x, y := Blob(2, Serialized(ValueItems(a.data))), Blob(2, Serialized(ValueItems(b.data)));
    HeadGroup(Str(1, a.name), [x], Str(1, b.name), [y], 1);
    StrInjective(1, a.name, b.name);
    assert [x][0] == [y][0];
    ValueBytesInjective(a.data, b.data);
  }

  lemma RecordInjective(a: ValueRecord, b: ValueRecord)
    requires Serialized(RecordItems(a)) == Serialized(RecordItems(b))
    ensures a == b
  {
    hide Serialized, ValueItems;
    SerializedInjective(RecordItems(a), RecordItems(b));
    var x, y := Blob(2, Serialized(ValueItems(a.data))), Blob(2, Serialized(ValueItems(b.data)));
    HeadGroup(Uint(1, a.id), [x], Uint(1, b.id), [y], 1);
    UintInjective(1, a.id, b.id);
    assert [x][0] == [y][0];
    ValueBytesInjective(a.data, b.data);
  }

  lemma ParameterInjective(a: Parameter, b: Parameter)
    requires Serialized(ParameterItems(a)) == Serialized(ParameterItems(b))
    ensures a == b
  {
    hide Serialized;
    SerializedInjective(ParameterItems(a), ParameterItems(b));
    HeadGroup(Str(1, a.name), Uint(2, a.kind), Str(1, b.name), Uint(2, b.kind), 1);
    StrInjective(1, a.name, b.name);
    UintInjective(2, a.kind, b.kind);
  }

  lemma AttributeInjective(a: Attribute, b: Attribute)
    requires Serialized(AttributeItems(a)) == Serialized(AttributeItems(b))
    ensures a == b
  {
    hide Serialized;
    SerializedInjective(AttributeItems(a), AttributeItems(b));
    var x, y := Uint(3, if a.readOnly then 1 else 0), Uint(3, if b.readOnly then 1 else 0);
    HeadGroup(Str(1, a.name), Uint(2, a.kind) + x, Str(1, b.name), Uint(2, b.kind) + y, 1);
    HeadGroup(Uint(2, a.kind), x, Uint(2, b.kind), y, 2);
    StrInjective(1, a.name, b.name);
    UintInjective(2, a.kind, b.kind);
    UintInjective(3, if a.readOnly then 1 else 0, if b.readOnly then 1 else 0);
  }

  lemma NamedListInjective(a: seq<NamedValue>, b: seq<NamedValue>)
    requires Named(a) == Named(b)
    ensures a == b
  {
    hide Serialized, NamedItems;
    assert |a| == |Named(a)| && |b| == |Named(b)|;
    forall i | 0 <= i < |a| ensures a[i] == b[i] {
      assert Named(a)[i] == Named(b)[i];
      NamedInjective(a[i], b[i]);
    }
  }

  lemma RecordListInjective(a: seq<ValueRecord>, b: seq<ValueRecord>)
    requires Records(a) == Records(b)
    ensures a == b
  {
    hide Serialized, RecordItems;
    assert |a| == |Records(a)| && |b| == |Records(b)|;
    forall i | 0 <= i < |a| ensures a[i] == b[i] {
      assert Records(a)[i] == Records(b)[i];
      RecordInjective(a[i], b[i]);
    }
  }

  lemma ParameterListInjective(a: seq<Parameter>, b: seq<Parameter>)
    requires Parameters(a) == Parameters(b)
    ensures a == b
  {
    hide Serialized, ParameterItems;
    assert |a| == |Parameters(a)| && |b| == |Parameters(b)|;
    forall i | 0 <= i < |a| ensures a[i] == b[i] {
      assert Parameters(a)[i] == Parameters(b)[i];
      ParameterInjective(a[i], b[i]);
    }
  }

  lemma AttributeListInjective(a: seq<Attribute>, b: seq<Attribute>)
    requires Attributes(a) == Attributes(b)
    ensures a == b
  {
    hide Serialized, AttributeItems;
    assert |a| == |Attributes(a)| && |b| == |Attributes(b)|;
    forall i | 0 <= i < |a| ensures a[i] == b[i] {
      assert Attributes(a)[i] == Attributes(b)[i];
      AttributeInjective(a[i], b[i]);
    }
  }

  lemma MethodInjective(a: Method, b: Method)
    requires Serialized(MethodItems(a)) == Serialized(MethodItems(b))
    ensures a == b
  {
    hide Serialized, Parameters;
    SerializedInjective(MethodItems(a), MethodItems(b));
    var p, q := Rep(2, Parameters(a.parameters)), Rep(2, Parameters(b.parameters));
    var x, y := Uint(3, a.resultKind), Uint(3, b.resultKind);
    HeadGroup(Str(1, a.name), p + x, Str(1, b.name), q + y, 1);
    HeadGroup(p, x, q, y, 2);
    StrInjective(1, a.name, b.name);
    RepInjective(2, Parameters(a.parameters), Parameters(b.parameters));
    ParameterListInjective(a.parameters, b.parameters);
    UintInjective(3, a.resultKind, b.resultKind);
  }

  lemma MethodListInjective(a: seq<Method>, b: seq<Method>)
    requires Methods(a) == Methods(b)
    ensures a == b
  {
    hide Serialized, MethodItems;
    assert |a| == |Methods(a)| && |b| == |Methods(b)|;
    forall i | 0 <= i < |a| ensures a[i] == b[i] {
      assert Methods(a)[i] == Methods(b)[i];
      MethodInjective(a[i], b[i]);
    }
  }

  lemma DescriptionInjective(a: ClassDescription, b: ClassDescription)
    requires DescriptionItems(a) == DescriptionItems(b)
    ensures a == b
  {
    hide Serialized, Parameters, Attributes, Methods;
    var a2, b2 := Rep(2, Attributes(a.attributes)), Rep(2, Attributes(b.attributes));
    var a3, b3 := Rep(3, Methods(a.methods)), Rep(3, Methods(b.methods));
    var a4, b4 := Rep(4, Parameters(a.constructorParameters)), Rep(4, Parameters(b.constructorParameters));
    HeadGroup(Str(1, a.name), a2 + (a3 + a4), Str(1, b.name), b2 + (b3 + b4), 1);
    HeadGroup(a2, a3 + a4, b2, b3 + b4, 2);
    HeadGroup(a3, a4, b3, b4, 3);
    StrInjective(1, a.name, b.name);
    RepInjective(2, Attributes(a.attributes), Attributes(b.attributes));
    RepInjective(3, Methods(a.methods), Methods(b.methods));
    RepInjective(4, Parameters(a.constructorParameters), Parameters(b.constructorParameters));
    AttributeListInjective(a.attributes, b.attributes);
    MethodListInjective(a.methods, b.methods);
    ParameterListInjective(a.constructorParameters, b.constructorParameters);
  }

  // ---- reading by field number --------------------------------------------------------------

  /** The fields a message carries under one number, in order: what a reader that knows the schema
      looks up. */
  function Under(items: seq<Item>, tag: nat): seq<Item> {
    if items == [] then [] else Kept(items[0], tag) + Under(items[1..], tag)
  }
  function Kept(x: Item, tag: nat): seq<Item> { if x.tag == tag then [x] else [] }

  lemma {:induction false} UnderConcat(a: seq<Item>, b: seq<Item>, tag: nat)
    ensures Under(a + b, tag) == Under(a, tag) + Under(b, tag)
  {
    hide Kept;
    if a == [] {
      assert a + b == b;
    } else {
      UnderConcat(a[1..], b, tag);
      assert (a + b)[0] == a[0] && (a + b)[1..] == a[1..] + b;
      assert Under(a + b, tag) == Kept(a[0], tag) + (Under(a[1..], tag) + Under(b, tag));
    }
  }

  /** A group of one number is found under it, and nothing of it under another. */
  lemma {:induction false} UnderGroup(group: seq<Item>, own: nat, tag: nat)
    requires All(group, own)
    ensures Under(group, tag) == if tag == own then group else []
  {
    if group != [] {
      UnderGroup(group[1..], own, tag);
      assert group == [group[0]] + group[1..];
    }
  }

  lemma UnderTwo(a: seq<Item>, i: nat, b: seq<Item>, j: nat)
    requires All(a, i) && All(b, j) && i != j
    ensures Under(a + b, i) == a && Under(a + b, j) == b
  {
    hide Under;
    UnderConcat(a, b, i);
    UnderConcat(a, b, j);
    UnderGroup(a, i, i);
    UnderGroup(a, i, j);
    UnderGroup(b, j, i);
    UnderGroup(b, j, j);
  }

  lemma UnderThree(a: seq<Item>, i: nat, b: seq<Item>, j: nat, c: seq<Item>, k: nat)
    requires All(a, i) && All(b, j) && All(c, k) && i != j && j != k && i != k
    ensures var all := a + (b + c); Under(all, i) == a && Under(all, j) == b && Under(all, k) == c
  {
    hide Under;
    forall tag | tag in {i, j, k} ensures Under(a + (b + c), tag) == Under(a, tag) + (Under(b, tag) + Under(c, tag)) {
      UnderConcat(a, b + c, tag);
      UnderConcat(b, c, tag);
    }
    forall tag | tag in {i, j, k}
      ensures Under(a, tag) == if tag == i then a else []
      ensures Under(b, tag) == if tag == j then b else []
      ensures Under(c, tag) == if tag == k then c else []
    {
      UnderGroup(a, i, tag);
      UnderGroup(b, j, tag);
      UnderGroup(c, k, tag);
    }
  }

  // ---- requests -----------------------------------------------------------------------------

  function OperationTag(op: Operation): nat {
    match op
    case ListClasses(_, _) => 10
    case DescribeClass(_) => 11
    case PutValue(_) => 12
    case GetValue(_) => 13
    case ListValues(_, _) => 14
    case CreateObject(_, _) => 15
    case GetObject(_) => 16
    case ReleaseObject(_) => 17
    case GetAttribute(_, _) => 18
    case InvokeMethod(_, _, _) => 19
  }

  function OperationItems(op: Operation): seq<Item> {
    match op
    case ListClasses(after, limit) => Str(1, after) + Uint(2, limit)
    case DescribeClass(name) => Str(1, name)
    case PutValue(data) => [Blob(1, Serialized(ValueItems(data)))]
    case GetValue(id) => Uint(1, id)
    case ListValues(cursor, limit) => Uint(1, cursor) + Uint(2, limit)
    case CreateObject(name, arguments) => Str(1, name) + Rep(2, Named(arguments))
    case GetObject(id) => Uint(1, id)
    case ReleaseObject(id) => Uint(1, id)
    case GetAttribute(id, name) => Uint(1, id) + Str(2, name)
    case InvokeMethod(id, name, arguments) => Uint(1, id) + (Str(2, name) + Rep(3, Named(arguments)))
  }

  function EnvelopeItems(version: u32, id: u64, tag: nat, body: Bytes): seq<Item> {
    [Num(1, version)] + (Uint(2, id) + [Blob(tag, body)])
  }

  function RequestWire(r: Request): Bytes {
    Serialized(EnvelopeItems(r.version, r.id, OperationTag(r.body), Serialized(OperationItems(r.body))))
  }

  lemma OperationInjective(a: Operation, b: Operation)
    requires OperationTag(a) == OperationTag(b) && OperationItems(a) == OperationItems(b)
    ensures a == b
  {
    hide Serialized, ValueItems, Named;
    match a {
      case ListClasses(after, limit) =>
        HeadGroup(Str(1, after), Uint(2, limit), Str(1, b.after), Uint(2, b.limit), 1);
        StrInjective(1, after, b.after);
        UintInjective(2, limit, b.limit);
      case DescribeClass(name) => StrInjective(1, name, b.name);
      case PutValue(data) =>
        assert OperationItems(a)[0] == OperationItems(b)[0];
        ValueBytesInjective(data, b.data);
      case ListValues(cursor, limit) =>
        HeadGroup(Uint(1, cursor), Uint(2, limit), Uint(1, b.cursor), Uint(2, b.limit), 1);
        UintInjective(1, cursor, b.cursor);
        UintInjective(2, limit, b.limit);
      case CreateObject(name, arguments) => CreationInjective(name, arguments, b.className, b.arguments);
      case GetAttribute(id, name) =>
        HeadGroup(Uint(1, id), Str(2, name), Uint(1, b.id), Str(2, b.name), 1);
        UintInjective(1, id, b.id);
        StrInjective(2, name, b.name);
      case InvokeMethod(id, name, arguments) => NamedPartsInjective(id, name, arguments, b.id, b.name, b.arguments);
      case _ => UintInjective(1, a.id, b.id);
    }
  }

  lemma CreationInjective(name: Bytes, arguments: seq<NamedValue>, other: Bytes, more: seq<NamedValue>)
    requires Str(1, name) + Rep(2, Named(arguments)) == Str(1, other) + Rep(2, Named(more))
    ensures name == other && arguments == more
  {
    hide Named;
    HeadGroup(Str(1, name), Rep(2, Named(arguments)), Str(1, other), Rep(2, Named(more)), 1);
    StrInjective(1, name, other);
    RepInjective(2, Named(arguments), Named(more));
    NamedListInjective(arguments, more);
  }

  /** An ID, a name and named values: an invocation or a snapshot. */
  lemma NamedPartsInjective(id: u64, name: Bytes, entries: seq<NamedValue>,
                            other: u64, word: Bytes, more: seq<NamedValue>)
    requires Uint(1, id) + (Str(2, name) + Rep(3, Named(entries)))
             == Uint(1, other) + (Str(2, word) + Rep(3, Named(more)))
    ensures id == other && name == word && entries == more
  {
    hide Named;
    var x, y := Rep(3, Named(entries)), Rep(3, Named(more));
    HeadGroup(Uint(1, id), Str(2, name) + x, Uint(1, other), Str(2, word) + y, 1);
    HeadGroup(Str(2, name), x, Str(2, word), y, 2);
    UintInjective(1, id, other);
    StrInjective(2, name, word);
    RepInjective(3, Named(entries), Named(more));
    NamedListInjective(entries, more);
  }

  // ---- responses ----------------------------------------------------------------------------

  function OutcomeTag(o: Outcome): nat {
    match o
    case ClassesPage(_, _) => 10
    case Description(_) => 11
    case Stored(_) => 12
    case ValuesPage(_, _) => 13
    case Snapshot(_, _, _) => 14
    case Released => 15
    case Result(_) => 16
    case Error(_, _) => 17
  }

  function OutcomeItems(o: Outcome): seq<Item> {
    match o
    case ClassesPage(names, next) => Rep(1, names) + Str(2, next)
    case Description(d) => DescriptionItems(d)
    case Stored(r) => RecordItems(r)
    case ValuesPage(values, next) => Rep(1, Records(values)) + Uint(2, next)
    case Snapshot(id, name, state) => Uint(1, id) + (Str(2, name) + Rep(3, Named(state)))
    case Released => []
    case Result(v) => ValueItems(v)
    case Error(code, message) => Uint(1, code) + Str(2, message)
  }

  function ResponseWire(r: Response): Bytes {
    Serialized(EnvelopeItems(r.version, r.id, OutcomeTag(r.body), Serialized(OutcomeItems(r.body))))
  }

  lemma OutcomeInjective(a: Outcome, b: Outcome)
    requires OutcomeTag(a) == OutcomeTag(b) && OutcomeItems(a) == OutcomeItems(b)
    ensures a == b
  {
    hide Serialized, ValueItems, Named, Records, DescriptionItems, RecordItems;
    match a {
      case ClassesPage(names, next) =>
        HeadGroup(Rep(1, names), Str(2, next), Rep(1, b.names), Str(2, b.nextName), 1);
        RepInjective(1, names, b.names);
        StrInjective(2, next, b.nextName);
      case Description(d) => DescriptionInjective(d, b.description);
      case Stored(r) => RecordInjective(r, b.record);
      case ValuesPage(values, next) =>
        HeadGroup(Rep(1, Records(values)), Uint(2, next), Rep(1, Records(b.values)), Uint(2, b.next), 1);
        RepInjective(1, Records(values), Records(b.values));
        RecordListInjective(values, b.values);
        UintInjective(2, next, b.next);
      case Snapshot(id, name, state) => NamedPartsInjective(id, name, state, b.id, b.className, b.state);
      case Released =>
      case Result(v) => ValueInjective(v, b.value);
      case Error(code, message) =>
        HeadGroup(Uint(1, code), Str(2, message), Uint(1, b.code), Str(2, b.message), 1);
        UintInjective(1, code, b.code);
        StrInjective(2, message, b.message);
    }
  }

  // ---- the schema ---------------------------------------------------------------------------

  /** A singular field as a proto3 reader takes it: the last one under its number, or the default. */
  function TextAt(items: seq<Item>, tag: nat): Bytes {
    var found := Under(items, tag);
    if found != [] && found[|found| - 1].Blob? then found[|found| - 1].bytes else []
  }
  function NumberAt(items: seq<Item>, tag: nat): nat {
    var found := Under(items, tag);
    if found != [] && found[|found| - 1].Num? then found[|found| - 1].value else 0
  }

  lemma ReadOne(x: Item)
    ensures Under([x], x.tag) == [x]
  {
    UnderGroup([x], x.tag, x.tag);
  }

  /** A value is one field: its bytes, its zigzag number or its bit pattern. */
  lemma ValueFollowsSchema(v: Value)
    ensures match v
            case Text(t) => Under(ValueItems(v), 1) == [Blob(1, t)]
            case Integer(i) => Under(ValueItems(v), 2) == [Num(2, if i < 0 then -2 * i - 1 else 2 * i)]
            case Real(bits) => Under(ValueItems(v), 3) == [Fix(3, bits)]
  {
    hide Under;
    ReadOne(ValueItems(v)[0]);
  }

  /** Each part is found under the number the schema gives it. */
  lemma NamedFollowsSchema(n: NamedValue)
    ensures TextAt(NamedItems(n), 1) == n.name && TextAt(NamedItems(n), 2) == Serialized(ValueItems(n.data))
  {
    hide Under, Serialized;
    UnderTwo(Str(1, n.name), 1, [Blob(2, Serialized(ValueItems(n.data)))], 2);
  }

  lemma RecordFollowsSchema(r: ValueRecord)
    ensures NumberAt(RecordItems(r), 1) == r.id && TextAt(RecordItems(r), 2) == Serialized(ValueItems(r.data))
  {
    hide Under, Serialized;
    UnderTwo(Uint(1, r.id), 1, [Blob(2, Serialized(ValueItems(r.data)))], 2);
  }

  lemma ParameterFollowsSchema(p: Parameter)
    ensures TextAt(ParameterItems(p), 1) == p.name && NumberAt(ParameterItems(p), 2) == p.kind
  {
    hide Under;
    UnderTwo(Str(1, p.name), 1, Uint(2, p.kind), 2);
  }

  lemma AttributeFollowsSchema(a: Attribute)
    ensures var items := AttributeItems(a);
            TextAt(items, 1) == a.name && NumberAt(items, 2) == a.kind && (NumberAt(items, 3) == 1 <==> a.readOnly)
  {
    hide Under;
    UnderThree(Str(1, a.name), 1, Uint(2, a.kind), 2, Uint(3, if a.readOnly then 1 else 0), 3);
  }

  lemma MethodFollowsSchema(m: Method)
    ensures var items := MethodItems(m);
            && TextAt(items, 1) == m.name && Under(items, 2) == Rep(2, Parameters(m.parameters))
            && NumberAt(items, 3) == m.resultKind
  {
    hide Under, Parameters;
    UnderThree(Str(1, m.name), 1, Rep(2, Parameters(m.parameters)), 2, Uint(3, m.resultKind), 3);
  }

  lemma DescriptionFollowsSchema(d: ClassDescription)
    ensures var items := DescriptionItems(d);
            && TextAt(items, 1) == d.name
            && Under(items, 2) == Rep(2, Attributes(d.attributes))
            && Under(items, 3) == Rep(3, Methods(d.methods))
            && Under(items, 4) == Rep(4, Parameters(d.constructorParameters))
  {
    hide Under, Parameters, Attributes, Methods;
    var a, b := Str(1, d.name), Rep(2, Attributes(d.attributes));
    var c, e := Rep(3, Methods(d.methods)), Rep(4, Parameters(d.constructorParameters));
    forall tag: nat ensures Under(a + (b + (c + e)), tag) == Under(a, tag) + Under(b + (c + e), tag) {
      UnderConcat(a, b + (c + e), tag);
    }
    UnderConcat(b, c + e, 1);
    UnderConcat(c, e, 1);
    UnderThree(b, 2, c, 3, e, 4);
    forall tag: nat ensures Under(a, tag) == if tag == 1 then a else [] {
      UnderGroup(a, 1, tag);
    }
    UnderGroup(b, 2, 1);
    UnderGroup(c, 3, 1);
    UnderGroup(e, 4, 1);
  }

  /** Every operation has the schema's number, and its arguments are found under theirs. */
  lemma OperationFollowsSchema(op: Operation)
    ensures var tag, items := OperationTag(op), OperationItems(op);
            match op
            case ListClasses(after, limit) => tag == 10 && TextAt(items, 1) == after && NumberAt(items, 2) == limit
            case DescribeClass(name) => tag == 11 && TextAt(items, 1) == name
            case PutValue(data) => tag == 12 && TextAt(items, 1) == Serialized(ValueItems(data))
            case GetValue(id) => tag == 13 && NumberAt(items, 1) == id
            case ListValues(cursor, limit) => tag == 14 && NumberAt(items, 1) == cursor && NumberAt(items, 2) == limit
            case CreateObject(name, arguments) =>
              tag == 15 && TextAt(items, 1) == name && Under(items, 2) == Rep(2, Named(arguments))
            case GetObject(id) => tag == 16 && NumberAt(items, 1) == id
            case ReleaseObject(id) => tag == 17 && NumberAt(items, 1) == id
            case GetAttribute(id, name) => tag == 18 && NumberAt(items, 1) == id && TextAt(items, 2) == name
            case InvokeMethod(id, name, arguments) =>
              && tag == 19 && NumberAt(items, 1) == id && TextAt(items, 2) == name
              && Under(items, 3) == Rep(3, Named(arguments))
  {
    hide Under, Serialized, ValueItems, Named;
    match op {
      case ListClasses(after, limit) => UnderTwo(Str(1, after), 1, Uint(2, limit), 2);
      case DescribeClass(name) => UnderGroup(Str(1, name), 1, 1);
      case PutValue(data) => ReadOne(Blob(1, Serialized(ValueItems(data))));
      case ListValues(cursor, limit) => UnderTwo(Uint(1, cursor), 1, Uint(2, limit), 2);
      case CreateObject(name, arguments) => UnderTwo(Str(1, name), 1, Rep(2, Named(arguments)), 2);
      case GetAttribute(id, name) => UnderTwo(Uint(1, id), 1, Str(2, name), 2);
      case InvokeMethod(id, name, arguments) =>
        UnderThree(Uint(1, id), 1, Str(2, name), 2, Rep(3, Named(arguments)), 3);
      case _ => UnderGroup(Uint(1, op.id), 1, 1);
    }
  }

  /** Every outcome has the schema's number, and its parts are found under theirs. */
  lemma OutcomeFollowsSchema(o: Outcome)
    ensures var tag, items := OutcomeTag(o), OutcomeItems(o);
            match o
            case ClassesPage(names, next) => tag == 10 && Under(items, 1) == Rep(1, names) && TextAt(items, 2) == next
            case Description(d) => tag == 11 && items == DescriptionItems(d)
            case Stored(r) => tag == 12 && items == RecordItems(r)
            case ValuesPage(values, next) =>
              tag == 13 && Under(items, 1) == Rep(1, Records(values)) && NumberAt(items, 2) == next
            case Snapshot(id, name, state) =>
              && tag == 14 && NumberAt(items, 1) == id && TextAt(items, 2) == name
              && Under(items, 3) == Rep(3, Named(state))
            case Released => tag == 15 && items == []
            case Result(v) => tag == 16 && items == ValueItems(v)
            case Error(code, message) => tag == 17 && NumberAt(items, 1) == code && TextAt(items, 2) == message
  {
    hide Under, Serialized, ValueItems, Named, Records, DescriptionItems, RecordItems;
    match o {
      case ClassesPage(names, next) => UnderTwo(Rep(1, names), 1, Str(2, next), 2);
      case ValuesPage(values, next) => UnderTwo(Rep(1, Records(values)), 1, Uint(2, next), 2);
      case Snapshot(id, name, state) => UnderThree(Uint(1, id), 1, Str(2, name), 2, Rep(3, Named(state)), 3);
      case Error(code, message) => UnderTwo(Uint(1, code), 1, Str(2, message), 2);
      case _ =>
    }
  }

  /** The envelope starts with the version under key 8 and the ID under key 16; then comes the one
      alternative, delimited. */
  lemma EnvelopeBytes(id: u64, tag: nat, body: Bytes)
    requires id != 0
    ensures Serialized(EnvelopeItems(VERSION, id, tag, body))
            == [0x08, 0x01, 0x10] + Varint(id) + Varint(8 * tag + 2) + Varint(|body|) + body
  {
    hide Varint;
    var x, y, z := Num(1, VERSION), Num(2, id), Blob(tag, body);
    assert EnvelopeItems(VERSION, id, tag, body) == [x, y, z];
    ThreeItems(x, y, z);
    SmallVarint(8);
    SmallVarint(1);
    SmallVarint(16);
  }

  lemma ThreeItems(x: Item, y: Item, z: Item)
    ensures Serialized([x, y, z]) == ItemBytes(x) + (ItemBytes(y) + ItemBytes(z))
  {
    hide ItemBytes;
    assert [x, y, z][1..] == [y, z] && [y, z][1..] == [z];
    OneItem(z);
  }

  lemma SmallVarint(n: nat)
    requires n < 128
    ensures Varint(n) == [n]
  {
  }

  /** The golden bytes of version 1. */
  lemma GoldenRequest()
    ensures RequestWire(Request(1, GetObject(1), VERSION)) == [0x08, 0x01, 0x10, 0x01, 0x82, 0x01, 0x02, 0x08, 0x01]
  {
    hide Serialized;
    var body := Serialized([Num(1, 1)]);
    OneItem(Num(1, 1));
    SmallVarint(1);
    SmallVarint(2);
    SmallVarint(8);
    EnvelopeBytes(1, 16, body);
    assert Varint(130) == [0x82, 0x01];
  }

  lemma EnvelopeInjective(v: u32, id: u64, tag: nat, body: Bytes, w: u32, other: u64, number: nat, more: Bytes)
    requires tag >= 10 && number >= 10
    requires Serialized(EnvelopeItems(v, id, tag, body)) == Serialized(EnvelopeItems(w, other, number, more))
    ensures v == w && id == other && tag == number && body == more
  {
    hide Serialized;
    SerializedInjective(EnvelopeItems(v, id, tag, body), EnvelopeItems(w, other, number, more));
    var x, y := [Blob(tag, body)], [Blob(number, more)];
    HeadGroup([Num(1, v)], Uint(2, id) + x, [Num(1, w)], Uint(2, other) + y, 1);
    HeadGroup(Uint(2, id), x, Uint(2, other), y, 2);
    UintInjective(2, id, other);
    assert [Num(1, v)][0] == [Num(1, w)][0] && x[0] == y[0];
  }

  /** Different requests have different bytes. */
  lemma RequestInjective(a: Request, b: Request)
    requires RequestWire(a) == RequestWire(b)
    ensures a == b
  {
    hide Serialized, EnvelopeItems, OperationItems;
    EnvelopeInjective(a.version, a.id, OperationTag(a.body), Serialized(OperationItems(a.body)),
                      b.version, b.id, OperationTag(b.body), Serialized(OperationItems(b.body)));
    SerializedInjective(OperationItems(a.body), OperationItems(b.body));
    OperationInjective(a.body, b.body);
  }

  /** Different responses have different bytes. */
  lemma ResponseInjective(a: Response, b: Response)
    requires ResponseWire(a) == ResponseWire(b)
    ensures a == b
  {
    hide Serialized, EnvelopeItems, OutcomeItems;
    EnvelopeInjective(a.version, a.id, OutcomeTag(a.body), Serialized(OutcomeItems(a.body)),
                      b.version, b.id, OutcomeTag(b.body), Serialized(OutcomeItems(b.body)));
    SerializedInjective(OutcomeItems(a.body), OutcomeItems(b.body));
    OutcomeInjective(a.body, b.body);
  }

  // ---- sizes --------------------------------------------------------------------------------

  lemma ValueSize(v: Value)
    ensures |Serialized(ValueItems(v))| == ByteSize(ValueNode(WriteValue(v)))
  {
    hide Varint, Serialized, Little;
    match v {
      case Text(t) =>
        RepTextSize(1, [t]);
        assert Rep(1, [t]) == [Blob(1, t)];
        OneField(Texts(1, [t], false));
      case Integer(i) =>
        OneItem(Num(2, ZigZag(i)));
        KeySize(2, 0);
        OneField(Scalar(1 + VarintSize(ZigZag(i))));
      case Real(bits) =>
        OneItem(Fix(3, bits));
        KeySize(3, 1);
        OneField(Scalar(9));
    }
  }

  /** A value as a submessage. */
  lemma ValueChildSize(tag: nat, v: Value)
    requires 1 <= tag < 16
    ensures |Serialized([Blob(tag, Serialized(ValueItems(v)))])|
            == FieldBytes(Children(1, OptionalNode(Some(WriteValue(v)))))
  {
    hide Serialized, ValueItems, ByteSize, ValueNode, WriteValue;
    ValueSize(v);
    BlobSize(tag, Serialized(ValueItems(v)));
    OneChild(1, ValueNode(WriteValue(v)));
  }

  lemma NamedSize(n: NamedValue)
    ensures |Serialized(NamedItems(n))| == ByteSize(NamedNode(PbNamed(n.name, Some(WriteValue(n.data)), [])))
  {
    hide Serialized, ValueItems, OptionalNode, FieldBytes, WriteValue;
    var x := [Blob(2, Serialized(ValueItems(n.data)))];
    SerializedConcat(Str(1, n.name), x);
    StrSize(1, n.name);
    ValueChildSize(2, n.data);
    TextField(n.name);
    TwoFields(Texts(1, [n.name], true), Children(1, OptionalNode(Some(WriteValue(n.data)))));
  }

  lemma TextField(text: Bytes)
    ensures FieldBytes(Texts(1, [text], true)) == TextBytes(1, [text], true)
  {
  }

  lemma RecordSize(r: ValueRecord)
    ensures |Serialized(RecordItems(r))| == ByteSize(RecordNode(WriteRecord(r)))
  {
    hide Serialized, ValueItems, OptionalNode, ChildrenBytes, WriteValue;
    var x := [Blob(2, Serialized(ValueItems(r.data)))];
    SerializedConcat(Uint(1, r.id), x);
    UintSize(1, r.id);
    ValueChildSize(2, r.data);
    TwoFields(Scalar(UintBytes(r.id)), Children(1, OptionalNode(Some(WriteValue(r.data)))));
  }

  lemma ParameterSize(p: Parameter)
    ensures |Serialized(ParameterItems(p))| == ByteSize(ParameterNode(PbParameter(p.name, p.kind, [])))
  {
    hide Serialized;
    SerializedConcat(Str(1, p.name), Uint(2, p.kind));
    StrSize(1, p.name);
    UintSize(2, p.kind);
    TwoFields(Texts(1, [p.name], true), Scalar(EnumBytes(p.kind)));
  }

  lemma AttributeSize(a: Attribute)
    ensures |Serialized(AttributeItems(a))| == ByteSize(AttributeNode(PbAttribute(a.name, a.kind, a.readOnly, [])))
  {
    hide Serialized;
    var x := Uint(3, if a.readOnly then 1 else 0);
    SerializedConcat(Str(1, a.name), Uint(2, a.kind) + x);
    SerializedConcat(Uint(2, a.kind), x);
    StrSize(1, a.name);
    UintSize(2, a.kind);
    UintSize(3, if a.readOnly then 1 else 0);
    ThreeFields(Texts(1, [a.name], true), Scalar(EnumBytes(a.kind)), Scalar(if a.readOnly then 2 else 0));
  }

  lemma NamedListSize(tag: nat, s: seq<NamedValue>)
    requires 1 <= tag < 16
    ensures var nodes := NamedNodes(WriteNamed(s));
            |Serialized(Rep(tag, Named(s)))| == ChildrenBytes(1, nodes) == FieldBytes(Children(1, nodes))
  {
    hide Serialized, NamedItems, ByteSize, ChildrenBytes, NamedNode, Rep;
    forall i | 0 <= i < |s| ensures |Named(s)[i]| == ByteSize(NamedNodes(WriteNamed(s))[i]) {
      NamedSize(s[i]);
    }
    RepSize(tag, Named(s), NamedNodes(WriteNamed(s)));
  }

  lemma RecordListSize(tag: nat, s: seq<ValueRecord>)
    requires 1 <= tag < 16
    ensures var nodes := RecordNodes(WriteRecords(s));
            |Serialized(Rep(tag, Records(s)))| == ChildrenBytes(1, nodes) == FieldBytes(Children(1, nodes))
  {
    hide Serialized, RecordItems, ByteSize, ChildrenBytes, RecordNode, Rep;
    forall i | 0 <= i < |s| ensures |Records(s)[i]| == ByteSize(RecordNodes(WriteRecords(s))[i]) {
      RecordSize(s[i]);
    }
    RepSize(tag, Records(s), RecordNodes(WriteRecords(s)));
  }

  lemma ParameterListSize(tag: nat, s: seq<Parameter>)
    requires 1 <= tag < 16
    ensures |Serialized(Rep(tag, Parameters(s)))| == ChildrenBytes(1, ParameterNodes(WriteParameters(s)))
  {
    hide Serialized, ParameterItems, ByteSize, ChildrenBytes, ParameterNode, Rep;
    forall i | 0 <= i < |s| ensures |Parameters(s)[i]| == ByteSize(ParameterNodes(WriteParameters(s))[i]) {
      ParameterSize(s[i]);
    }
    RepSize(tag, Parameters(s), ParameterNodes(WriteParameters(s)));
  }

  lemma AttributeListSize(tag: nat, s: seq<Attribute>)
    requires 1 <= tag < 16
    ensures |Serialized(Rep(tag, Attributes(s)))| == ChildrenBytes(1, AttributeNodes(WriteAttributes(s)))
  {
    hide Serialized, AttributeItems, ByteSize, ChildrenBytes, AttributeNode, Rep;
    forall i | 0 <= i < |s| ensures |Attributes(s)[i]| == ByteSize(AttributeNodes(WriteAttributes(s))[i]) {
      AttributeSize(s[i]);
    }
    RepSize(tag, Attributes(s), AttributeNodes(WriteAttributes(s)));
  }

  lemma MethodSize(m: Method)
    ensures |Serialized(MethodItems(m))| == ByteSize(MethodNode(WriteMethod(m)))
  {
    hide Serialized, Parameters, Rep, ParameterNodes, WriteParameters, ChildrenBytes;
    var x := Rep(2, Parameters(m.parameters));
    SerializedConcat(Str(1, m.name), x + Uint(3, m.resultKind));
    SerializedConcat(x, Uint(3, m.resultKind));
    StrSize(1, m.name);
    ParameterListSize(2, m.parameters);
    UintSize(3, m.resultKind);
    ThreeFields(Texts(1, [m.name], true), Children(1, ParameterNodes(WriteParameters(m.parameters))),
                Scalar(EnumBytes(m.resultKind)));
  }

  lemma MethodListSize(tag: nat, s: seq<Method>)
    requires 1 <= tag < 16
    ensures |Serialized(Rep(tag, Methods(s)))| == ChildrenBytes(1, MethodNodes(WriteMethods(s)))
  {
    hide Serialized, MethodItems, ByteSize, ChildrenBytes, MethodNode, Rep;
    forall i | 0 <= i < |s| ensures |Methods(s)[i]| == ByteSize(MethodNodes(WriteMethods(s))[i]) {
      MethodSize(s[i]);
    }
    RepSize(tag, Methods(s), MethodNodes(WriteMethods(s)));
  }

  lemma DescriptionSize(d: ClassDescription)
    ensures |Serialized(DescriptionItems(d))| == ByteSize(DescriptionNode(WriteDescription(d)))
  {
    hide Serialized, Parameters, Attributes, Methods, Rep, ParameterNodes, AttributeNodes, MethodNodes,
         WriteParameters, WriteAttributes, WriteMethods, ChildrenBytes;
    var a, m, p := Rep(2, Attributes(d.attributes)), Rep(3, Methods(d.methods)), Rep(4, Parameters(d.constructorParameters));
    SerializedConcat(Str(1, d.name), a + (m + p));
    SerializedConcat(a, m + p);
    SerializedConcat(m, p);
    StrSize(1, d.name);
    AttributeListSize(2, d.attributes);
    MethodListSize(3, d.methods);
    ParameterListSize(4, d.constructorParameters);
    FourFields(Texts(1, [d.name], true), Children(1, AttributeNodes(WriteAttributes(d.attributes))),
               Children(1, MethodNodes(WriteMethods(d.methods))),
               Children(1, ParameterNodes(WriteParameters(d.constructorParameters))));
  }

  /** A body is one submessage field, with a one-byte number below sixteen and two bytes from there. */
  lemma BodySize(tag: nat, items: seq<Item>, node: Node)
    requires 10 <= tag < 20 && |Serialized(items)| == ByteSize(node)
    ensures |Serialized([Blob(tag, Serialized(items))])| == FieldsBytes([Children(if tag < 16 then 1 else 2, [node])])
  {
    hide Serialized, ByteSize;
    var width := if tag < 16 then 1 else 2;
    BlobSize(tag, Serialized(items));
    OneChild(width, node);
    OneField(Children(width, [node]));
  }

  lemma OneGroup(tag: nat, a: seq<Item>, f: Field)
    requires 10 <= tag < 20 && |Serialized(a)| == FieldBytes(f)
    ensures |Serialized([Blob(tag, Serialized(a))])| == FieldsBytes([Children(if tag < 16 then 1 else 2, [Node([], [f])])])
  {
    hide Serialized, ByteSize, FieldsBytes, FieldBytes;
    OneField(f);
    BodySize(tag, a, Node([], [f]));
  }

  lemma TwoGroups(tag: nat, a: seq<Item>, f: Field, b: seq<Item>, g: Field)
    requires 10 <= tag < 20 && |Serialized(a)| == FieldBytes(f) && |Serialized(b)| == FieldBytes(g)
    ensures |Serialized([Blob(tag, Serialized(a + b))])|
            == FieldsBytes([Children(if tag < 16 then 1 else 2, [Node([], [f, g])])])
  {
    hide Serialized, ByteSize, FieldsBytes, FieldBytes;
    SerializedConcat(a, b);
    TwoFields(f, g);
    BodySize(tag, a + b, Node([], [f, g]));
  }

  /** An ID, a name and a list of named values. */
  lemma ObjectSize(tag: nat, id: u64, name: Bytes, list: seq<NamedValue>)
    requires 10 <= tag < 20
    ensures |Serialized([Blob(tag, Serialized(Uint(1, id) + (Str(2, name) + Rep(3, Named(list)))))])|
            == FieldsBytes([Children(if tag < 16 then 1 else 2,
                                     [Node([], [Scalar(UintBytes(id)), Texts(1, [name], true),
                                                Children(1, NamedNodes(WriteNamed(list)))])])])
  {
    hide Serialized, ByteSize, Named, Rep, Str, Uint, WriteNamed, NamedNodes, FieldBytes, FieldsBytes, UintBytes;
    var x, nodes := Rep(3, Named(list)), NamedNodes(WriteNamed(list));
    SerializedConcat(Uint(1, id), Str(2, name) + x);
    SerializedConcat(Str(2, name), x);
    UintSize(1, id);
    StrSize(2, name);
    NamedListSize(3, list);
    ThreeFields(Scalar(UintBytes(id)), Texts(1, [name], true), Children(1, nodes));
    BodySize(tag, Uint(1, id) + (Str(2, name) + x),
             Node([], [Scalar(UintBytes(id)), Texts(1, [name], true), Children(1, nodes)]));
  }

  lemma OperationSize(op: Operation)
    ensures |Serialized([Blob(OperationTag(op), Serialized(OperationItems(op)))])|
            == FieldsBytes(OperationField(WriteOperation(op)))
  {
    hide Serialized, ValueItems, Named, Rep, Str, Uint, WriteValue, WriteNamed, NamedNodes, OptionalNode, UintBytes,
         FieldBytes, FieldsBytes;
    match op {
      case ListClasses(after, limit) =>
        StrSize(1, after);
        UintSize(2, limit);
        TwoGroups(10, Str(1, after), Texts(1, [after], true), Uint(2, limit), Scalar(UintBytes(limit)));
      case DescribeClass(name) =>
        StrSize(1, name);
        OneGroup(11, Str(1, name), Texts(1, [name], true));
      case PutValue(data) =>
        ValueChildSize(1, data);
        OneGroup(12, [Blob(1, Serialized(ValueItems(data)))], Children(1, OptionalNode(Some(WriteValue(data)))));
      case ListValues(cursor, limit) =>
        UintSize(1, cursor);
        UintSize(2, limit);
        TwoGroups(14, Uint(1, cursor), Scalar(UintBytes(cursor)), Uint(2, limit), Scalar(UintBytes(limit)));
      case CreateObject(name, arguments) =>
        StrSize(1, name);
        NamedListSize(2, arguments);
        TwoGroups(15, Str(1, name), Texts(1, [name], true), Rep(2, Named(arguments)),
                  Children(1, NamedNodes(WriteNamed(arguments))));
      case GetAttribute(id, name) =>
        UintSize(1, id);
        StrSize(2, name);
        TwoGroups(18, Uint(1, id), Scalar(UintBytes(id)), Str(2, name), Texts(1, [name], true));
      case InvokeMethod(id, name, arguments) => ObjectSize(19, id, name, arguments);
      case _ =>
        UintSize(1, op.id);
        OneGroup(OperationTag(op), Uint(1, op.id), Scalar(UintBytes(op.id)));
    }
  }

  lemma OutcomeSize(o: Outcome)
    ensures |Serialized([Blob(OutcomeTag(o), Serialized(OutcomeItems(o)))])| == FieldsBytes(OutcomeField(WriteOutcome(o)))
  {
    hide Serialized, ByteSize, ValueItems, Named, Records, Rep, Str, Uint, WriteValue, WriteNamed, WriteRecord,
         WriteRecords, WriteDescription, NamedNodes, RecordNodes, DescriptionItems, RecordItems, ValueNode, RecordNode,
         DescriptionNode, UintBytes, FieldBytes, FieldsBytes;
    match o {
      case ClassesPage(names, next) =>
        NameListSize(1, names);
        StrSize(2, next);
        TwoGroups(10, Rep(1, names), Texts(1, names, false), Str(2, next), Texts(1, [next], true));
      case Description(d) =>
        DescriptionSize(d);
        BodySize(11, DescriptionItems(d), DescriptionNode(WriteDescription(d)));
      case Stored(r) =>
        RecordSize(r);
        BodySize(12, RecordItems(r), RecordNode(WriteRecord(r)));
      case ValuesPage(values, next) =>
        RecordListSize(1, values);
        UintSize(2, next);
        TwoGroups(13, Rep(1, Records(values)), Children(1, RecordNodes(WriteRecords(values))), Uint(2, next),
                  Scalar(UintBytes(next)));
      case Snapshot(id, name, state) => ObjectSize(14, id, name, state);
      case Released =>
        NoItems();
        EmptyNode();
        BodySize(15, [], Node([], []));
      case Result(v) =>
        ValueSize(v);
        BodySize(16, ValueItems(v), ValueNode(WriteValue(v)));
      case Error(code, message) =>
        UintSize(1, code);
        StrSize(2, message);
        EnumSize(code);
        TwoGroups(17, Uint(1, code), Scalar(EnumBytes(code)), Str(2, message), Texts(1, [message], true));
    }
  }

  lemma NameListSize(tag: nat, names: seq<Bytes>)
    requires 1 <= tag < 16
    ensures |Serialized(Rep(tag, names))| == FieldBytes(Texts(1, names, false))
  {
    hide Serialized;
    RepTextSize(tag, names);
  }

  lemma EmptyNode()
    ensures ByteSize(Node([], [])) == 0
  {
  }

  lemma EnumSize(code: ErrorCode)
    ensures EnumBytes(code) == UintBytes(code)
  {
  }

  lemma EnvelopeSize(version: u32, id: u64, tag: nat, body: Bytes, fields: seq<Field>)
    requires |Serialized([Blob(tag, body)])| == FieldsBytes(fields)
    ensures |Serialized(EnvelopeItems(version, id, tag, body))| == ByteSize(Envelope(Some(version), id, fields, []))
  {
    hide Serialized, Varint, VarintSize, Uint;
    var x := [Blob(tag, body)];
    SerializedConcat([Num(1, version)], Uint(2, id) + x);
    SerializedConcat(Uint(2, id), x);
    VersionSize(version);
    UintSize(2, id);
    var a, b := Scalar(VersionBytes(Some(version))), Scalar(UintBytes(id));
    var all := [a, b] + fields;
    assert all[1..] == [b] + fields && all[1..][1..] == fields;
    assert FieldsBytes(all) == FieldBytes(a) + FieldsBytes(all[1..]);
    assert FieldsBytes(all[1..]) == FieldBytes(b) + FieldsBytes(fields);
  }

  lemma VersionSize(version: u32)
    ensures |Serialized([Num(1, version)])| == VersionBytes(Some(version))
  {
    hide Serialized, Varint;
    OneItem(Num(1, version));
    KeySize(1, 0);
  }

  // ---- the library the byte system expects --------------------------------------------------

  ghost function ParsedRequest(bytes: Bytes): Packet<PbRequest> {
    if exists r :: EncodeRequest(r).Ok? && RequestWire(r) == bytes then
      var r :| EncodeRequest(r).Ok? && RequestWire(r) == bytes;
      EncodeRequest(r).value
    else Packet(|bytes|, None)
  }
  ghost function ParsedResponse(bytes: Bytes): Packet<PbResponse> {
    if exists r :: EncodeResponse(r).Ok? && ResponseWire(r) == bytes then
      var r :| EncodeResponse(r).Ok? && ResponseWire(r) == bytes;
      EncodeResponse(r).value
    else Packet(|bytes|, None)
  }

  /** The proto3 encoding and the parser it determines. */
  ghost function Proto3(): WireForm {
    WireForm(
      (p: Packet<PbRequest>) => if DecodeRequest(p).Ok? then RequestWire(DecodeRequest(p).value) else [],
      (bytes: Bytes) => ParsedRequest(bytes),
      (p: Packet<PbResponse>) => if DecodeResponse(p).Ok? then ResponseWire(DecodeResponse(p).value) else [],
      (bytes: Bytes) => ParsedResponse(bytes))
  }

  lemma RequestSerializes(r: Request)
    requires EncodeRequest(r).Ok?
    ensures RequestForm(Proto3(), EncodeRequest(r).value)
  {
    hide Serialized, EnvelopeItems, OperationItems, DecodeRequest;
    var p := EncodeRequest(r).value;
    EncodedRequestDecodes(r);
    OperationSize(r.body);
    EnvelopeSize(r.version, r.id, OperationTag(r.body), Serialized(OperationItems(r.body)),
                 OperationField(WriteOperation(r.body)));
    assert EncodeRequest(r).Ok? && RequestWire(r) == RequestWire(r);
    var bytes := RequestWire(r);
    var again :| EncodeRequest(again).Ok? && RequestWire(again) == bytes
                 && ParsedRequest(bytes) == EncodeRequest(again).value;
    RequestInjective(again, r);
  }

  lemma ResponseSerializes(r: Response)
    requires EncodeResponse(r).Ok?
    ensures ResponseForm(Proto3(), EncodeResponse(r).value)
  {
    hide Serialized, EnvelopeItems, OutcomeItems, DecodeResponse;
    var p := EncodeResponse(r).value;
    EncodedResponseDecodes(r);
    OutcomeSize(r.body);
    EnvelopeSize(r.version, r.id, OutcomeTag(r.body), Serialized(OutcomeItems(r.body)), OutcomeField(WriteOutcome(r.body)));
    assert EncodeResponse(r).Ok? && ResponseWire(r) == ResponseWire(r);
    var bytes := ResponseWire(r);
    var again :| EncodeResponse(again).Ok? && ResponseWire(again) == bytes
                 && ParsedResponse(bytes) == EncodeResponse(again).value;
    ResponseInjective(again, r);
  }

  /** The proto3 encoding has the computed sizes and parses back: the byte system's expectation of
      its message library is met. */
  lemma Proto3Serializes()
    ensures Serializes(Proto3())
  {
    hide EncodeRequest, EncodeResponse, Proto3, RequestForm, ResponseForm;
    forall r | EncodeRequest(r).Ok? ensures RequestForm(Proto3(), EncodeRequest(r).value) {
      RequestSerializes(r);
    }
    forall r | EncodeResponse(r).Ok? ensures ResponseForm(Proto3(), EncodeResponse(r).value) {
      ResponseSerializes(r);
    }
  }
}
