/** Every outcome a session can produce is accepted by the response encoder. */
module Replies {
  import opened Contracts
  import opened Validation
  import opened ByteOrder
  import opened Messages
  import opened Budgets
  import opened Codec
  import opened CodecTheorems
  import opened Store
  import opened StoreTheorems
  import opened Totals
  import Registry
  import Utf8

  // ---- sums over small field lists and appended children ------------------------------------

  function CountOf(f: Field): nat { if f.Children? then ChildrenCount(f.nodes) else 0 }

  lemma NoFields()
    ensures FieldsBytes([]) == 0 && FieldsCount([]) == 0 && UnknownBytes([]) == 0 && TameUnknowns([], 0)
  {
  }

  lemma OneField(a: Field)
    ensures FieldsBytes([a]) == FieldBytes(a) && FieldsCount([a]) == CountOf(a)
    ensures var n := Node([], [a]);
            ByteSize(n) == FieldBytes(a) && NodeCount(n) == 1 + CountOf(a) && (Tame(n) <==> TameField(a))
  {
    hide FieldBytes, TameField, ChildrenCount;
    NoFields();
    assert [a][1..] == [] && [a][0] == a;
  }
  lemma TwoFields(a: Field, b: Field)
    ensures FieldsBytes([a, b]) == FieldBytes(a) + FieldBytes(b)
    ensures FieldsCount([a, b]) == CountOf(a) + CountOf(b)
    ensures var n := Node([], [a, b]);
            && ByteSize(n) == FieldBytes(a) + FieldBytes(b) && NodeCount(n) == 1 + CountOf(a) + CountOf(b)
            && (Tame(n) <==> TameField(a) && TameField(b))
  {
    hide FieldBytes, TameField, ChildrenCount;
    NoFields();
    assert [a, b][1..] == [b] && [a, b][0] == a && [a, b][1] == b;
    OneField(b);
  }
  lemma ThreeFields(a: Field, b: Field, c: Field)
    ensures FieldsBytes([a, b, c]) == FieldBytes(a) + FieldBytes(b) + FieldBytes(c)
    ensures FieldsCount([a, b, c]) == CountOf(a) + CountOf(b) + CountOf(c)
    ensures var n := Node([], [a, b, c]);
            && ByteSize(n) == FieldBytes(a) + FieldBytes(b) + FieldBytes(c)
            && NodeCount(n) == 1 + CountOf(a) + CountOf(b) + CountOf(c)
            && (Tame(n) <==> TameField(a) && TameField(b) && TameField(c))
  {
    hide FieldBytes, TameField, ChildrenCount;
    NoFields();
    assert [a, b, c][1..] == [b, c] && [a, b, c][0] == a && [a, b, c][1] == b && [a, b, c][2] == c;
    TwoFields(b, c);
  }
  lemma FourFields(a: Field, b: Field, c: Field, d: Field)
    ensures var n := Node([], [a, b, c, d]);
            && ByteSize(n) == FieldBytes(a) + FieldBytes(b) + FieldBytes(c) + FieldBytes(d)
            && NodeCount(n) == 1 + CountOf(a) + CountOf(b) + CountOf(c) + CountOf(d)
            && (Tame(n) <==> TameField(a) && TameField(b) && TameField(c) && TameField(d))
  {
    hide FieldBytes, TameField, ChildrenCount;
    NoFields();
    var s := [a, b, c, d];
    assert s[1..] == [b, c, d] && s[0] == a && s[1] == b && s[2] == c && s[3] == d;
    ThreeFields(b, c, d);
  }

  lemma OneChild(tag: nat, n: Node)
    ensures ChildrenBytes(tag, [n]) == tag + VarintSize(ByteSize(n)) + ByteSize(n)
    ensures ChildrenCount([n]) == NodeCount(n)
  {
    assert [n][1..] == [];
  }

  lemma {:induction false} OneMoreChild(tag: nat, nodes: seq<Node>, n: Node)
    ensures ChildrenBytes(tag, nodes + [n]) == ChildrenBytes(tag, nodes) + tag + VarintSize(ByteSize(n)) + ByteSize(n)
    ensures ChildrenCount(nodes + [n]) == ChildrenCount(nodes) + NodeCount(n)
    decreases |nodes|
  {
    hide ByteSize, NodeCount;
    if nodes == [] {
      assert nodes + [n] == [n];
      OneChild(tag, n);
    } else {
      assert (nodes + [n])[1..] == nodes[1..] + [n];
      OneMoreChild(tag, nodes[1..], n);
    }
  }

  // ---- lengths ------------------------------------------------------------------------------

  lemma VarintBounds(n: nat)
    ensures n < 0x20_0000 ==> VarintSize(n) <= 3
    ensures n < 0x1_0000_0000_0000_0000 ==> VarintSize(n) <= 10
  {
    SmallVarint(n);
    if n < 0x1_0000_0000_0000_0000 {
      var m := n / 128 / 128 / 128 / 128 / 128 / 128 / 128;
      SmallVarint(m);
      assert m < 0x20_0000;
      VarintSteps(n);
    }
  }

  lemma SmallVarint(n: nat)
    ensures n < 0x20_0000 ==> VarintSize(n) <= 3
  {
    if 128 <= n < 0x20_0000 {
      assert VarintSize(n) == 1 + VarintSize(n / 128);
      if n / 128 >= 128 {
        assert VarintSize(n / 128) == 1 + VarintSize(n / 128 / 128);
        assert n / 128 / 128 < 128;
      }
    }
  }

  lemma VarintStep(n: nat)
    ensures VarintSize(n) <= 1 + VarintSize(n / 128)
  {
  }

  lemma VarintSteps(n: nat)
    ensures VarintSize(n) <= 7 + VarintSize(n / 128 / 128 / 128 / 128 / 128 / 128 / 128)
  {
    hide VarintSize;
    VarintStep(n);
    VarintStep(n / 128);
    VarintStep(n / 128 / 128);
    VarintStep(n / 128 / 128 / 128);
    VarintStep(n / 128 / 128 / 128 / 128);
    VarintStep(n / 128 / 128 / 128 / 128 / 128);
    VarintStep(n / 128 / 128 / 128 / 128 / 128 / 128);
  }

  lemma TextCost(text: Bytes, implicit: bool)
    ensures |text| < 0x20_0000 ==> FieldBytes(Texts(1, [text], implicit)) <= |text| + 4
    ensures CountOf(Texts(1, [text], implicit)) == 0
  {
    VarintBounds(|text|);
    assert [text][1..] == [];
    assert TextBytes(1, [], implicit) == 0;
  }

  lemma ChildCost(tag: nat, n: Node)
    ensures ByteSize(n) < 0x20_0000 ==> ChildrenBytes(tag, [n]) <= tag + 3 + ByteSize(n)
    ensures ChildrenCount([n]) == NodeCount(n)
  {
    hide ByteSize, NodeCount, VarintSize;
    VarintBounds(ByteSize(n));
    OneChild(tag, n);
  }

  lemma ValueCost(v: Value)
    requires ValidValue(v)
    ensures ByteSize(ValueNode(WriteValue(v))) <= ValueBytes(v) + 4
    ensures NodeCount(ValueNode(WriteValue(v))) == 1
    ensures Tame(ValueNode(WriteValue(v)))
  {
    hide VarintSize, TextBytes, Utf8.Valid;
    var n := ValueNode(WriteValue(v));
    OneField(n.fields[0]);
    match v {
      case Text(t) =>
        assert [t][0] == t;
        TextCost(t, false);
      case Integer(i) => VarintBounds(ZigZag(i));
      case Real(_) =>
    }
  }

  lemma UintCost(n: u64)
    ensures UintBytes(n) <= 11
  {
    VarintBounds(n);
  }

  lemma OptionalCost(v: Value)
    requires ValidValue(v)
    ensures var f := Children(1, OptionalNode(Some(WriteValue(v))));
            FieldBytes(f) <= ValueBytes(v) + 8 && CountOf(f) == 1 && TameField(f)
  {
    hide ValueNode, WriteValue, Tame, ByteSize, NodeCount, Utf8.Valid;
    ValueCost(v);
    ChildCost(1, ValueNode(WriteValue(v)));
    assert OptionalNode(Some(WriteValue(v))) == [ValueNode(WriteValue(v))];
  }

  /** A message and what it costs as the next entry of a repeated field. */
  ghost predicate Fits(n: Node, cost: nat, count: nat) {
    ByteSize(n) + 4 <= cost && ByteSize(n) < 0x20_0000 && NodeCount(n) == count && Tame(n)
  }

  lemma RecordCost(r: ValueRecord)
    requires ValidValue(r.data)
    ensures Fits(RecordNode(WriteRecord(r)), ValueCharge(r.data), 2)
  {
    hide OptionalNode, WriteValue, FieldBytes, TameField, VarintSize, Utf8.Valid;
    var n := RecordNode(WriteRecord(r));
    UintCost(r.id);
    OptionalCost(r.data);
    TwoFields(n.fields[0], n.fields[1]);
    ScalarCost(UintBytes(r.id));
  }

  lemma ScalarCost(bytes: nat)
    ensures FieldBytes(Scalar(bytes)) == bytes && CountOf(Scalar(bytes)) == 0 && TameField(Scalar(bytes))
  {
  }

  lemma NameCost(name: Bytes, allowEmpty: bool)
    requires ValidName(name, allowEmpty)
    ensures var f := Texts(1, [name], true); FieldBytes(f) <= |name| + 4 && CountOf(f) == 0 && TameField(f)
  {
    TextCost(name, true);
    assert TameText(name) by { hide *; NameIsText(name, allowEmpty); }
    assert [name][0] == name;
  }

  lemma NameIsText(name: Bytes, allowEmpty: bool)
    requires ValidName(name, allowEmpty)
    ensures TameText(name)
  {
    Utf8.AsciiIsValid(name);
  }

  lemma NamedCost(e: NamedValue)
    requires ValidName(e.name) && ValidValue(e.data)
    ensures Fits(NamedNode(PbNamed(e.name, Some(WriteValue(e.data)), [])),
                 RECORD_CHARGE + |e.name| + ValueBytes(e.data), 2)
  {
    assert |e.name| <= MAX_NAME_BYTES;
    hide OptionalNode, WriteValue, FieldBytes, TameField, VarintSize, Utf8.Valid, ValidName;
    var n := NamedNode(PbNamed(e.name, Some(WriteValue(e.data)), []));
    NameCost(e.name, false);
    OptionalCost(e.data);
    TwoFields(n.fields[0], n.fields[1]);
  }

  lemma ParameterCost(p: Parameter)
    requires ValidName(p.name) && ValidKind(p.kind)
    ensures Fits(ParameterNode(PbParameter(p.name, p.kind, [])), 142, 1)
  {
    assert |p.name| <= MAX_NAME_BYTES;
    hide FieldBytes, TameField, ValidName;
    var n := ParameterNode(PbParameter(p.name, p.kind, []));
    NameCost(p.name, false);
    TwoFields(n.fields[0], n.fields[1]);
    ScalarCost(EnumBytes(p.kind));
  }

  lemma AttributeCost(a: Attribute)
    requires ValidName(a.name) && ValidKind(a.kind)
    ensures Fits(AttributeNode(PbAttribute(a.name, a.kind, a.readOnly, [])), 142, 1)
  {
    assert |a.name| <= MAX_NAME_BYTES;
    hide FieldBytes, TameField, ValidName;
    var n := AttributeNode(PbAttribute(a.name, a.kind, a.readOnly, []));
    NameCost(a.name, false);
    ThreeFields(n.fields[0], n.fields[1], n.fields[2]);
    ScalarCost(EnumBytes(a.kind));
    ScalarCost(if a.readOnly then 2 else 0);
  }

  // ---- repeated fields ----------------------------------------------------------------------

  /** One more fitting entry at the end of a repeated field with a one-byte tag. */
  lemma AppendFits(nodes: seq<Node>, n: Node, cost: nat, count: nat, bytes: nat, total: nat)
    requires Fits(n, cost, count) && ChildrenBytes(1, nodes) <= bytes && ChildrenCount(nodes) == total
    ensures ChildrenBytes(1, nodes + [n]) <= bytes + cost
    ensures ChildrenCount(nodes + [n]) == total + count
  {
    hide ByteSize, NodeCount, ChildrenBytes, ChildrenCount, VarintSize, Tame;
    VarintBounds(ByteSize(n));
    OneMoreChild(1, nodes, n);
  }

  ghost predicate AllTame(nodes: seq<Node>) { forall i :: 0 <= i < |nodes| ==> Tame(nodes[i]) }

  lemma {:induction false} RecordsCost(s: seq<ValueRecord>)
    requires forall i :: 0 <= i < |s| ==> ValidValue(s[i].data)
    ensures var nodes := RecordNodes(WriteRecords(s));
            ChildrenBytes(1, nodes) <= Charges(s) && ChildrenCount(nodes) == 2 * |s| && AllTame(nodes)
    decreases |s|
  {
    hide RecordNode, WriteRecord, ByteSize, NodeCount, Tame, ValueCharge, ValidValue, VarintSize;
    if s != [] {
      var nodes := RecordNodes(WriteRecords(s));
      RecordsCost(s[1..]);
      RecordCost(s[0]);
      assert nodes[1..] == RecordNodes(WriteRecords(s[1..]));
      VarintBounds(ByteSize(nodes[0]));
      assert nodes == [nodes[0]] + nodes[1..];
    }
  }

  lemma {:induction false} NamedListCost(s: seq<NamedValue>)
    requires forall i :: 0 <= i < |s| ==> ValidName(s[i].name) && ValidValue(s[i].data)
    ensures var nodes := NamedNodes(WriteNamed(s));
            ChildrenBytes(1, nodes) <= StateCharge(s) && ChildrenCount(nodes) == 2 * |s| && AllTame(nodes)
    decreases |s|
  {
    hide NamedNode, WriteValue, ByteSize, NodeCount, Tame, ValidName, ValidValue, ChildrenBytes, ChildrenCount;
    if s == [] {
      assert NamedNodes(WriteNamed(s)) == [];
      NoChildren();
    } else {
      var n := |s| - 1;
      var nodes := NamedNodes(WriteNamed(s));
      var last := NamedNode(PbNamed(s[n].name, Some(WriteValue(s[n].data)), []));
      NamedListCost(s[..n]);
      NamedCost(s[n]);
      assert nodes == NamedNodes(WriteNamed(s[..n])) + [last];
      AppendFits(NamedNodes(WriteNamed(s[..n])), last, RECORD_CHARGE + |s[n].name| + ValueBytes(s[n].data), 2,
                 StateCharge(s[..n]), 2 * n);
    }
  }

  lemma NoChildren()
    ensures ChildrenBytes(1, []) == 0 && ChildrenCount([]) == 0
  {
  }

  lemma {:induction false} ParametersCost(s: seq<Parameter>)
    requires forall i :: 0 <= i < |s| ==> ValidName(s[i].name) && ValidKind(s[i].kind)
    ensures var nodes := ParameterNodes(WriteParameters(s));
            ChildrenBytes(1, nodes) <= 142 * |s| && ChildrenCount(nodes) == |s| && AllTame(nodes)
    decreases |s|
  {
    hide ParameterNode, ByteSize, NodeCount, Tame, ValidName, ChildrenBytes, ChildrenCount;
    if s == [] {
      assert ParameterNodes(WriteParameters(s)) == [];
      NoChildren();
    } else {
      var n := |s| - 1;
      var last := ParameterNode(PbParameter(s[n].name, s[n].kind, []));
      ParametersCost(s[..n]);
      ParameterCost(s[n]);
      assert ParameterNodes(WriteParameters(s)) == ParameterNodes(WriteParameters(s[..n])) + [last];
      AppendFits(ParameterNodes(WriteParameters(s[..n])), last, 142, 1, 142 * n, n);
    }
  }

  lemma {:induction false} AttributesCost(s: seq<Attribute>)
    requires forall i :: 0 <= i < |s| ==> ValidName(s[i].name) && ValidKind(s[i].kind)
    ensures var nodes := AttributeNodes(WriteAttributes(s));
            ChildrenBytes(1, nodes) <= 142 * |s| && ChildrenCount(nodes) == |s| && AllTame(nodes)
    decreases |s|
  {
    hide AttributeNode, ByteSize, NodeCount, Tame, ValidName, ChildrenBytes, ChildrenCount;
    if s == [] {
      assert AttributeNodes(WriteAttributes(s)) == [];
      NoChildren();
    } else {
      var n := |s| - 1;
      var last := AttributeNode(PbAttribute(s[n].name, s[n].kind, s[n].readOnly, []));
      AttributesCost(s[..n]);
      AttributeCost(s[n]);
      assert AttributeNodes(WriteAttributes(s)) == AttributeNodes(WriteAttributes(s[..n])) + [last];
      AppendFits(AttributeNodes(WriteAttributes(s[..n])), last, 142, 1, 142 * n, n);
    }
  }

  lemma MethodCost(m: Method)
    requires ValidName(m.name) && ValidMethod(m)
    ensures Fits(MethodNode(WriteMethod(m)), 142 + 142 * |m.parameters|, 1 + |m.parameters|)
  {
    assert |m.name| <= MAX_NAME_BYTES;
    hide FieldBytes, TameField, ValidName, ParameterNodes, WriteParameters, ChildrenBytes, ChildrenCount;
    var n := MethodNode(WriteMethod(m));
    ParameterListCost(m.parameters);
    NameCost(m.name, false);
    ThreeFields(n.fields[0], n.fields[1], n.fields[2]);
    ScalarCost(EnumBytes(m.resultKind));
  }

  lemma ParameterListCost(s: seq<Parameter>)
    requires ValidParameters(s)
    ensures var f := Children(1, ParameterNodes(WriteParameters(s)));
            FieldBytes(f) <= 142 * |s| && CountOf(f) == |s| && TameField(f)
  {
    hide ChildrenBytes, ChildrenCount, ParameterNode, Tame, ValidName;
    assert forall i :: 0 <= i < |s| ==> ParameterNames(s)[i] == s[i].name;
    ParametersCost(s);
    assert |ParameterNodes(WriteParameters(s))| == |s|;
  }

  lemma {:induction false} MethodsCost(s: seq<Method>)
    requires forall i :: 0 <= i < |s| ==> ValidName(s[i].name) && ValidMethod(s[i])
    ensures var nodes := MethodNodes(WriteMethods(s));
            && ChildrenBytes(1, nodes) <= 142 * (|s| + MethodParameters(s))
            && ChildrenCount(nodes) == |s| + MethodParameters(s) && AllTame(nodes)
    decreases |s|
  {
    hide MethodNode, WriteMethod, ByteSize, NodeCount, Tame, ValidName, ValidMethod, ChildrenBytes, ChildrenCount;
    if s == [] {
      assert MethodNodes(WriteMethods(s)) == [];
      NoChildren();
    } else {
      var n := |s| - 1;
      var last := MethodNode(WriteMethod(s[n]));
      MethodsCost(s[..n]);
      MethodCost(s[n]);
      assert MethodNodes(WriteMethods(s)) == MethodNodes(WriteMethods(s[..n])) + [last];
      AppendFits(MethodNodes(WriteMethods(s[..n])), last, 142 + 142 * |s[n].parameters|, 1 + |s[n].parameters|,
                 142 * (n + MethodParameters(s[..n])), n + MethodParameters(s[..n]));
    }
  }

  lemma AttributeListCost(d: ClassDescription)
    requires WellDescribed(d)
    ensures var f := Children(1, AttributeNodes(WriteAttributes(d.attributes)));
            FieldBytes(f) <= 142 * |d.attributes| && CountOf(f) == |d.attributes| && TameField(f)
  {
    hide ChildrenBytes, ChildrenCount, AttributeNode, Tame, ValidName, ValidMethod, ValidParameters;
    assert forall i :: 0 <= i < |d.attributes| ==> AttributeNames(d.attributes)[i] == d.attributes[i].name;
    AttributesCost(d.attributes);
    assert |AttributeNodes(WriteAttributes(d.attributes))| == |d.attributes|;
  }

  lemma MethodListCost(d: ClassDescription)
    requires WellDescribed(d)
    ensures var f := Children(1, MethodNodes(WriteMethods(d.methods)));
            var entries := |d.methods| + MethodParameters(d.methods);
            FieldBytes(f) <= 142 * entries && CountOf(f) == entries && TameField(f)
  {
    hide ChildrenBytes, ChildrenCount, MethodNode, WriteMethod, Tame, ValidName, ValidMethod, ValidParameters;
    assert forall i :: 0 <= i < |d.methods| ==> MethodNames(d.methods)[i] == d.methods[i].name;
    MethodsCost(d.methods);
    assert |MethodNodes(WriteMethods(d.methods))| == |d.methods|;
  }

  /** The metadata limit counts exactly the messages a description becomes. */
  lemma DescriptionCost(d: ClassDescription)
    requires WellDescribed(d)
    ensures var n := DescriptionNode(WriteDescription(d));
            ByteSize(n) <= 142 * DescriptionNodes(d) && NodeCount(n) == DescriptionNodes(d) && Tame(n)
  {
    assert |d.name| <= MAX_NAME_BYTES;
    AttributeListCost(d);
    MethodListCost(d);
    ParameterListCost(d.constructorParameters);
    NameCost(d.name, false);
    hide WellDescribed, FieldBytes, TameField, AttributeNodes, MethodNodes, ParameterNodes, ChildrenCount, CountOf;
    var n := DescriptionNode(WriteDescription(d));
    FourFields(n.fields[0], n.fields[1], n.fields[2], n.fields[3]);
  }

  // ---- outcomes -----------------------------------------------------------------------------

  /** The bounds a session keeps on everything it answers, in contract terms. */
  ghost predicate Sendable(o: Outcome) {
    match o
    case ClassesPage(names, next) => |names| <= MAX_ENTRIES && ValidClassesPage(names, next)
    case Description(d) => ValidDescription(d)
    case Stored(r) => r.id != 0 && ValidValue(r.data)
    case ValuesPage(values, next) =>
      && |values| <= MAX_ENTRIES && Charges(values) <= PAGE_BYTE_BUDGET
      && (forall i :: 0 <= i < |values| ==> values[i].id != 0 && ValidValue(values[i].data))
      && IncreasingIds(values)
      && (next != 0 ==> values != [] && next == values[|values| - 1].id)
    case Snapshot(id, name, state) =>
      id != 0 && ValidName(name) && ValidNamedValues(state) && StateCharge(state) <= Registry.MAX_OBJECT_STATE_BYTES
    case Released => true
    case Result(v) => ValidValue(v)
    case Error(code, message) =>
      && INVALID_REQUEST <= code <= NUMERIC_OVERFLOW && |message| < 64
      && forall i :: 0 <= i < |message| ==> message[i] < 0x80
  }

  function Content(o: Outcome): (n: Node)
    ensures OutcomeField(WriteOutcome(o)) == [Children(OutcomeField(WriteOutcome(o))[0].tag, [n])]
    ensures OutcomeField(WriteOutcome(o))[0].tag <= 2
  {
    OutcomeField(WriteOutcome(o))[0].nodes[0]
  }

  ghost predicate Affordable(n: Node) { ByteSize(n) <= 600_000 && NodeCount(n) < MAX_MESSAGE_NODES && Tame(n) }

  lemma {:induction false} NamesCost(names: seq<Bytes>)
    requires forall i :: 0 <= i < |names| ==> ValidName(names[i])
    ensures TextBytes(1, names, false) <= 132 * |names|
  {
    hide IdentifierByte;
    if names != [] {
      NamesCost(names[1..]);
      VarintBounds(|names[0]|);
    }
  }

  lemma CursorName(names: seq<Bytes>, next: Bytes)
    requires ValidClassesPage(names, next)
    ensures ValidName(next, true) && |next| <= MAX_NAME_BYTES
  {
    hide IdentifierByte, AdjacentIncreasing;
  }

  lemma ClassesContent(names: seq<Bytes>, next: Bytes)
    requires |names| <= MAX_ENTRIES && ValidClassesPage(names, next)
    ensures Affordable(Content(ClassesPage(names, next)))
  {
    var a, b := Texts(1, names, false), Texts(1, [next], true);
    assert FieldBytes(a) <= 132 * |names| by { hide ValidName; NamesCost(names); }
    assert TameField(a) by {
      hide ValidName, Utf8.Valid;
      forall i | 0 <= i < |names| ensures TameText(names[i]) {
        NameIsText(names[i], false);
      }
    }
    CursorName(names, next);
    NameCost(next, true);
    hide ValidName, FieldBytes, TameField;
    TwoFields(a, b);
    assert Content(ClassesPage(names, next)) == Node([], [a, b]);
  }

  lemma ValuesContent(values: seq<ValueRecord>, next: u64)
    requires Sendable(ValuesPage(values, next))
    ensures Affordable(Content(ValuesPage(values, next)))
  {
    hide ValidValue, RecordNodes, WriteRecords, ChildrenBytes, ChildrenCount, Charges, Tame, VarintSize;
    var n := Content(ValuesPage(values, next));
    RecordsCost(values);
    UintCost(next);
    TwoFields(n.fields[0], n.fields[1]);
    RecordListTame(values, next);
  }

  lemma RecordListTame(values: seq<ValueRecord>, next: u64)
    requires |values| <= MAX_ENTRIES && AllTame(RecordNodes(WriteRecords(values)))
    ensures Tame(Content(ValuesPage(values, next)))
  {
    hide RecordNode, WriteRecord;
    assert |RecordNodes(WriteRecords(values))| == |values|;
  }

  lemma SnapshotContent(id: u64, name: Bytes, state: seq<NamedValue>)
    requires Sendable(Snapshot(id, name, state))
    ensures Affordable(Content(Snapshot(id, name, state)))
  {
    assert |name| <= MAX_NAME_BYTES;
    UintCost(id);
    ScalarCost(UintBytes(id));
    NameCost(name, false);
    StateListCost(state);
    hide FieldBytes, TameField, NamedNodes, ValidName, ValidNamedValues, CountOf, VarintSize;
    var a, b, c := Scalar(UintBytes(id)), Texts(1, [name], true), Children(1, NamedNodes(WriteNamed(state)));
    ThreeFields(a, b, c);
    assert Content(Snapshot(id, name, state)) == Node([], [a, b, c]);
  }

  lemma StateListCost(state: seq<NamedValue>)
    requires ValidNamedValues(state)
    ensures var f := Children(1, NamedNodes(WriteNamed(state)));
            FieldBytes(f) <= StateCharge(state) && CountOf(f) == 2 * |state| && TameField(f)
  {
    hide ChildrenBytes, ChildrenCount, NamedNode, Tame, ValidName, ValidValue, StateCharge;
    assert forall i :: 0 <= i < |state| ==> ValueNames(state)[i] == state[i].name;
    NamedListCost(state);
    assert |NamedNodes(WriteNamed(state))| == |state|;
  }

  lemma SmallContent(o: Outcome)
    requires Sendable(o) && (o.Stored? || o.Released? || o.Result? || o.Error?)
    ensures Affordable(Content(o))
  {
    hide ValueNode, RecordNode, WriteValue, WriteRecord, Utf8.Valid;
    match o {
      case Stored(r) => RecordCost(r);
      case Result(v) => ValueCost(v);
      case Error(code, message) => ErrorContent(code, message);
      case Released => NoFields();
    }
  }

  lemma ErrorContent(code: ErrorCode, message: Bytes)
    requires Sendable(Error(code, message))
    ensures Affordable(Content(Error(code, message)))
  {
    var a, b := Scalar(EnumBytes(code)), Texts(1, [message], true);
    TextCost(message, true);
    Utf8.AsciiIsValid(message);
    assert TameField(b) by {
      hide Utf8.Valid;
      assert [message][0] == message;
    }
    ScalarCost(EnumBytes(code));
    hide FieldBytes, TameField;
    TwoFields(a, b);
    assert Content(Error(code, message)) == Node([], [a, b]);
  }

  lemma ContentIsAffordable(o: Outcome)
    requires Sendable(o)
    ensures Affordable(Content(o))
  {
    hide Affordable, ValidClassesPage, ValidDescription;
    match o {
      case ClassesPage(names, next) => ClassesContent(names, next);
      case Description(d) => DescribedContent(d);
      case ValuesPage(values, next) => ValuesContent(values, next);
      case Snapshot(id, name, state) => SnapshotContent(id, name, state);
      case _ => SmallContent(o);
    }
  }

  lemma DescribedContent(d: ClassDescription)
    requires ValidDescription(d)
    ensures Affordable(Content(Description(d)))
  {
    DescriptionCost(d);
    assert DescriptionNodes(d) < MAX_MESSAGE_NODES;
  }

  lemma {:induction false} IncreasingRecordsAreOk(s: seq<ValueRecord>, previous: u64)
    requires IncreasingIds(s) && (s != [] ==> s[0].id > previous)
    requires forall i :: 0 <= i < |s| ==> Readable(s[i].data)
    ensures RecordsOk(s, previous)
    decreases |s|
  {
    hide Readable;
    if s != [] {
      IncreasingRecordsAreOk(s[1..], s[0].id);
    }
  }

  lemma SendableIsOk(o: Outcome)
    requires Sendable(o)
    ensures OutcomeOk(o)
  {
    hide WellNamed, ValidName, Utf8.Valid, Finite, Charges, StateCharge, ValidClassesPage, RecordsOk;
    match o {
      case Description(d) =>
        assert forall i :: 0 <= i < |d.methods| ==> ValidMethod(d.methods[i]);
      case ValuesPage(values, next) => IncreasingRecordsAreOk(values, 0);
      case _ =>
    }
  }

  /** A sendable outcome passes every check of the encoder, for every nonzero correlation ID. */
  lemma SendableEncodes(id: u64, o: Outcome)
    requires id != 0 && Sendable(o)
    ensures EncodeResponse(Response(id, o, VERSION)).Ok?
  {
    hide Sendable, OutcomeOk, ReadOutcome, WriteOutcome, OutcomeField, CheckMessage, Content, StripFields, Strip,
         UnknownsOf, ByteSize, NodeCount, Tame, VarintSize;
    var m := WriteOutcome(o);
    SendableIsOk(o);
    OutcomeReadsBack(o);
    OutcomeRewrites(m);
    ContentIsAffordable(o);
    EnvelopeCost(id, OutcomeField(m)[0].tag, Content(o));
    var tree := Envelope(Some(VERSION), id, OutcomeField(m), []);
    EnvelopeStrips(Some(VERSION), id, OutcomeField(m), []);
    StripIsSmaller(tree);
    CheckIsExact(tree, FULL_BUDGET);
  }

  lemma EnvelopeCost(id: u64, tag: nat, content: Node)
    requires tag <= 2 && Affordable(content)
    ensures var tree := Envelope(Some(VERSION), id, [Children(tag, [content])], []);
            ByteSize(tree) <= MAX_PAYLOAD_BYTES && NodeCount(tree) <= MAX_MESSAGE_NODES && Tame(tree)
  {
    var a, b, c := Scalar(VersionBytes(Some(VERSION))), Scalar(UintBytes(id)), Children(tag, [content]);
    UintCost(id);
    ScalarCost(UintBytes(id));
    ScalarCost(VersionBytes(Some(VERSION)));
    ChildCost(tag, content);
    assert TameField(c) by {
      hide Tame;
      assert forall i :: 0 <= i < |c.nodes| ==> c.nodes[i] == content;
    }
    assert VersionBytes(Some(VERSION)) == 2;
    assert FieldBytes(c) == ChildrenBytes(tag, [content]);
    hide TameField, FieldBytes, ByteSize, NodeCount, Tame, ChildrenBytes, ChildrenCount, VarintSize;
    ThreeFields(a, b, c);
    assert Envelope(Some(VERSION), id, [c], []) == Node([], [a, b, c]);
  }

  // ---- sessions -----------------------------------------------------------------------------

  lemma ClassPagesAreSendable<I>(host: Host<I>, after: Bytes, limit: u32)
    requires ValidHost(host)
    ensures Sendable(Registry.List(Registry.ClassNames(host.definitions), after, limit))
  {
    hide ValidName, Less, Registry.Rank, MakeError, Registry.Admissible;
    var names := Registry.ClassNames(host.definitions);
    RegisteredNames(host);
    if ValidName(after, true) && ValidPageSize(limit) {
      var from := Registry.Rank(names, after, true);
      SliceIsPage(names, from, Min(from + limit, |names|));
    }
  }

  lemma RegisteredNames<I>(host: Host<I>)
    requires ValidHost(host)
    ensures Increasing(Registry.ClassNames(host.definitions))
    ensures forall i :: 0 <= i < |host.definitions| ==> ValidName(Registry.ClassNames(host.definitions)[i])
  {
    hide ValidName, Increasing;
    forall i | 0 <= i < |host.definitions| ensures ValidName(Registry.ClassNames(host.definitions)[i]) {
      assert Registry.Admissible(host.definitions[i]);
    }
  }

  lemma SliceIsPage(names: seq<Bytes>, from: nat, to: nat)
    requires from <= to <= |names| && Increasing(names) && forall i :: 0 <= i < |names| ==> ValidName(names[i])
    ensures AdjacentIncreasing(names[from..to])
    ensures forall i :: 0 <= i < to - from ==> ValidName(names[from..to][i])
  {
    hide Less, ValidName;
    var page := names[from..to];
    forall i | 0 <= i < |page| - 1 ensures !Less(page[i + 1], page[i]) && page[i] != page[i + 1] {
      assert Less(names[from + i], names[from + i + 1]);
      Irreflexive(page[i]);
      if Less(page[i + 1], page[i]) {
        Transitive(page[i], page[i + 1], page[i]);
      }
    }
  }

  lemma SnapshotsAreSendable<I>(host: Host<I>, id: u64, entry: StoredObject<I>)
    requires ValidHost(host) && id != 0 && Registered(host, entry)
    ensures Sendable(Snapshot(id, entry.definition.description.name, entry.State()))
  {
    hide ValidName, ValidMethod, ValidParameters, ValidNamedValues, StateCharge, Increasing, Supplied;
    assert Registry.Admissible(entry.definition);
  }

  lemma ValuePagesAreSendable(values: map<u64, Value>, cursor: u64, limit: u32)
    requires AllValid(values)
    ensures Sendable(PageOf(values, cursor, limit))
  {
    hide MakeError, UpperKey, Charges, PageFrom, ValidValue;
    if ValidPageSize(limit) {
      NonfinalPagesProgress(values, cursor, limit);
    }
  }

  lemma SessionFacts<I>(host: Host<I>, s: Session<I>, next: u64)
    requires ValidSession(host, s, next)
    ensures AllValid(s.values)
    ensures forall id :: id in s.objects ==> id != 0 && Registered(host, s.objects[id])
  {
    hide Registered, ValidValue, Used;
  }

  lemma ErrorsAreSendable()
    ensures forall code: ErrorCode :: Sendable(MakeError(code))
  {
    hide MakeError;
  }

  lemma ReleaseIsSendable()
    ensures Sendable(Released)
  {
  }

  lemma StoredIsSendable(id: u64, data: Value)
    ensures id != 0 && ValidValue(data) ==> Sendable(Stored(ValueRecord(id, data)))
  {
    hide ValidValue;
  }

  lemma ResultIsSendable(v: Value)
    ensures ValidValue(v) ==> Sendable(Result(v))
  {
    hide ValidValue;
  }

  lemma DescriptionsAreSendable<I>(host: Host<I>, name: Bytes)
    requires ValidHost(host)
    ensures Sendable(DescribeByName(host.definitions, name))
  {
    hide ValidName, ValidDescription, Increasing, MakeError, Registry.Lookup;
    var found := Registry.Lookup(host.definitions, name);
    if found.Some? {
      assert Registry.Admissible(found.value);
    }
  }

  lemma CreatedIsSendable<I>(host: Host<I>, s: Session<I>, next: u64, name: Bytes, arguments: seq<NamedValue>)
    requires ValidHost(host)
    ensures Sendable(ApplyCreate(host, s, next, name, arguments).outcome)
  {
    hide Sendable, ValidHost, Used, StateMatches, ValidArguments, ValidName, MakeError, Registry.Lookup;
    ErrorsAreSendable();
    var found := Registry.Lookup(host.definitions, name);
    if found.Some? && found.value.create.Some? {
      var made := found.value.create.value(arguments);
      if made.Created? && made.instance.Some? {
        var entry := StoredObject(found.value, made.instance.value);
        if next != 0 && StateMatches(entry.definition, entry.State()) {
          SnapshotsAreSendable(host, next, entry);
        }
      }
    }
  }

  lemma InvokedIsSendable<I>(host: Host<I>, s: Session<I>, next: u64, id: u64, name: Bytes,
                             arguments: seq<NamedValue>)
    ensures Sendable(ApplyInvoke(host, s, next, id, name, arguments).outcome)
  {
    hide Sendable, Used, StateMatches, ValidArguments, ValidName, MakeError, ValidValue;
    ErrorsAreSendable();
    if id in s.objects {
      var entry := s.objects[id];
      var copy := entry.definition.clone(entry.instance);
      if copy.Some? {
        var (candidate, invoked) := entry.definition.invoke(copy.value, name, arguments);
        if invoked.Returned? {
          ResultIsSendable(invoked.value);
        }
      }
    }
  }

  lemma AttributeIsSendable<I>(host: Host<I>, s: Session<I>, next: u64, id: u64, name: Bytes)
    requires ValidHost(host) && ValidSession(host, s, next)
    ensures Sendable(ReadAttribute(s.objects, id, name))
  {
    hide Sendable, ValidSession, ValidHost, ReadObject, MakeError, ValidName, ValidValue;
    SessionFacts(host, s, next);
    RetainedObjectsRead(host, s, next, id);
    ErrorsAreSendable();
    if id in s.objects {
      var state := s.objects[id].State();
      assert ValidNamedValues(state) by { hide WellNamed, StateCharge, Supplied, ValidValue; }
      FindMember(state, name);
      if Find(state, name).Some? {
        ResultIsSendable(Find(state, name).value);
      }
    }
  }

  /** Whatever a valid session answers is sendable, whatever its plugins do. */
  lemma ExecuteIsSendable<I>(host: Host<I>, s: Session<I>, next: u64, op: Operation)
    requires ValidHost(host) && ValidSession(host, s, next)
    ensures Sendable(Execute(host, s, next, op).outcome)
  {
    hide ValidSession, ValidHost, Sendable, Used, StateMatches, ValidArguments, ValidName, MakeError;
    SessionFacts(host, s, next);
    ErrorsAreSendable();
    match op {
      case ListClasses(after, limit) => ClassPagesAreSendable(host, after, limit);
      case DescribeClass(name) => DescriptionsAreSendable(host, name);
      case PutValue(data) => StoredIsSendable(next, data);
      case GetValue(id) =>
        if id in s.values {
          StoredIsSendable(id, s.values[id]);
        }
      case ListValues(cursor, limit) => ValuePagesAreSendable(s.values, cursor, limit);
      case CreateObject(name, arguments) => CreatedIsSendable(host, s, next, name, arguments);
      case GetObject(id) =>
        if id in s.objects {
          SnapshotsAreSendable(host, id, s.objects[id]);
        }
      case GetAttribute(id, name) => AttributeIsSendable(host, s, next, id, name);
      case InvokeMethod(id, name, arguments) => InvokedIsSendable(host, s, next, id, name, arguments);
      case ReleaseObject(id) => ReleaseIsSendable();
    }
  }

  /** So every reply of every reachable session is accepted by the encoder. */
  lemma EveryReplyEncodes<I>(host: Host<I>, s: Session<I>, next: u64, op: Operation, id: u64)
    requires ValidHost(host) && ValidSession(host, s, next) && id != 0
    ensures EncodeResponse(Response(id, Execute(host, s, next, op).outcome, VERSION)).Ok?
  {
    hide Execute, ValidHost, ValidSession, Sendable, EncodeResponse;
    ExecuteIsSendable(host, s, next, op);
    SendableEncodes(id, Execute(host, s, next, op).outcome);
  }

  /** The metadata bound is exact: among otherwise valid descriptions, those the registry admits
      are precisely those whose reply the encoder accepts. */
  lemma MetadataBoundIsTight(id: u64, d: ClassDescription)
    requires id != 0 && WellDescribed(d)
    ensures EncodeResponse(Response(id, Description(d), VERSION)).Ok? <==> ValidDescription(d)
  {
    hide WellDescribed, EncodeResponse;
    if ValidDescription(d) {
      assert Sendable(Description(d));
      SendableEncodes(id, Description(d));
    } else {
      OversizedIsRejected(id, d);
    }
  }

  lemma OversizedIsRejected(id: u64, d: ClassDescription)
    requires id != 0 && WellDescribed(d) && DescriptionNodes(d) >= MAX_MESSAGE_NODES
    ensures EncodeResponse(Response(id, Description(d), VERSION)).Rejected?
  {
    hide WellDescribed, DescriptionNode, ReadOutcome, CheckMessage, ByteSize, Tame, NodeCount, UnknownsOf, FieldBytes,
         ChildrenCount, DescriptionNodes;
    var content := DescriptionNode(WriteDescription(d));
    DescriptionCost(d);
    ChildCost(1, content);
    var a, b, c := Scalar(VersionBytes(Some(VERSION))), Scalar(UintBytes(id)), Children(1, [content]);
    ThreeFields(a, b, c);
    var tree := ResponseNode(ResponseMessage(Response(id, Description(d), VERSION)));
    assert tree == Node([], [a, b, c]);
    CheckIsExact(tree, FULL_BUDGET);
  }
}
