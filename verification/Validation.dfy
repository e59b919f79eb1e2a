/** Field, metadata and resource validation shared by the codec, the registry and the store. */
module Validation {
  import opened Contracts
  import Utf8

  predicate Digit(c: byte) { 48 <= c <= 57 }
  predicate IdentifierByte(c: byte) { 97 <= c <= 122 || 65 <= c <= 90 || Digit(c) || c == 95 }

  predicate ValidName(name: Bytes, allowEmpty: bool := false) {
    if name == [] then allowEmpty
    else |name| <= MAX_NAME_BYTES && !Digit(name[0])
         && forall i :: 0 <= i < |name| ==> IdentifierByte(name[i])
  }

  predicate ValidKind(kind: ValueKind) { kind == TEXT || kind == INTEGER || kind == REAL }

  predicate ValidValue(data: Value) {
    match data
    case Text(t) => |t| <= MAX_STRING_BYTES && Utf8.Valid(t)
    case Integer(_) => true
    case Real(bits) => Finite(bits)
  }

  function KindOf(data: Value): ValueKind {
    match data
    case Text(_) => TEXT
    case Integer(_) => INTEGER
    case Real(_) => REAL
  }

  function ValueBytes(data: Value): nat { if data.Text? then |data.text| else 8 }

  predicate ValidPageSize(size: u32) { size != 0 && size <= MAX_ENTRIES }

  // ---- names --------------------------------------------------------------------------------

  predicate Distinct<T(==)>(s: seq<T>) { forall i, j :: 0 <= i < j < |s| ==> s[i] != s[j] }

  /** Every name is a valid identifier and no name occurs twice. */
  predicate WellNamed(names: seq<Bytes>) {
    (forall i :: 0 <= i < |names| ==> ValidName(names[i])) && Distinct(names)
  }

  /** The scan keeps the names seen so far in a set and stops at the first rejected entry. */
  method ValidNames(names: seq<Bytes>) returns (ok: bool)
    ensures ok <==> WellNamed(names)
  {
    var seen: set<Bytes> := {};
    for i := 0 to |names|
      invariant seen == set k | 0 <= k < i :: names[k]
      invariant WellNamed(names[..i])
    {
      if !ValidName(names[i]) || names[i] in seen {
        return false;
      }
      seen := seen + {names[i]};
    }
    assert names[..|names|] == names;
    return true;
  }

  function ValueNames(entries: seq<NamedValue>): seq<Bytes> {
    seq(|entries|, i requires 0 <= i < |entries| => entries[i].name)
  }
  function ParameterNames(entries: seq<Parameter>): seq<Bytes> {
    seq(|entries|, i requires 0 <= i < |entries| => entries[i].name)
  }
  function AttributeNames(entries: seq<Attribute>): seq<Bytes> {
    seq(|entries|, i requires 0 <= i < |entries| => entries[i].name)
  }
  function MethodNames(entries: seq<Method>): seq<Bytes> {
    seq(|entries|, i requires 0 <= i < |entries| => entries[i].name)
  }

  // ---- named values against declared parameters ---------------------------------------------

  predicate ValidNamedValues(entries: seq<NamedValue>) {
    && |entries| <= MAX_ENTRIES
    && WellNamed(ValueNames(entries))
    && forall i :: 0 <= i < |entries| ==> ValidValue(entries[i].data)
  }

  /** The first entry with this name. */
  function Find(entries: seq<NamedValue>, name: Bytes): Option<Value> {
    if entries == [] then None
    else if entries[0].name == name then Some(entries[0].data)
    else Find(entries[1..], name)
  }

  predicate Supplied(entries: seq<NamedValue>, parameter: Parameter) {
    var found := Find(entries, parameter.name);
    found.Some? && KindOf(found.value) == parameter.kind
  }

  predicate ValidArguments(arguments: seq<NamedValue>, parameters: seq<Parameter>) {
    && |arguments| == |parameters|
    && ValidNamedValues(arguments)
    && forall i :: 0 <= i < |parameters| ==> Supplied(arguments, parameters[i])
  }

  lemma {:induction false} FindHit(entries: seq<NamedValue>, k: nat)
    requires k < |entries| && Distinct(ValueNames(entries))
    ensures Find(entries, entries[k].name) == Some(entries[k].data)
  {
    var names := ValueNames(entries);
    if k > 0 {
      assert names[0] != names[k];
      var rest := ValueNames(entries[1..]);
      assert forall i :: 0 <= i < |rest| ==> rest[i] == names[i + 1];
      FindHit(entries[1..], k - 1);
    }
  }

  lemma {:induction false} FindMember(entries: seq<NamedValue>, name: Bytes)
    ensures Find(entries, name).Some? ==>
              exists k :: 0 <= k < |entries| && entries[k] == NamedValue(name, Find(entries, name).value)
    ensures Find(entries, name).None? ==> forall k :: 0 <= k < |entries| ==> entries[k].name != name
  {
    if entries != [] && entries[0].name != name {
      var rest := entries[1..];
      FindMember(rest, name);
      if Find(rest, name).Some? {
        var k :| 0 <= k < |rest| && rest[k] == NamedValue(name, Find(rest, name).value);
        assert entries[k + 1] == rest[k];
      } else {
        assert forall k :: 1 <= k < |entries| ==> entries[k] == rest[k - 1];
      }
    }
  }

  /** What an argument list offers and what a parameter list asks for, in order. */
  ghost function Offer(arguments: seq<NamedValue>): seq<(Bytes, ValueKind)> {
    seq(|arguments|, i requires 0 <= i < |arguments| => (arguments[i].name, KindOf(arguments[i].data)))
  }
  ghost function Demand(parameters: seq<Parameter>): seq<(Bytes, ValueKind)> {
    seq(|parameters|, i requires 0 <= i < |parameters| => (parameters[i].name, parameters[i].kind))
  }
  ghost function Elements<T>(s: seq<T>): set<T> { set x | x in s }

  lemma {:induction false} DistinctSize<T>(s: seq<T>)
    requires Distinct(s)
    ensures |Elements(s)| == |s|
  {
    if s != [] {
      var n := |s| - 1;
      DistinctSize(s[..n]);
      assert s == s[..n] + [s[n]];
      assert Elements(s) == Elements(s[..n]) + {s[n]};
      assert s[n] !in s[..n];
    }
  }

  lemma SubsetOfSameSize<T>(a: set<T>, b: set<T>)
    requires a <= b && |a| == |b|
    ensures a == b
  {
    assert b == a + (b - a);
    assert |b - a| == 0;
  }

  /** Pigeonhole: against duplicate-free parameters the one-sided scan of `ValidArguments`
      holds exactly when names and kinds correspond one to one, whatever the order. */
  lemma ArgumentsExact(arguments: seq<NamedValue>, parameters: seq<Parameter>)
    requires Distinct(ParameterNames(parameters))
    ensures ValidArguments(arguments, parameters)
            <==> ValidNamedValues(arguments) && Elements(Offer(arguments)) == Elements(Demand(parameters))
  {
    var offer, demand := Offer(arguments), Demand(parameters);
    if ValidNamedValues(arguments) {
      assert forall i :: 0 <= i < |arguments| ==> ValueNames(arguments)[i] == offer[i].0;
      assert forall i :: 0 <= i < |parameters| ==> ParameterNames(parameters)[i] == demand[i].0;
      DistinctSize(offer);
      DistinctSize(demand);
      if ValidArguments(arguments, parameters) {
        forall p | p in demand ensures p in offer {
          var i :| 0 <= i < |demand| && p == demand[i];
          assert Supplied(arguments, parameters[i]);
          FindMember(arguments, parameters[i].name);
          var k :| 0 <= k < |arguments|
            && arguments[k] == NamedValue(p.0, Find(arguments, p.0).value);
          assert offer[k] == p;
        }
        SubsetOfSameSize(Elements(demand), Elements(offer));
      }
      if Elements(offer) == Elements(demand) {
        forall i | 0 <= i < |parameters| ensures Supplied(arguments, parameters[i]) {
          assert demand[i] in Elements(offer);
          var k :| 0 <= k < |arguments| && offer[k] == demand[i];
          FindHit(arguments, k);
        }
      }
    }
  }

  /** So a lookup among accepted arguments succeeds for declared names and only for those. */
  lemma FoundWhenDeclared(arguments: seq<NamedValue>, parameters: seq<Parameter>, name: Bytes)
    requires Distinct(ParameterNames(parameters)) && ValidArguments(arguments, parameters)
    ensures Find(arguments, name).Some? <==> name in ParameterNames(parameters)
  {
    var offer, demand := Offer(arguments), Demand(parameters);
    ArgumentsExact(arguments, parameters);
    FindMember(arguments, name);
    if Find(arguments, name).Some? {
      var k :| 0 <= k < |arguments| && arguments[k] == NamedValue(name, Find(arguments, name).value);
      assert offer[k] in Elements(demand);
      var j :| 0 <= j < |demand| && demand[j] == offer[k];
      assert ParameterNames(parameters)[j] == name;
    }
    if name in ParameterNames(parameters) {
      var j :| 0 <= j < |parameters| && ParameterNames(parameters)[j] == name;
      assert Supplied(arguments, parameters[j]);
    }
  }

  // ---- class descriptions -------------------------------------------------------------------

  predicate ValidParameters(parameters: seq<Parameter>) {
    && |parameters| <= MAX_ENTRIES
    && WellNamed(ParameterNames(parameters))
    && forall i :: 0 <= i < |parameters| ==> ValidKind(parameters[i].kind)
  }

  function MethodParameters(methods: seq<Method>): nat {
    if methods == [] then 0
    else MethodParameters(methods[..|methods| - 1]) + |methods[|methods| - 1].parameters|
  }

  /** Messages a description needs on the wire, the envelope not counted. */
  function DescriptionNodes(d: ClassDescription): nat {
    1 + |d.attributes| + |d.methods| + |d.constructorParameters| + MethodParameters(d.methods)
  }

  predicate ValidMethod(m: Method) { ValidKind(m.resultKind) && ValidParameters(m.parameters) }

  /** Everything but the bound on the total. */
  predicate WellDescribed(d: ClassDescription) {
    && ValidName(d.name)
    && |d.attributes| <= MAX_ENTRIES && |d.methods| <= MAX_ENTRIES
    && WellNamed(AttributeNames(d.attributes))
    && WellNamed(MethodNames(d.methods))
    && ValidParameters(d.constructorParameters)
    && (forall i :: 0 <= i < |d.attributes| ==> ValidKind(d.attributes[i].kind))
    && (forall i :: 0 <= i < |d.methods| ==> ValidMethod(d.methods[i]))
  }

  predicate ValidDescription(d: ClassDescription) { WellDescribed(d) && DescriptionNodes(d) < MAX_MESSAGE_NODES }

  /** The metadata check as the registry runs it: early exits, then one running node total. */
  method CheckDescription(d: ClassDescription) returns (ok: bool)
    ensures ok <==> ValidDescription(d)
  {
    if !ValidName(d.name) || |d.attributes| > MAX_ENTRIES || |d.methods| > MAX_ENTRIES {
      return false;
    }
    var attributeNames := ValidNames(AttributeNames(d.attributes));
    var methodNames := ValidNames(MethodNames(d.methods));
    if !attributeNames || !methodNames || !ValidParameters(d.constructorParameters) {
      return false;
    }
    var nodes := 1 + |d.attributes| + |d.methods| + |d.constructorParameters|;
    for i := 0 to |d.attributes|
      invariant forall k :: 0 <= k < i ==> ValidKind(d.attributes[k].kind)
    {
      if !ValidKind(d.attributes[i].kind) {
        return false;
      }
    }
    for i := 0 to |d.methods|
      invariant forall k :: 0 <= k < i ==> ValidMethod(d.methods[k])
      invariant nodes == 1 + |d.attributes| + |d.methods| + |d.constructorParameters|
                         + MethodParameters(d.methods[..i])
    {
      if !ValidMethod(d.methods[i]) {
        return false;
      }
      nodes := nodes + |d.methods[i].parameters|;
      assert d.methods[..i + 1][..i] == d.methods[..i];
    }
    assert d.methods[..|d.methods|] == d.methods;
    return nodes < MAX_MESSAGE_NODES;
  }
}
