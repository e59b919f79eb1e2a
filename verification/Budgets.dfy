/** The resource limits every envelope passes: one walk that spends shared budgets. */
module Budgets {
  import opened Contracts
  import opened Messages
  import Utf8

  datatype Budget = Budget(nodes: nat, unknowns: nat)
  datatype Verdict = Within(left: Budget) | Exceeds(code: FailureCode)

  // ---- the walk -----------------------------------------------------------------------------

  /** What is left of the unknown-field budget, or nothing when a bound is exceeded. */
  function SpendUnknowns(u: Unknowns, remaining: nat, depth: nat): Option<nat>
    decreases u, 1
  {
    if depth > MAX_RECURSION_DEPTH || |u| > remaining then None
    else ScanUnknowns(u, remaining - |u|, depth)
  }
  function ScanUnknowns(u: Unknowns, remaining: nat, depth: nat): Option<nat>
    decreases u, 0
  {
    if u == [] then Some(remaining)
    else
      match u[0]
      case Plain(_) => ScanUnknowns(u[1..], remaining, depth)
      case Delimited(_, length) =>
        if length > MAX_STRING_BYTES then None else ScanUnknowns(u[1..], remaining, depth)
      case Group(_, fields) =>
        var inner := SpendUnknowns(fields, remaining, depth + 1);
        if inner.None? then None else ScanUnknowns(u[1..], inner.value, depth)
  }

  function CheckTexts(texts: seq<Bytes>): Option<FailureCode> {
    if texts == [] then None
    else if |texts[0]| > MAX_STRING_BYTES then Some(LimitExceeded)
    else if !Utf8.Valid(texts[0]) then Some(InvalidFields)
    else CheckTexts(texts[1..])
  }

  function CheckMessage(n: Node, b: Budget): Verdict
    decreases n, 1
  {
    if b.nodes == 0 then Exceeds(LimitExceeded)
    else
      var left := SpendUnknowns(n.unknown, b.unknowns, 0);
      if left.None? then Exceeds(LimitExceeded) else CheckFields(n.fields, Budget(b.nodes - 1, left.value))
  }
  function CheckFields(fields: seq<Field>, b: Budget): Verdict
    decreases fields, 0
  {
    if fields == [] then Within(b)
    else
      var first := CheckField(fields[0], b);
      if first.Exceeds? then first else CheckFields(fields[1..], first.left)
  }
  function CheckField(f: Field, b: Budget): Verdict
    decreases f, 1
  {
    match f
    case Scalar(_) => Within(b)
    case Texts(_, texts, _) =>
      if |texts| > MAX_ENTRIES then Exceeds(LimitExceeded)
      else
        var bad := CheckTexts(texts);
        if bad.Some? then Exceeds(bad.value) else Within(b)
    case Children(_, nodes) => if |nodes| > MAX_ENTRIES then Exceeds(LimitExceeded) else CheckAll(nodes, b)
  }
  function CheckAll(nodes: seq<Node>, b: Budget): Verdict
    decreases nodes, 0
  {
    if nodes == [] then Within(b)
    else
      var first := CheckMessage(nodes[0], b);
      if first.Exceeds? then first else CheckAll(nodes[1..], first.left)
  }

  // ---- what it decides ----------------------------------------------------------------------

  /** Bounded groups and bounded length-delimited contents. */
  predicate TameUnknowns(u: Unknowns, depth: nat)
    decreases u
  {
    depth <= MAX_RECURSION_DEPTH
    && forall i :: 0 <= i < |u| ==>
         (u[i].Delimited? ==> u[i].length <= MAX_STRING_BYTES)
         && (u[i].Group? ==> TameUnknowns(u[i].fields, depth + 1))
  }

  predicate TameText(t: Bytes) { |t| <= MAX_STRING_BYTES && Utf8.Valid(t) }

  /** Every list holds at most 64 entries, every text is bounded UTF-8, every unknown set is tame. */
  predicate Tame(n: Node)
    decreases n
  {
    TameUnknowns(n.unknown, 0) && forall i :: 0 <= i < |n.fields| ==> TameField(n.fields[i])
  }
  predicate TameField(f: Field)
    decreases f
  {
    match f
    case Scalar(_) => true
    case Texts(_, texts, _) => |texts| <= MAX_ENTRIES && forall i :: 0 <= i < |texts| ==> TameText(texts[i])
    case Children(_, nodes) => |nodes| <= MAX_ENTRIES && forall i :: 0 <= i < |nodes| ==> Tame(nodes[i])
  }

  lemma {:induction false} SpendIsExact(u: Unknowns, remaining: nat, depth: nat)
    ensures SpendUnknowns(u, remaining, depth)
            == if TameUnknowns(u, depth) && UnknownCount(u) <= remaining then Some(remaining - UnknownCount(u)) else None
    decreases u, 1
  {
    CountIsAtLeastLength(u);
    if depth <= MAX_RECURSION_DEPTH && |u| <= remaining {
      ScanIsExact(u, remaining - |u|, depth);
    }
  }

  lemma {:induction false} CountIsAtLeastLength(u: Unknowns)
    ensures UnknownCount(u) >= |u|
  {
    if u != [] {
      CountIsAtLeastLength(u[1..]);
    }
  }

  /** The scan after the fields themselves were paid for. */
  lemma {:induction false} ScanIsExact(u: Unknowns, remaining: nat, depth: nat)
    requires depth <= MAX_RECURSION_DEPTH
    ensures ScanUnknowns(u, remaining, depth)
            == if TameUnknowns(u, depth) && UnknownCount(u) - |u| <= remaining
               then Some(remaining - (UnknownCount(u) - |u|)) else None
    decreases u, 0
  {
    CountIsAtLeastLength(u);
    if u != [] {
      var rest := u[1..];
      CountIsAtLeastLength(rest);
      assert forall i :: 1 <= i < |u| ==> u[i] == rest[i - 1];
      assert TameUnknowns(u, depth) ==> TameUnknowns(rest, depth);
      if u[0].Group? {
        SpendIsExact(u[0].fields, remaining, depth + 1);
        var inner := SpendUnknowns(u[0].fields, remaining, depth + 1);
        if inner.Some? {
          ScanIsExact(rest, inner.value, depth);
        }
      } else {
        ScanIsExact(rest, remaining, depth);
      }
    }
  }

  lemma {:induction false} TextsAreChecked(texts: seq<Bytes>)
    ensures CheckTexts(texts).None? <==> forall i :: 0 <= i < |texts| ==> TameText(texts[i])
    ensures CheckTexts(texts).None? || CheckTexts(texts).value == LimitExceeded || CheckTexts(texts).value == InvalidFields
  {
    hide Utf8.Valid;
    if texts != [] {
      TextsAreChecked(texts[1..]);
      assert forall i :: 1 <= i < |texts| ==> texts[i] == texts[1..][i - 1];
    }
  }

  ghost predicate Exact(v: Verdict, b: Budget, tame: bool, nodes: nat, unknowns: nat) {
    if tame && nodes <= b.nodes && unknowns <= b.unknowns
    then v == Within(Budget(b.nodes - nodes, b.unknowns - unknowns))
    else v.Exceeds? && (v.code == LimitExceeded || v.code == InvalidFields)
  }

  /** The walk accepts a tree exactly when it is tame and both totals fit, and it spends exactly
      those totals, whatever the order in which it meets the messages. */
  lemma {:induction false} CheckIsExact(n: Node, b: Budget)
    ensures Exact(CheckMessage(n, b), b, Tame(n), NodeCount(n), UnknownsOf(n))
    decreases n, 1
  {
    if b.nodes > 0 {
      SpendIsExact(n.unknown, b.unknowns, 0);
      var left := SpendUnknowns(n.unknown, b.unknowns, 0);
      if left.Some? {
        FieldsAreExact(n.fields, Budget(b.nodes - 1, left.value));
      }
    }
  }

  lemma {:induction false} FieldsAreExact(fields: seq<Field>, b: Budget)
    ensures Exact(CheckFields(fields, b), b, forall i :: 0 <= i < |fields| ==> TameField(fields[i]),
                  FieldsCount(fields), UnknownsOfFields(fields))
    decreases fields, 0
  {
    if fields != [] {
      var rest := fields[1..];
      assert forall i :: 1 <= i < |fields| ==> fields[i] == rest[i - 1];
      FieldIsExact(fields[0], b);
      var first := CheckField(fields[0], b);
      if first.Within? {
        FieldsAreExact(rest, first.left);
      }
    }
  }

  lemma {:induction false} FieldIsExact(f: Field, b: Budget)
    ensures Exact(CheckField(f, b), b, TameField(f), if f.Children? then ChildrenCount(f.nodes) else 0,
                  if f.Children? then UnknownsOfChildren(f.nodes) else 0)
    decreases f, 1
  {
    match f
    case Scalar(_) =>
    case Texts(_, texts, _) => TextsAreChecked(texts);
    case Children(_, nodes) => AllAreExact(nodes, b);
  }

  lemma {:induction false} AllAreExact(nodes: seq<Node>, b: Budget)
    ensures Exact(CheckAll(nodes, b), b, forall i :: 0 <= i < |nodes| ==> Tame(nodes[i]),
                  ChildrenCount(nodes), UnknownsOfChildren(nodes))
    decreases nodes, 0
  {
    if nodes != [] {
      var rest := nodes[1..];
      assert forall i :: 1 <= i < |nodes| ==> nodes[i] == rest[i - 1];
      CheckIsExact(nodes[0], b);
      var first := CheckMessage(nodes[0], b);
      if first.Within? {
        AllAreExact(rest, first.left);
      }
    }
  }

  // ---- which reason it gives ----------------------------------------------------------------

  /** Every text in the tree is UTF-8. */
  predicate Clean(n: Node)
    decreases n
  {
    forall i :: 0 <= i < |n.fields| ==> CleanField(n.fields[i])
  }
  predicate CleanField(f: Field)
    decreases f
  {
    match f
    case Scalar(_) => true
    case Texts(_, texts, _) => forall i :: 0 <= i < |texts| ==> Utf8.Valid(texts[i])
    case Children(_, nodes) => forall i :: 0 <= i < |nodes| ==> Clean(nodes[i])
  }

  /** Every list, text and unknown set in the tree keeps its own bound. */
  predicate Bounded(n: Node)
    decreases n
  {
    TameUnknowns(n.unknown, 0) && forall i :: 0 <= i < |n.fields| ==> BoundedField(n.fields[i])
  }
  predicate BoundedField(f: Field)
    decreases f
  {
    match f
    case Scalar(_) => true
    case Texts(_, texts, _) =>
      |texts| <= MAX_ENTRIES && forall i :: 0 <= i < |texts| ==> |texts[i]| <= MAX_STRING_BYTES
    case Children(_, nodes) => |nodes| <= MAX_ENTRIES && forall i :: 0 <= i < |nodes| ==> Bounded(nodes[i])
  }

  ghost predicate Reasoned(v: Verdict, b: Budget, clean: bool, bounded: bool, nodes: nat, unknowns: nat) {
    v.Exceeds? ==>
      && (clean ==> v.code == LimitExceeded)
      && (bounded && nodes <= b.nodes && unknowns <= b.unknowns ==> v.code == InvalidFields)
  }

  /** The walk names a reason that applies: a limit if all texts are UTF-8, the fields if all limits
      are kept. */
  lemma {:induction false} CodeIsTheReason(n: Node, b: Budget)
    ensures Reasoned(CheckMessage(n, b), b, Clean(n), Bounded(n), NodeCount(n), UnknownsOf(n))
    decreases n, 1
  {
    if b.nodes > 0 {
      SpendIsExact(n.unknown, b.unknowns, 0);
      var left := SpendUnknowns(n.unknown, b.unknowns, 0);
      if left.Some? {
        FieldsReason(n.fields, Budget(b.nodes - 1, left.value));
      }
    }
  }

  lemma {:induction false} FieldsReason(fields: seq<Field>, b: Budget)
    ensures Reasoned(CheckFields(fields, b), b, forall i :: 0 <= i < |fields| ==> CleanField(fields[i]),
                     forall i :: 0 <= i < |fields| ==> BoundedField(fields[i]),
                     FieldsCount(fields), UnknownsOfFields(fields))
    decreases fields, 0
  {
    if fields != [] {
      var rest := fields[1..];
      assert forall i :: 1 <= i < |fields| ==> fields[i] == rest[i - 1];
      FieldReason(fields[0], b);
      FieldIsExact(fields[0], b);
      var first := CheckField(fields[0], b);
      if first.Within? {
        FieldsReason(rest, first.left);
      }
    }
  }

  lemma {:induction false} FieldReason(f: Field, b: Budget)
    ensures Reasoned(CheckField(f, b), b, CleanField(f), BoundedField(f),
                     if f.Children? then ChildrenCount(f.nodes) else 0,
                     if f.Children? then UnknownsOfChildren(f.nodes) else 0)
    decreases f, 1
  {
    match f
    case Scalar(_) =>
    case Texts(_, texts, _) => TextsReason(texts);
    case Children(_, nodes) => AllReason(nodes, b);
  }

  lemma {:induction false} TextsReason(texts: seq<Bytes>)
    ensures CheckTexts(texts).Some? ==>
              && ((forall i :: 0 <= i < |texts| ==> Utf8.Valid(texts[i])) ==> CheckTexts(texts).value == LimitExceeded)
              && ((forall i :: 0 <= i < |texts| ==> |texts[i]| <= MAX_STRING_BYTES) ==>
                    CheckTexts(texts).value == InvalidFields)
  {
    hide Utf8.Valid;
    if texts != [] {
      TextsReason(texts[1..]);
      assert forall i :: 1 <= i < |texts| ==> texts[i] == texts[1..][i - 1];
    }
  }

  lemma {:induction false} AllReason(nodes: seq<Node>, b: Budget)
    ensures Reasoned(CheckAll(nodes, b), b, forall i :: 0 <= i < |nodes| ==> Clean(nodes[i]),
                     forall i :: 0 <= i < |nodes| ==> Bounded(nodes[i]),
                     ChildrenCount(nodes), UnknownsOfChildren(nodes))
    decreases nodes, 0
  {
    if nodes != [] {
      var rest := nodes[1..];
      assert forall i :: 1 <= i < |nodes| ==> nodes[i] == rest[i - 1];
      CodeIsTheReason(nodes[0], b);
      CheckIsExact(nodes[0], b);
      var first := CheckMessage(nodes[0], b);
      if first.Within? {
        AllReason(rest, first.left);
      }
    }
  }

  // ---- the walk as it runs: loops over fields and entries, budgets updated in place ---------

  method BoundedUnknowns(u: Unknowns, remaining: nat, depth: nat) returns (ok: bool, left: nat)
    ensures SpendUnknowns(u, remaining, depth) == if ok then Some(left) else None
    decreases u
  {
    if depth > MAX_RECURSION_DEPTH || |u| > remaining {
      return false, remaining;
    }
    left := remaining - |u|;
    for index := 0 to |u|
      invariant ScanUnknowns(u, remaining - |u|, depth) == ScanUnknowns(u[index..], left, depth)
    {
      assert u[index..][1..] == u[index + 1..];
      if u[index].Delimited? && u[index].length > MAX_STRING_BYTES {
        return false, left;
      }
      if u[index].Group? {
        ok, left := BoundedUnknowns(u[index].fields, left, depth + 1);
        if !ok {
          return;
        }
      }
    }
    ok := true;
  }

  method ValidateMessage(n: Node, budget: Budget) returns (verdict: Verdict)
    ensures verdict == CheckMessage(n, budget)
    decreases n, 1
  {
    if budget.nodes == 0 {
      return Exceeds(LimitExceeded);
    }
    var ok, unknowns := BoundedUnknowns(n.unknown, budget.unknowns, 0);
    if !ok {
      return Exceeds(LimitExceeded);
    }
    var left := Budget(budget.nodes - 1, unknowns);
    for i := 0 to |n.fields|
      invariant CheckMessage(n, budget) == CheckFields(n.fields[i..], left)
    {
      assert n.fields[i..][1..] == n.fields[i + 1..];
      verdict := ValidateField(n.fields[i], left);
      if verdict.Exceeds? {
        return;
      }
      left := verdict.left;
    }
    return Within(left);
  }

  method ValidateField(f: Field, budget: Budget) returns (verdict: Verdict)
    ensures verdict == CheckField(f, budget)
    decreases f, 0
  {
    hide Utf8.Valid;
    verdict := Within(budget);
    var count := if f.Texts? then |f.texts| else if f.Children? then |f.nodes| else 1;
    if count > MAX_ENTRIES {
      return Exceeds(LimitExceeded);
    }
    for index := 0 to count
      invariant verdict.Within?
      invariant f.Texts? ==> verdict == Within(budget) && CheckTexts(f.texts) == CheckTexts(f.texts[index..])
      invariant f.Children? ==> CheckField(f, budget) == CheckAll(f.nodes[index..], verdict.left)
      invariant f.Scalar? ==> verdict == Within(budget)
    {
      if f.Children? {
        assert f.nodes[index..][1..] == f.nodes[index + 1..];
        verdict := ValidateMessage(f.nodes[index], verdict.left);
        if verdict.Exceeds? {
          return;
        }
      } else if f.Texts? {
        assert f.texts[index..][1..] == f.texts[index + 1..];
        if |f.texts[index]| > MAX_STRING_BYTES {
          return Exceeds(LimitExceeded);
        }
        if !Utf8.Valid(f.texts[index]) {
          return Exceeds(InvalidFields);
        }
      }
    }
  }

  // ---- dropping unknown fields --------------------------------------------------------------

  lemma {:induction false} VarintMonotone(a: nat, b: nat)
    requires a <= b
    ensures VarintSize(a) <= VarintSize(b)
  {
    if a >= 128 {
      VarintMonotone(a / 128, b / 128);
    }
  }

  /** Dropping the unknown fields keeps the messages, the limits, and never lengthens the wire. */
  lemma {:induction false} StripIsSmaller(n: Node)
    ensures NodeCount(Strip(n)) == NodeCount(n) && UnknownsOf(Strip(n)) == 0
    ensures ByteSize(Strip(n)) <= ByteSize(n)
    ensures Tame(n) ==> Tame(Strip(n))
    decreases n, 1
  {
    StripFieldsIsSmaller(n.fields);
  }

  lemma {:induction false} StripFieldsIsSmaller(fields: seq<Field>)
    ensures FieldsCount(StripFields(fields)) == FieldsCount(fields) && UnknownsOfFields(StripFields(fields)) == 0
    ensures FieldsBytes(StripFields(fields)) <= FieldsBytes(fields)
    ensures (forall i :: 0 <= i < |fields| ==> TameField(fields[i]))
            ==> forall i :: 0 <= i < |fields| ==> TameField(StripFields(fields)[i])
    decreases fields, 0
  {
    if fields != [] {
      var rest, stripped := fields[1..], StripFields(fields);
      assert stripped[1..] == StripFields(rest);
      assert forall i :: 1 <= i < |fields| ==> fields[i] == rest[i - 1] && stripped[i] == StripFields(rest)[i - 1];
      StripFieldsIsSmaller(rest);
      if fields[0].Children? {
        StripAllIsSmaller(fields[0].tag, fields[0].nodes);
      }
    }
  }

  lemma {:induction false} StripAllIsSmaller(tag: nat, nodes: seq<Node>)
    ensures ChildrenCount(StripAll(nodes)) == ChildrenCount(nodes) && UnknownsOfChildren(StripAll(nodes)) == 0
    ensures ChildrenBytes(tag, StripAll(nodes)) <= ChildrenBytes(tag, nodes)
    ensures (forall i :: 0 <= i < |nodes| ==> Tame(nodes[i]))
            ==> forall i :: 0 <= i < |nodes| ==> Tame(StripAll(nodes)[i])
    decreases nodes, 0
  {
    if nodes != [] {
      var rest, stripped := nodes[1..], StripAll(nodes);
      assert stripped[1..] == StripAll(rest);
      assert forall i :: 1 <= i < |nodes| ==> nodes[i] == rest[i - 1] && stripped[i] == StripAll(rest)[i - 1];
      StripIsSmaller(nodes[0]);
      StripAllIsSmaller(tag, rest);
      VarintMonotone(ByteSize(stripped[0]), ByteSize(nodes[0]));
    }
  }
}
