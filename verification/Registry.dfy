/** Lexicographic order of byte strings, as std::string compares. */
module ByteOrder {
  import opened Contracts

  predicate Less(a: Bytes, b: Bytes) {
    b != [] && (a == [] || a[0] < b[0] || (a[0] == b[0] && Less(a[1..], b[1..])))
  }

  lemma {:induction false} Irreflexive(a: Bytes)
    ensures !Less(a, a)
  {
    if a != [] {
      Irreflexive(a[1..]);
    }
  }

  lemma {:induction false} Transitive(a: Bytes, b: Bytes, c: Bytes)
    requires Less(a, b) && Less(b, c)
    ensures Less(a, c)
  {
    if a != [] && a[0] == b[0] == c[0] {
      Transitive(a[1..], b[1..], c[1..]);
    }
  }

  lemma {:induction false} Trichotomy(a: Bytes, b: Bytes)
    ensures a == b || Less(a, b) || Less(b, a)
  {
    if a != [] && b != [] && a[0] == b[0] {
      Trichotomy(a[1..], b[1..]);
      assert a == [a[0]] + a[1..] && b == [b[0]] + b[1..];
    }
  }

  /** Strictly increasing: sorted and free of duplicates. */
  predicate Increasing(names: seq<Bytes>) {
    forall i, j :: 0 <= i < j < |names| ==> Less(names[i], names[j])
  }
}

/** Trusted class registration. A plugin is any deterministic behaviour over an instance type I:
    it may refuse to clone, report a wrong state, or mutate its candidate and then fail. */
module Registry {
  import opened Contracts
  import opened Validation
  import opened ByteOrder

  const MAX_OBJECT_STATE_BYTES := MAX_PAYLOAD_BYTES / 2

  datatype Creation<+I> = CreateFailed(code: ErrorCode) | Created(instance: Option<I>)
  datatype Invocation = InvokeFailed(code: ErrorCode) | Returned(value: Value)

  datatype ClassDefinition<!I> = ClassDefinition(
    description: ClassDescription,
    create: Option<seq<NamedValue> -> Creation<I>>,
    clone: I -> Option<I>,
    state: I -> seq<NamedValue>,
    invoke: (I, Bytes, seq<NamedValue>) -> (I, Invocation),
    maxStateBytes: nat)

  predicate Admissible<I>(d: ClassDefinition<I>) {
    && ValidDescription(d.description)
    && d.create.Some?
    && 0 < d.maxStateBytes <= MAX_OBJECT_STATE_BYTES
  }

  function ClassNames<I>(definitions: seq<ClassDefinition<I>>): seq<Bytes> {
    seq(|definitions|, i requires 0 <= i < |definitions| => definitions[i].description.name)
  }

  ghost predicate ValidRegistry<I>(definitions: seq<ClassDefinition<I>>) {
    && |definitions| <= MAX_ENTRIES
    && Increasing(ClassNames(definitions))
    && forall i :: 0 <= i < |definitions| ==> Admissible(definitions[i])
  }

  /** The first definition with this class name. */
  function Lookup<I>(definitions: seq<ClassDefinition<I>>, name: Bytes): (found: Option<ClassDefinition<I>>)
    ensures found.Some? ==> found.value in definitions && found.value.description.name == name
    ensures found.Some? <==> name in ClassNames(definitions)
  {
    if definitions == [] then None
    else
      assert ClassNames(definitions) == [definitions[0].description.name] + ClassNames(definitions[1..]);
      if definitions[0].description.name == name then Some(definitions[0])
      else Lookup(definitions[1..], name)
  }

  /** Number of leading names that precede `name`, itself included when `inclusive`. */
  function Rank(names: seq<Bytes>, name: Bytes, inclusive: bool): (k: nat)
    ensures k <= |names|
    ensures forall i :: 0 <= i < k ==> Less(names[i], name) || (inclusive && names[i] == name)
    ensures k < |names| ==> !(Less(names[k], name) || (inclusive && names[k] == name))
  {
    if names == [] || !(Less(names[0], name) || (inclusive && names[0] == name)) then 0
    else 1 + Rank(names[1..], name, inclusive)
  }

  /** A page of class names: the names after the cursor, cut at the limit. */
  function Page(names: seq<Bytes>, after: Bytes, limit: nat): (page: Outcome)
    requires limit > 0
  {
    var from := Rank(names, after, true);
    var to := Min(from + limit, |names|);
    ClassesPage(names[from..to], if to < |names| then names[to - 1] else [])
  }

  function List(names: seq<Bytes>, after: Bytes, limit: u32): Outcome {
    if !ValidName(after, true) || !ValidPageSize(limit) then MakeError(INVALID_REQUEST)
    else Page(names, after, limit)
  }

  lemma InsertKeepsOrder(names: seq<Bytes>, name: Bytes, k: nat)
    requires Increasing(names) && name !in names && k == Rank(names, name, false)
    ensures Increasing(names[..k] + [name] + names[k..])
  {
    var all := names[..k] + [name] + names[k..];
    forall i, j | 0 <= i < j < |all| ensures Less(all[i], all[j]) {
      if i == k {
        assert all[j] == names[j - 1];
        Trichotomy(name, names[k]);
        if j - 1 > k {
          Transitive(name, names[k], names[j - 1]);
        }
      } else if i < k < j {
        assert all[j] == names[j - 1];
        Trichotomy(name, names[k]);
      }
    }
  }

  /** Continuing from a returned name resumes exactly behind it. */
  lemma RankOfMember(names: seq<Bytes>, j: nat)
    requires Increasing(names) && j < |names|
    ensures Rank(names, names[j], true) == j + 1
  {
    hide Less, Rank;
    var k := Rank(names, names[j], true);
    if k > j + 1 {
      assert Less(names[j], names[j + 1]);
      if Less(names[j + 1], names[j]) {
        Transitive(names[j], names[j + 1], names[j]);
      }
      Irreflexive(names[j]);
    }
  }

  /** Names gathered by following cursors from `after`, one page per limit, until a page ends it. */
  function Walk(names: seq<Bytes>, after: Bytes, limits: seq<nat>): seq<Bytes>
    requires forall i :: 0 <= i < |limits| ==> limits[i] > 0
    decreases |limits|
  {
    if limits == [] then []
    else
      var page := Page(names, after, limits[0]);
      if page.nextName == [] then page.names
      else page.names + Walk(names, page.nextName, limits[1..])
  }

  /** A page ends the list, or its cursor stands exactly behind its last name. */
  lemma PageContinues(names: seq<Bytes>, after: Bytes, limit: nat)
    requires Increasing(names) && [] !in names && limit > 0
    ensures var page, from := Page(names, after, limit), Rank(names, after, true);
            && page.ClassesPage?
            && if page.nextName == [] then page.names == names[from..]
               else var to := Rank(names, page.nextName, true);
                    from < to <= |names| && page.names == names[from..to]
  {
    hide Less, Rank, Increasing;
    var from := Rank(names, after, true);
    var to := Min(from + limit, |names|);
    if to < |names| {
      assert names[to - 1] in names;
      RankOfMember(names, to - 1);
    }
  }

  /** Any walk with enough pages enumerates everything behind its cursor once, in order. */
  lemma {:induction false} WalkCovers(names: seq<Bytes>, after: Bytes, limits: seq<nat>)
    requires forall i :: 0 <= i < |limits| ==> limits[i] > 0
    requires Increasing(names) && [] !in names
    requires |names| - Rank(names, after, true) < |limits|
    ensures Walk(names, after, limits) == names[Rank(names, after, true)..]
    decreases |limits|
  {
    hide Page, Rank, Increasing;
    PageContinues(names, after, limits[0]);
    var from, next := Rank(names, after, true), Page(names, after, limits[0]).nextName;
    if next != [] {
      var to := Rank(names, next, true);
      WalkCovers(names, next, limits[1..]);
      assert names[from..] == names[from..to] + names[to..];
    }
  }

  class ClassRegistry<I> {
    var definitions: seq<ClassDefinition<I>>

    ghost predicate Valid() reads this { ValidRegistry(definitions) }

    constructor ()
      ensures Valid() && definitions == []
    {
      definitions := [];
    }

    method Add(d: ClassDefinition<I>) returns (error: Option<Outcome>)
      requires Valid()
      modifies this
      ensures Valid()
      ensures error.None? <==> Admissible(d) && d.description.name !in old(ClassNames(definitions))
                               && |old(definitions)| < MAX_ENTRIES
      ensures error.None? ==> exists k :: 0 <= k <= |old(definitions)|
                                          && definitions == old(definitions)[..k] + [d] + old(definitions)[k..]
      ensures error.Some? ==>
                && definitions == old(definitions)
                && error.value == MakeError(
                     if Admissible(d) && d.description.name !in ClassNames(definitions)
                     then QUOTA_EXCEEDED else INVALID_REQUEST)
    {
      hide Less, Rank, MakeError, ValidDescription;
      var described := CheckDescription(d.description);
      if !described || d.create.None? || d.maxStateBytes == 0 || d.maxStateBytes > MAX_OBJECT_STATE_BYTES
         || Lookup(definitions, d.description.name).Some? {
        return Some(MakeError(INVALID_REQUEST));
      }
      if |definitions| >= MAX_ENTRIES {
        return Some(MakeError(QUOTA_EXCEEDED));
      }
      var names := ClassNames(definitions);
      var k := Rank(names, d.description.name, false);
      InsertKeepsOrder(names, d.description.name, k);
      definitions := definitions[..k] + [d] + definitions[k..];
      assert ClassNames(definitions) == names[..k] + [d.description.name] + names[k..];
      return None;
    }

    method ListClasses(after: Bytes, limit: u32) returns (page: Outcome)
      ensures page == List(ClassNames(definitions), after, limit)
    {
      hide Less, Rank, MakeError, ValidName;
      if !ValidName(after, true) || !ValidPageSize(limit) {
        return MakeError(INVALID_REQUEST);
      }
      var names := ClassNames(definitions);
      var from := Rank(names, after, true);
      var item, found := from, [];
      while item < |definitions| && |found| < limit
        invariant from <= item <= |definitions|
        invariant found == names[from..item] && item - from <= limit
      {
        found := found + [names[item]];
        item := item + 1;
      }
      return ClassesPage(found, if item < |definitions| then found[|found| - 1] else []);
    }
  }
}
