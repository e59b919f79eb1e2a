/** Structural UTF-8 validity, by the byte-range table of section 4 of RFC 3629. */
module Utf8 {
  import opened Contracts

  predicate Tail(b: byte) { 0x80 <= b <= 0xBF }

  /** Length of the well-formed character at the head of `s`; zero when there is none. */
  function HeadLength(s: Bytes): (n: nat)
    requires s != []
    ensures n <= |s|
  {
    var a := s[0];
    if a <= 0x7F then 1
    else if |s| >= 2 && 0xC2 <= a <= 0xDF && Tail(s[1]) then 2
    else if |s| >= 3 && Tail(s[2])
         && ((a == 0xE0 && 0xA0 <= s[1] <= 0xBF) || (0xE1 <= a <= 0xEC && Tail(s[1]))
             || (a == 0xED && 0x80 <= s[1] <= 0x9F) || (0xEE <= a <= 0xEF && Tail(s[1]))) then 3
    else if |s| >= 4 && Tail(s[2]) && Tail(s[3])
         && ((a == 0xF0 && 0x90 <= s[1] <= 0xBF) || (0xF1 <= a <= 0xF3 && Tail(s[1]))
             || (a == 0xF4 && 0x80 <= s[1] <= 0x8F)) then 4
    else 0
  }

  predicate Valid(s: Bytes) {
    s == [] || (HeadLength(s) > 0 && Valid(s[HeadLength(s)..]))
  }

  lemma {:induction false} Concatenation(a: Bytes, b: Bytes)
    requires Valid(a)
    ensures Valid(a + b) <==> Valid(b)
    decreases |a|
  {
    if a == [] {
      assert a + b == b;
    } else {
      var n := HeadLength(a);
      assert HeadLength(a + b) == n;
      assert (a + b)[n..] == a[n..] + b;
      Concatenation(a[n..], b);
    }
  }

  // ---- what it decides: the encodings of Unicode scalar values, section 3 of RFC 3629 --------

  predicate IsScalar(c: nat) { c <= 0x10FFFF && !(0xD800 <= c <= 0xDFFF) }

  function Character(c: nat): Bytes
    requires IsScalar(c)
  {
    if c <= 0x7F then [c]
    else if c <= 0x7FF then [0xC0 + c / 64, 0x80 + c % 64]
    else if c <= 0xFFFF then [0xE0 + c / 4096, 0x80 + c / 64 % 64, 0x80 + c % 64]
    else [0xF0 + c / 262144, 0x80 + c / 4096 % 64, 0x80 + c / 64 % 64, 0x80 + c % 64]
  }

  function Characters(text: seq<nat>): Bytes
    requires forall i :: 0 <= i < |text| ==> IsScalar(text[i])
  {
    if text == [] then [] else Character(text[0]) + Characters(text[1..])
  }

  lemma CharacterIsHead(c: nat, rest: Bytes)
    requires IsScalar(c)
    ensures HeadLength(Character(c) + rest) == |Character(c)|
  {
    if c > 0xFFFF {
      LongIsHead(c, rest);
    } else if c > 0x7FF {
      MiddleIsHead(c, rest);
    }
  }

  lemma MiddleIsHead(c: nat, rest: Bytes)
    requires IsScalar(c) && 0x7FF < c <= 0xFFFF
    ensures HeadLength(Character(c) + rest) == 3
  {
    var l, a := c / 4096, c / 64 % 64;
    assert c / 64 == l * 64 + a;
    var s := Character(c) + rest;
    assert s[0] == 0xE0 + l && s[1] == 0x80 + a && Tail(s[2]);
  }

  lemma LongIsHead(c: nat, rest: Bytes)
    requires IsScalar(c) && 0xFFFF < c
    ensures HeadLength(Character(c) + rest) == 4
  {
    var l, a := c / 262144, c / 4096 % 64;
    assert c / 4096 == l * 64 + a;
    var s := Character(c) + rest;
    assert s[0] == 0xF0 + l && s[1] == 0x80 + a && Tail(s[2]) && Tail(s[3]);
  }

  lemma Digits(l: nat, a: nat, b: nat, d: nat)
    requires a < 64 && b < 64 && d < 64
    ensures var c := ((l * 64 + a) * 64 + b) * 64 + d;
            c / 262144 == l && c / 4096 == l * 64 + a && c / 4096 % 64 == a && c / 64 % 64 == b && c % 64 == d
  {
    var ab := (l * 64 + a) * 64 + b;
    var c := ab * 64 + d;
    assert c / 64 == ab;
    assert c / 4096 == ab / 64 == l * 64 + a;
    assert c / 262144 == l;
  }

  /** The number in the low six bits of a continuation byte. */
  function Low(b: int): int { b - 0x80 }

  lemma HeadIsCharacter(s: Bytes) returns (c: nat)
    requires s != [] && HeadLength(s) > 0
    ensures IsScalar(c) && s[..HeadLength(s)] == Character(c)
  {
    var n, lead: int := HeadLength(s), s[0];
    if n == 1 {
      c := lead;
    } else if n == 2 {
      c := (lead - 0xC0) * 64 + Low(s[1]);
    } else if n == 3 {
      c := ((lead - 0xE0) * 64 + Low(s[1])) * 64 + Low(s[2]);
      Digits(0, lead - 0xE0, Low(s[1]), Low(s[2]));
      assert c / 4096 == lead - 0xE0;
    } else {
      c := FourBytes(s);
    }
  }

  lemma FourBytes(s: Bytes) returns (c: nat)
    requires s != [] && HeadLength(s) == 4
    ensures IsScalar(c) && s[..4] == Character(c)
  {
    var l: int := s[0];
    l := l - 0xF0;
    Digits(l, Low(s[1]), Low(s[2]), Low(s[3]));
    c := ((l * 64 + Low(s[1])) * 64 + Low(s[2])) * 64 + Low(s[3]);
  }

  /** Every sequence of scalar values is encoded as valid bytes. */
  lemma {:induction false} CharactersAreValid(text: seq<nat>)
    requires forall i :: 0 <= i < |text| ==> IsScalar(text[i])
    ensures Valid(Characters(text))
  {
    hide HeadLength, Character;
    if text != [] {
      var rest := Characters(text[1..]);
      CharactersAreValid(text[1..]);
      CharacterIsHead(text[0], rest);
      assert (Character(text[0]) + rest)[|Character(text[0])|..] == rest;
    }
  }

  /** And valid bytes are nothing else. */
  lemma {:induction false} ValidIsCharacters(s: Bytes) returns (text: seq<nat>)
    requires Valid(s)
    ensures forall i :: 0 <= i < |text| ==> IsScalar(text[i])
    ensures Characters(text) == s
    decreases |s|
  {
    hide HeadLength, Character;
    text := [];
    if s != [] {
      var c := HeadIsCharacter(s);
      var rest := ValidIsCharacters(s[HeadLength(s)..]);
      text := [c] + rest;
      assert text[1..] == rest && s == s[..HeadLength(s)] + s[HeadLength(s)..];
    }
  }

  lemma {:induction false} AsciiIsValid(s: Bytes)
    requires forall i :: 0 <= i < |s| ==> s[i] <= 0x7F
    ensures Valid(s)
    decreases |s|
  {
    if s != [] {
      AsciiIsValid(s[1..]);
    }
  }
}
