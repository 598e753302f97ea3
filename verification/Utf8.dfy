/** Bytes, well-formed UTF-8 (section 4 of RFC 3629) and Rust's string slices.

    A Rust `&str` is a well-formed byte string, and slicing one off a character boundary panics.
    `Str` is such a string and `Slice` demands both boundaries, so a verified caller cannot panic.
 */
module Utf8 {

  type Byte = b: int | 0 <= b < 256

  /** A continuation byte, `10xxxxxx`. */
  predicate IsCont(b: Byte) {
    0x80 <= b < 0xC0
  }

  predicate Lead3(a: Byte, b: Byte) {
    || (a == 0xE0 && 0xA0 <= b < 0xC0)
    || (0xE1 <= a <= 0xEF && a != 0xED && IsCont(b))
    || (a == 0xED && 0x80 <= b < 0xA0)
  }

  predicate Lead4(a: Byte, b: Byte) {
    || (a == 0xF0 && 0x90 <= b < 0xC0)
    || (0xF1 <= a <= 0xF3 && IsCont(b))
    || (a == 0xF4 && 0x80 <= b < 0x90)
  }

  /** The length of the character `s` starts with, or 0 when no well-formed character does. */
  function CharLen(s: seq<Byte>): (k: nat)
    ensures k <= |s|
    ensures k > 0 ==> !IsCont(s[0]) && forall j :: 0 < j < k ==> IsCont(s[j])
  {
    if |s| >= 1 && s[0] < 0x80 then 1
    else if |s| >= 2 && 0xC2 <= s[0] < 0xE0 && IsCont(s[1]) then 2
    else if |s| >= 3 && Lead3(s[0], s[1]) && IsCont(s[2]) then 3
    else if |s| >= 4 && Lead4(s[0], s[1]) && IsCont(s[2]) && IsCont(s[3]) then 4
    else 0
  }

  predicate WellFormed(s: seq<Byte>)
    decreases |s|
  {
    s == [] || (CharLen(s) > 0 && WellFormed(s[CharLen(s)..]))
  }

  type Str = s: seq<Byte> | WellFormed(s)

  /** `str::is_char_boundary`, which looks at one byte only. */
  predicate IsBoundary(s: seq<Byte>, i: nat)
    requires i <= |s|
  {
    i == 0 || i == |s| || !IsCont(s[i])
  }

  lemma SlicesOfSlices(s: seq<Byte>, k: nat, i: nat)
    requires k <= i <= |s|
    ensures s[k..][i - k..] == s[i..] && s[k..][..i - k] == s[..i][k..]
  {
  }

  /** The one-byte test finds exactly the positions that split a string into two strings. */
  lemma {:induction false} BoundaryIffSplit(s: Str, i: nat)
    requires i <= |s|
    ensures IsBoundary(s, i) <==> WellFormed(s[..i]) && WellFormed(s[i..])
    decreases |s|
  {
    if i == 0 || i == |s| {
      assert s[..|s|] == s && s[0..] == s;
    } else {
      var k := CharLen(s);
      if k <= i {
        var rest := s[k..];
        BoundaryIffSplit(rest, i - k);
        var head := s[..i];
        assert CharLen(head) == k;
        SlicesOfSlices(s, k, i);
      }
    }
  }

  lemma CharLenOfConcat(a: seq<Byte>, b: seq<Byte>)
    requires CharLen(a) > 0
    ensures CharLen(a + b) == CharLen(a)
  {
    var s := a + b;
    assert s[0] == a[0];
    assert |a| >= 2 ==> s[1] == a[1];
    assert |a| >= 3 ==> s[2] == a[2];
    assert |a| >= 4 ==> s[3] == a[3];
  }

  lemma TailOfConcat(a: seq<Byte>, b: seq<Byte>, k: nat)
    requires k <= |a|
    ensures (a + b)[k..] == a[k..] + b
  {
  }

  lemma OneCharMore(s: seq<Byte>, rest: seq<Byte>)
    requires CharLen(s) > 0 && s[CharLen(s)..] == rest && WellFormed(rest)
    ensures WellFormed(s)
  {
  }

  lemma {:induction false} ConcatWellFormed(a: Str, b: Str)
    ensures WellFormed(a + b)
    decreases |a|
  {
    if a == [] {
      assert a + b == b;
    } else {
      var rest := a[CharLen(a)..];
      CharLenOfConcat(a, b);
      TailOfConcat(a, b, CharLen(a));
      ConcatWellFormed(rest, b);
      OneCharMore(a + b, rest + b);
    }
  }

  /** An ASCII byte is a character of its own: both of its ends are boundaries. */
  lemma {:induction false} AsciiIsBoundary(s: Str, i: nat)
    requires i < |s| && s[i] < 0x80
    ensures IsBoundary(s, i) && IsBoundary(s, i + 1)
    decreases |s|
  {
    var k := CharLen(s);
    if i >= k {
      AsciiIsBoundary(s[k..], i - k);
    } else {
      assert i == 0 && k == 1;
      if 1 < |s| {
        assert WellFormed(s[k..]) && s[k..] != [];
      }
    }
  }

  /** What the byte-level scanners need of a string: a character starts after every ASCII byte. */
  predicate AsciiCuts(s: seq<Byte>) {
    forall i :: 0 < i < |s| && s[i - 1] < 0x80 ==> !IsCont(s[i])
  }

  /** The same, byte after byte. */
  predicate Cuts(s: seq<Byte>)
    decreases |s|
  {
    s == [] || ((|s| > 1 && s[0] < 0x80 ==> !IsCont(s[1])) && Cuts(s[1..]))
  }

  lemma {:induction false} CutsIff(s: seq<Byte>)
    ensures Cuts(s) <==> AsciiCuts(s)
    decreases |s|
  {
    if s != [] {
      CutsIff(s[1..]);
      assert AsciiCuts(s[1..]) <==> forall i :: 1 < i < |s| && s[i - 1] < 0x80 ==> !IsCont(s[i]) by {
        assert forall i :: 1 <= i < |s| ==> s[i] == s[1..][i - 1];
        assert forall i :: 0 <= i < |s| - 1 ==> s[1..][i] == s[i + 1];
      }
    }
  }

  lemma StrHasAsciiCuts(s: Str)
    ensures AsciiCuts(s)
  {
    forall i | 0 < i < |s| && s[i - 1] < 0x80 ensures !IsCont(s[i]) {
      AsciiIsBoundary(s, i - 1);
    }
  }

  lemma StrHasCuts(s: Str)
    ensures Cuts(s)
  {
    StrHasAsciiCuts(s);
    CutsIff(s);
  }

  lemma {:induction false} AsciiWellFormed(s: seq<Byte>)
    requires forall i :: 0 <= i < |s| ==> s[i] < 0x80
    ensures WellFormed(s)
    decreases |s|
  {
    if s != [] {
      AsciiWellFormed(s[1..]);
    }
  }

  /** `&s[from..to]`, which panics unless both ends are boundaries. */
  function Slice(s: seq<Byte>, from: nat, to: nat): (r: seq<Byte>)
    requires from <= to <= |s| && IsBoundary(s, from) && IsBoundary(s, to)
  {
    s[from..to]
  }

  lemma SliceWellFormed(s: Str, from: nat, to: nat)
    requires from <= to <= |s| && IsBoundary(s, from) && IsBoundary(s, to)
    ensures WellFormed(Slice(s, from, to))
  {
    BoundaryIffSplit(s, to);
    BoundaryIffSplit(s[..to], from);
  }

  // ---------------------------------------------------------------------------------------------
  // Characters

  /** A character number (section 3 of RFC 3629): up to U+10FFFF, and no surrogate. */
  predicate IsScalar(c: int) {
    0 <= c < 0xD800 || 0xE000 <= c < 0x11_0000
  }

  /** Its octets, by the table of that section. */
  function Encode(c: int): seq<Byte>
    requires IsScalar(c)
  {
    if c < 0x80 then [c]
    else if c < 0x800 then [0xC0 + c / 64, 0x80 + c % 64]
    else if c < 0x1_0000 then [0xE0 + c / 4096, 0x80 + c / 64 % 64, 0x80 + c % 64]
    else [0xF0 + c / 262_144, 0x80 + c / 4096 % 64, 0x80 + c / 64 % 64, 0x80 + c % 64]
  }

  /** The encoding of a character, whatever follows, is one character. */
  lemma EncodedIsChar(c: int, rest: seq<Byte>)
    requires IsScalar(c)
    ensures CharLen(Encode(c) + rest) == |Encode(c)|
  {
    var s, e := Encode(c) + rest, Encode(c);
    assert s[0] == e[0];
    assert |e| >= 2 ==> s[1] == e[1];
    assert |e| >= 3 ==> s[2] == e[2];
    assert |e| >= 4 ==> s[3] == e[3];
  }

  /** Six more bits. */
  function More(high: int, b: int): int {
    high * 64 + (b - 0x80)
  }

  function NumberAt(s: seq<Byte>): int
    requires CharLen(s) > 0
  {
    match CharLen(s)
    case 1 => s[0]
    case 2 => More(s[0] as int - 0xC0, s[1])
    case 3 => More(More(s[0] as int - 0xE0, s[1]), s[2])
    case _ => More(More(More(s[0] as int - 0xF0, s[1]), s[2]), s[3])
  }

  lemma MoreSplits(high: int, b: int)
    requires 0 <= high && 0x80 <= b < 0xC0
    ensures More(high, b) / 64 == high && More(high, b) % 64 == b - 0x80
  {
  }

  lemma TwoBytes(a: int, b: int)
    requires 0xC2 <= a < 0xE0 && 0x80 <= b < 0xC0
    ensures var c := More(a - 0xC0, b); IsScalar(c) && Encode(c) == [a, b]
  {
    MoreSplits(a - 0xC0, b);
  }

  lemma ThreeBytes(a: Byte, b: Byte, c: Byte)
    requires Lead3(a, b) && IsCont(c)
    ensures var n := More(More(a as int - 0xE0, b), c); IsScalar(n) && Encode(n) == [a, b, c]
  {
    var m: int := More(a as int - 0xE0, b);
    MoreSplits(a as int - 0xE0, b);
    MoreSplits(m, c);
    var n := More(m, c);
    assert n / 4096 == m / 64;
  }

  lemma FourBytes(a: Byte, b: Byte, c: Byte, d: Byte)
    requires Lead4(a, b) && IsCont(c) && IsCont(d)
    ensures var n := More(More(More(a as int - 0xF0, b), c), d); IsScalar(n) && Encode(n) == [a, b, c, d]
  {
    var m: int := More(a as int - 0xF0, b);
    var k: int := More(m, c);
    MoreSplits(a as int - 0xF0, b);
    MoreSplits(m, c);
    MoreSplits(k, d);
    var n := More(k, d);
    assert n / 4096 == k / 64 && n / 262_144 == m / 64;
  }

  /** And a character is the encoding of a number: shortest form, no surrogate, nothing past U+10FFFF. */
  lemma CharIsEncoded(s: seq<Byte>)
    requires CharLen(s) > 0
    ensures IsScalar(NumberAt(s)) && s[..CharLen(s)] == Encode(NumberAt(s))
  {
    match CharLen(s)
    case 1 =>
    case 2 => TwoBytes(s[0], s[1]);
    case 3 => ThreeBytes(s[0], s[1], s[2]);
    case _ => FourBytes(s[0], s[1], s[2], s[3]);
  }
}
