/** Byte texts and the few facts about concatenation that several modules need. */
module Texts {
  import opened Utf8

  type Text = seq<Byte>

  predicate IsAscii(s: string) {
    forall i :: 0 <= i < |s| ==> s[i] < 128 as char
  }

  /** The bytes of an ASCII text. */
  function Lit(s: string): (r: Text)
    requires IsAscii(s)
    ensures |r| == |s| && forall i :: 0 <= i < |s| ==> r[i] == s[i] as int
  {
    seq(|s|, i requires 0 <= i < |s| => s[i] as int)
  }

  /** A lowercase hexadecimal digit as a byte. */
  function HexByte(n: int): (b: Byte)
    requires 0 <= n < 16
  {
    if n < 10 then 0x30 + n else 0x61 + n - 10
  }

  lemma CancelPrefix(p: seq<Byte>, x: seq<Byte>, y: seq<Byte>)
    ensures p + x == p + y <==> x == y
  {
    assert (p + x)[|p|..] == x && (p + y)[|p|..] == y;
  }

  lemma Associate(a: seq<Byte>, b: seq<Byte>, c: seq<Byte>)
    ensures a + b + c == a + (b + c)
  {
  }
}
