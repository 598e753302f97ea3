/** Decimal text: Rust's `{n:0w}` padding on the way out and the strict digit run on the way in. */
module DecimalText {
  import opened Utf8

  const ZERO: Byte := 0x30

  predicate IsDigit(b: Byte) {
    0x30 <= b <= 0x39
  }

  predicate AllDigits(s: seq<Byte>) {
    forall i :: 0 <= i < |s| ==> IsDigit(s[i])
  }

  function Pow10(w: nat): (p: nat)
    ensures p >= 1
  {
    if w == 0 then 1 else 10 * Pow10(w - 1)
  }

  /** The number a digit run denotes, most significant digit first. */
  function NumberOf(s: seq<Byte>): (n: nat)
    requires AllDigits(s)
  {
    if s == [] then 0 else 10 * NumberOf(s[..|s| - 1]) + (s[|s| - 1] - ZERO)
  }

  /** `{n:0w}`, digit by digit: at least one digit, zeros in front up to width `w`, never truncated. */
  function Pad(n: nat, w: nat): (s: seq<Byte>)
    ensures s != [] && AllDigits(s)
    decreases n + w
  {
    (if n < 10 && w <= 1 then [] else Pad(n / 10, if w == 0 then 0 else w - 1)) + [ZERO + n % 10]
  }

  /** `s` is what `{n:0w}` prints: `n` in decimal, as short as the width allows. */
  predicate Prints(s: seq<Byte>, n: nat, w: nat) {
    && s != [] && AllDigits(s) && |s| >= w
    && NumberOf(s) == n
    && (|s| > w && |s| > 1 ==> s[0] != ZERO)
  }

  lemma AppendDigit(front: seq<Byte>, n: nat, w: nat)
    requires Prints(front, n / 10, if w == 0 then 0 else w - 1) && (n >= 10 || w > 1)
    ensures Prints(front + [ZERO + n % 10], n, w)
  {
    var s := front + [ZERO + n % 10];
    assert s[..|s| - 1] == front && s[0] == front[0];
    assert AllDigits(s);
    assert |front| == 1 ==> NumberOf(front) == front[0] - ZERO by {
      if |front| == 1 {
        assert front[..0] == [];
      }
    }
  }

  lemma {:induction false} PadPrints(n: nat, w: nat)
    ensures Prints(Pad(n, w), n, w)
    decreases n + w
  {
    if n < 10 && w <= 1 {
      assert Pad(n, w) == [ZERO + n] && [ZERO + n][..0] == [];
    } else {
      var w' := if w == 0 then 0 else w - 1;
      PadPrints(n / 10, w');
      AppendDigit(Pad(n / 10, w'), n, w);
    }
  }

  lemma {:induction false} NumberBound(s: seq<Byte>)
    requires AllDigits(s)
    ensures NumberOf(s) < Pow10(|s|)
    ensures s != [] && s[0] != ZERO ==> NumberOf(s) >= Pow10(|s| - 1)
    decreases |s|
  {
    if |s| == 1 {
      assert s[..0] == [];
    } else if s != [] {
      NumberBound(s[..|s| - 1]);
    }
  }

  lemma {:induction false} Pow10Grows(a: nat, b: nat)
    requires a <= b
    ensures Pow10(a) <= Pow10(b)
    decreases b
  {
    if a < b {
      Pow10Grows(a, b - 1);
    }
  }

  lemma {:induction false} SameLengthUnique(s: seq<Byte>, t: seq<Byte>)
    requires AllDigits(s) && AllDigits(t) && |s| == |t| && NumberOf(s) == NumberOf(t)
    ensures s == t
    decreases |s|
  {
    if s != [] {
      var i := |s| - 1;
      SameLengthUnique(s[..i], t[..i]);
      assert s == s[..i] + [s[i]] && t == t[..i] + [t[i]];
    }
  }

  lemma PrintsUnique(s: seq<Byte>, t: seq<Byte>, n: nat, w: nat)
    requires Prints(s, n, w) && Prints(t, n, w)
    ensures s == t
  {
    if |s| != |t| {
      var long, short := if |s| > |t| then s else t, if |s| > |t| then t else s;
      NumberBound(long);
      NumberBound(short);
      Pow10Grows(|short|, |long| - 1);
      assert false;
    }
    SameLengthUnique(s, t);
  }

  /** The text `{n:0w}` prints. */
  ghost function Padded(n: nat, w: nat): (s: seq<Byte>)
    ensures Prints(s, n, w)
  {
    PadPrints(n, w);
    var s :| Prints(s, n, w);
    s
  }

  lemma PaddedIsPad(n: nat, w: nat)
    ensures Padded(n, w) == Pad(n, w)
  {
    PadPrints(n, w);
    PrintsUnique(Padded(n, w), Pad(n, w), n, w);
  }

  /** Padding reaches the width exactly for the numbers that fit it, and exceeds it for the others. */
  lemma PaddedLength(n: nat, w: nat)
    requires w > 0
    ensures |Padded(n, w)| >= w
    ensures |Padded(n, w)| == w <==> n < Pow10(w)
  {
    var s := Padded(n, w);
    NumberBound(s);
    Pow10Grows(w, if |s| > w then |s| - 1 else w);
  }

  lemma PaddedOfNumber(s: seq<Byte>)
    requires s != [] && AllDigits(s)
    ensures Padded(NumberOf(s), |s|) == s
  {
    PrintsUnique(s, Padded(NumberOf(s), |s|), NumberOf(s), |s|);
  }

  lemma PaddedInjective(m: nat, n: nat, w: nat)
    requires Padded(m, w) == Padded(n, w)
    ensures m == n
  {
  }
}
