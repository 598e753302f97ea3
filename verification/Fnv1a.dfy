/** FNV-1a over bytes: the engine's wrapping 64-bit loop and the client generator's four 16-bit limbs
    (draft-eastlake-fnv, section 2). */
module Fnv1a {
  import opened Utf8

  const LIMB: nat := 0x1_0000
  const TWO64: nat := LIMB * LIMB * LIMB * LIMB
  const OFFSET_BASIS: nat := 0xcbf2_9ce4_8422_2325
  const PRIME: nat := 0x100_0000_01b3
  const LIMB_DIGITS: nat := 4
  const HASH_DIGITS: nat := LIMB_DIGITS + LIMB_DIGITS + LIMB_DIGITS + LIMB_DIGITS

  /** Bitwise exclusive or. */
  function Xor(a: nat, b: nat): nat
    decreases a + b
  {
    if a == 0 && b == 0 then 0
    else 2 * Xor(a / 2, b / 2) + (if a % 2 == b % 2 then 0 else 1)
  }

  function Pow2(k: nat): (p: nat)
    ensures p >= 1
  {
    if k == 0 then 1 else 2 * Pow2(k - 1)
  }

  lemma {:induction false} XorWithZero(a: nat)
    ensures Xor(a, 0) == a
    decreases a
  {
    if a > 0 {
      XorWithZero(a / 2);
    }
  }

  lemma {:induction false} XorBound(a: nat, b: nat, k: nat)
    requires a < Pow2(k) && b < Pow2(k)
    ensures Xor(a, b) < Pow2(k)
    decreases k
  {
    if a + b > 0 {
      XorBound(a / 2, b / 2, k - 1);
    }
  }

  /** A narrow operand touches the low bits only. */
  lemma {:induction false} XorLow(high: nat, low: nat, b: nat, k: nat)
    requires low < Pow2(k) && b < Pow2(k)
    ensures Xor(high * Pow2(k) + low, b) == high * Pow2(k) + Xor(low, b)
    decreases k
  {
    if k == 0 {
      XorWithZero(high);
    } else {
      var a, h := high * Pow2(k) + low, high * Pow2(k - 1);
      assert a == 2 * h + low by {
        assert high * Pow2(k) == high * (2 * Pow2(k - 1)) == 2 * h;
      }
      assert a / 2 == h + low / 2 && a % 2 == low % 2;
      XorLow(high, low / 2, b / 2, k - 1);
      if a + b > 0 && low + b == 0 {
        assert Xor(low, b) == 0;
      }
    }
  }

  /** One byte of the reference: exclusive or, then multiply, wrapping at 64 bits. */
  function Fnv(hash: nat, bytes: seq<Byte>): nat
    decreases |bytes|
  {
    if bytes == [] then hash else Fnv((Xor(hash, bytes[0]) * PRIME) % TWO64, bytes[1..])
  }

  /** The hash byte by byte, from its end: exclusive or first, then the multiplication, wrapping (FNV-1a). */
  lemma {:induction false} FnvAppends(hash: nat, bytes: seq<Byte>, b: Byte)
    ensures Fnv(hash, []) == hash
    ensures Fnv(hash, bytes + [b]) == (Xor(Fnv(hash, bytes), b) * 0x100_0000_01b3) % 0x1_0000_0000_0000_0000
    decreases |bytes|
  {
    var all := bytes + [b];
    if bytes == [] {
      assert all[0] == b && all[1..] == [];
    } else {
      assert all[0] == bytes[0] && all[1..] == bytes[1..] + [b];
      FnvAppends((Xor(hash, bytes[0]) * PRIME) % TWO64, bytes[1..], b);
    }
  }

  /** The constants of the 64-bit hash: the prime 2^40 + 2^8 + 0xb3, and the offset basis. */
  lemma Constants()
    ensures PRIME == 1_099_511_627_776 + 256 + 179
    ensures OFFSET_BASIS == 14_695_981_039_346_656_037
    ensures TWO64 == 18_446_744_073_709_551_616
  {
  }

  function Bit(a: nat, k: nat): nat {
    (a / Pow2(k)) % 2
  }

  lemma HalfBits(a: nat, k: nat)
    ensures Bit(a, k + 1) == Bit(a / 2, k)
  {
    DivideTwice(a, Pow2(k));
  }

  lemma DivideTwice(a: nat, p: nat)
    requires p >= 1
    ensures a / (2 * p) == (a / 2) / p
  {
    var q := (a / 2) / p;
    assert a / 2 == q * p + (a / 2) % p;
    assert a == 2 * (q * p) + 2 * ((a / 2) % p) + a % 2;
    var r := 2 * ((a / 2) % p) + a % 2;
    assert 0 <= r < 2 * p && a == q * (2 * p) + r;
    QuotientIs(a, q, 2 * p, r);
  }

  lemma QuotientIs(a: nat, q: nat, k: nat, r: nat)
    requires r < k && a == q * k + r
    ensures a / k == q
  {
    var d := a / k - q;
    assert a == (a / k) * k + a % k;
    assert d * k == r - a % k;
    OnlyZeroMultiple(d, k);
  }

  lemma OnlyZeroMultiple(d: int, k: int)
    requires -k < d * k < k
    ensures d == 0
  {
  }

  /** Exclusive or, bit by bit. */
  lemma {:induction false} XorBits(a: nat, b: nat, k: nat)
    ensures Bit(Xor(a, b), k) == if Bit(a, k) == Bit(b, k) then 0 else 1
    decreases k
  {
    var x := Xor(a, b);
    assert x / 2 == Xor(a / 2, b / 2) && x % 2 == (if a % 2 == b % 2 then 0 else 1);
    if k > 0 {
      XorBits(a / 2, b / 2, k - 1);
      HalfBits(x, k - 1);
      HalfBits(a, k - 1);
      HalfBits(b, k - 1);
    }
  }

  predicate IsHexDigit(c: char) {
    '0' <= c <= '9' || 'a' <= c <= 'f'
  }

  function DigitValue(c: char): (d: nat)
    requires IsHexDigit(c)
    ensures d < 16
  {
    if c <= '9' then c as nat - '0' as nat else c as nat - 'a' as nat + 10
  }

  function HexDigit(n: nat): (c: char)
    requires n < 16
    ensures IsHexDigit(c) && DigitValue(c) == n
  {
    if n < 10 then '0' + n as char else 'a' + (n - 10) as char
  }

  /** The digits, in order, in lowercase. */
  lemma DigitsAre(n: nat)
    requires n < 16
    ensures HexDigit(n) == "0123456789abcdef"[n]
  {
  }

  predicate AllHex(s: string) {
    forall i :: 0 <= i < |s| ==> IsHexDigit(s[i])
  }

  function HexValue(s: string): nat
    requires AllHex(s)
  {
    if s == "" then 0 else 16 * HexValue(s[..|s| - 1]) + DigitValue(s[|s| - 1])
  }

  /** `s` is `n` in exactly `w` lowercase hexadecimal digits. */
  predicate IsHex(s: string, n: nat, w: nat) {
    |s| == w && AllHex(s) && HexValue(s) == n
  }

  function Pow16(k: nat): (p: nat)
    ensures p >= 1
  {
    if k == 0 then 1 else 16 * Pow16(k - 1)
  }

  function Hex(n: nat, w: nat): (s: string)
    requires n < Pow16(w)
    ensures IsHex(s, n, w)
    decreases w
  {
    if w == 0 then ""
    else
      var s := Hex(n / 16, w - 1) + [HexDigit(n % 16)];
      assert s[..|s| - 1] == Hex(n / 16, w - 1);
      s
  }

  lemma {:induction false} HexIsUnique(s: string, t: string, n: nat, w: nat)
    requires IsHex(s, n, w) && IsHex(t, n, w)
    ensures s == t
    decreases w
  {
    if w > 0 {
      var i := w - 1;
      HexIsUnique(s[..i], t[..i], HexValue(s[..i]), i);
      SameDigit(s[i], t[i]);
      assert s == s[..i] + [s[i]] && t == t[..i] + [t[i]];
    }
  }

  lemma SameDigit(c: char, d: char)
    requires IsHexDigit(c) && IsHexDigit(d) && DigitValue(c) == DigitValue(d)
    ensures c == d
  {
  }

  lemma HexAppend(s: string, c: char)
    requires AllHex(s) && IsHexDigit(c)
    ensures AllHex(s + [c]) && HexValue(s + [c]) == 16 * HexValue(s) + DigitValue(c)
  {
    assert (s + [c])[..|s|] == s;
  }

  lemma Distribute(v: nat, p: nat, f: nat, d: nat)
    ensures 16 * (v * p + f) + d == v * (16 * p) + (16 * f + d)
  {
    assert v * (16 * p) == 16 * (v * p);
  }

  lemma {:induction false} HexOfConcat(a: string, b: string)
    requires AllHex(a) && AllHex(b)
    ensures AllHex(a + b) && HexValue(a + b) == HexValue(a) * Pow16(|b|) + HexValue(b)
    decreases |b|
  {
    if b == "" {
      assert a + b == a;
    } else {
      var front, c := b[..|b| - 1], b[|b| - 1];
      HexOfConcat(a, front);
      HexAppend(a + front, c);
      assert a + b == a + front + [c];
      Distribute(HexValue(a), Pow16(|front|), HexValue(front), DigitValue(c));
    }
  }

  /** `fnv1a_hex` of the engine's build script. */
  method EngineHash(bytes: seq<Byte>) returns (hex: string)
    ensures IsHex(hex, Fnv(OFFSET_BASIS, bytes), HASH_DIGITS)
  {
    var hash: nat := OFFSET_BASIS;
    for i := 0 to |bytes|
      invariant hash < TWO64
      invariant Fnv(OFFSET_BASIS, bytes) == Fnv(hash, bytes[i..])
    {
      hash := (Xor(hash, bytes[i]) * PRIME) % TWO64;
      assert bytes[i..][1..] == bytes[i + 1..];
    }
    Pow16OfHash();
    hex := Hex(hash, HASH_DIGITS);
  }

  datatype Limbs = Limbs(l0: nat, l1: nat, l2: nat, l3: nat)

  function Value(h: Limbs): nat {
    ((h.l3 * LIMB + h.l2) * LIMB + h.l1) * LIMB + h.l0
  }

  predicate Normal(h: Limbs) {
    h.l0 < LIMB && h.l1 < LIMB && h.l2 < LIMB && h.l3 < LIMB
  }

  /** A native PHP integer, so no product is promoted to a float. */
  predicate FitsPhpInt(n: nat) {
    n < 0x8000_0000_0000_0000
  }

  lemma LowLimb(h: Limbs, b: Byte)
    requires Normal(h)
    ensures Xor(h.l0, b) < LIMB
    ensures Value(h.(l0 := Xor(h.l0, b))) == Xor(Value(h), b)
  {
    assert Pow2(16) == LIMB by {
      assert Pow2(4) == 16;
      assert Pow2(8) == 256;
      assert Pow2(12) == 4096;
    }
    XorBound(h.l0, b, 16);
    XorLow((h.l3 * LIMB + h.l2) * LIMB + h.l1, h.l0, b, 16);
  }

  /** One multiplication by the prime, limb by limb with carries, as the generator does it. */
  method MultiplyByPrime(h: Limbs) returns (r: Limbs)
    requires Normal(h)
    ensures Normal(r) && Value(r) == (Value(h) * PRIME) % TWO64
  {
    var p := Limbs(0x01b3, 0x0000, 0x0100, 0x0000);
    var r0 := h.l0 * p.l0;
    var r1 := h.l1 * p.l0 + h.l0 * p.l1;
    var r2 := h.l2 * p.l0 + h.l1 * p.l1 + h.l0 * p.l2;
    var r3 := h.l3 * p.l0 + h.l2 * p.l1 + h.l1 * p.l2 + h.l0 * p.l3;
    assert FitsPhpInt(r0) && FitsPhpInt(r1) && FitsPhpInt(r2) && FitsPhpInt(r3);
    var l0, c1 := Carry(r0, 0);
    var l1, c2 := Carry(r1, c1);
    var l2, c3 := Carry(r2, c2);
    var l3, c4 := Carry(r3, c3);
    r := Limbs(l0, l1, l2, l3);
    CarriesCompute(h, r, c1, c2, c3, c4);
  }

  /** One limb of the sum and the carry into the next. */
  method Carry(sum: nat, c: nat) returns (limb: nat, carry: nat)
    requires sum < 0x1_0000_0000 && c < 0x1_0000_0000
    ensures limb < LIMB && sum + c == carry * LIMB + limb && carry < 0x1_0000_0000
  {
    var t := sum + c;
    assert FitsPhpInt(t);
    SplitLimb(t);
    limb, carry := t % LIMB, t / LIMB;
  }

  /** The limb products and their carries are the product modulo 2^64. */
  lemma CarriesCompute(h: Limbs, r: Limbs, c1: nat, c2: nat, c3: nat, c4: nat)
    requires Normal(r)
    requires h.l0 * 0x1b3 == c1 * LIMB + r.l0
    requires h.l1 * 0x1b3 + c1 == c2 * LIMB + r.l1
    requires h.l2 * 0x1b3 + h.l0 * 0x100 + c2 == c3 * LIMB + r.l2
    requires h.l3 * 0x1b3 + h.l1 * 0x100 + c3 == c4 * LIMB + r.l3
    ensures Value(r) == (Value(h) * PRIME) % TWO64
  {
    CarryIdentity(h, r, c1, c2, c3, c4);
    NormalBound(r);
    Reduces(Value(r), c4 + h.l2 * 0x100 + h.l3 * 0x100 * LIMB);
  }

  lemma SplitLimb(t: nat)
    ensures t == (t / LIMB) * LIMB + t % LIMB && t % LIMB < LIMB
  {
  }

  lemma CarryIdentity(h: Limbs, r: Limbs, c1: nat, c2: nat, c3: nat, c4: nat)
    requires h.l0 * 0x1b3 == c1 * LIMB + r.l0
    requires h.l1 * 0x1b3 + c1 == c2 * LIMB + r.l1
    requires h.l2 * 0x1b3 + h.l0 * 0x100 + c2 == c3 * LIMB + r.l2
    requires h.l3 * 0x1b3 + h.l1 * 0x100 + c3 == c4 * LIMB + r.l3
    ensures Value(h) * PRIME == Value(r) + (c4 + h.l2 * 0x100 + h.l3 * 0x100 * LIMB) * TWO64
  {
  }

  lemma NormalBound(h: Limbs)
    requires Normal(h)
    ensures Value(h) < TWO64
  {
  }

  lemma Reduces(v: nat, over: nat)
    requires v < TWO64
    ensures (v + over * TWO64) % TWO64 == v
  {
  }

  lemma FourGroups(x3: string, x2: string, x1: string, x0: string)
    requires AllHex(x3) && AllHex(x2) && AllHex(x1) && AllHex(x0) && |x3| == |x2| == |x1| == |x0| == LIMB_DIGITS
    ensures var s := x3 + x2 + x1 + x0;
            && AllHex(s)
            && HexValue(s) == ((HexValue(x3) * LIMB + HexValue(x2)) * LIMB + HexValue(x1)) * LIMB + HexValue(x0)
  {
    assert Pow16(2) == 256 && Pow16(4) == LIMB;
    HexOfConcat(x3, x2);
    HexOfConcat(x3 + x2, x1);
    HexOfConcat(x3 + x2 + x1, x0);
  }

  lemma Pow16OfHash()
    ensures Pow16(LIMB_DIGITS) == LIMB && Pow16(HASH_DIGITS) == TWO64
  {
    assert Pow16(2) == 256 && Pow16(4) == LIMB;
    assert Pow16(8) == LIMB * LIMB && Pow16(12) == LIMB * LIMB * LIMB;
  }

  method PrintLimbs(h: Limbs) returns (hex: string)
    requires Normal(h)
    ensures IsHex(hex, Value(h), HASH_DIGITS)
  {
    Pow16OfHash();
    var w := LIMB_DIGITS;
    var x3, x2, x1, x0 := Hex(h.l3, w), Hex(h.l2, w), Hex(h.l1, w), Hex(h.l0, w);
    FourGroups(x3, x2, x1, x0);
    hex := x3 + x2 + x1 + x0;
  }

  /** The four-limb hash of the generator denotes the engine's 64-bit hash on every byte string; 16 digits
      determine their text, so the two renderings are the same. */
  method GeneratorHash(bytes: seq<Byte>) returns (hex: string)
    ensures IsHex(hex, Fnv(OFFSET_BASIS, bytes), HASH_DIGITS)
  {
    var h := Limbs(0x2325, 0x8422, 0x9ce4, 0xcbf2);
    for i := 0 to |bytes|
      invariant Normal(h)
      invariant Fnv(OFFSET_BASIS, bytes) == Fnv(Value(h), bytes[i..])
    {
      LowLimb(h, bytes[i]);
      h := h.(l0 := Xor(h.l0, bytes[i]));
      h := MultiplyByPrime(h);
      assert bytes[i..][1..] == bytes[i + 1..];
    }
    hex := PrintLimbs(h);
  }

  /** The registry check at connection time: the engine compares the hash its build wrote with the one the
      generated client sends. From the same lock file the two texts are equal, so it never refuses. */
  method RegistryHashesMatch(lock: seq<Byte>) returns (equal: bool)
    ensures equal
  {
    var engine := EngineHash(lock);
    var client := GeneratorHash(lock);
    HexIsUnique(engine, client, Fnv(OFFSET_BASIS, lock), HASH_DIGITS);
    equal := engine == client;
  }
}
