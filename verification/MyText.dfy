/** The MySQL driver's cell values and their canonical text. */
module MyText {
  import opened Utf8
  import opened DecimalText
  import opened Wrappers

  type U8 = Byte
  type U16 = n: int | 0 <= n < 0x1_0000
  type U32 = n: int | 0 <= n < 0x1_0000_0000
  type U64 = n: int | 0 <= n < 0x1_0000_0000_0000_0000
  type I64 = n: int | -0x8000_0000_0000_0000 <= n < 0x8000_0000_0000_0000

  /** An IEEE 754 number, of either width: widening a FLOAT to a DOUBLE keeps all of it. */
  datatype Binary = Finite(negative: bool, magnitude: real) | Infinite(negative: bool) | NaN(payload: nat)

  /** `mysql_async::Value`. */
  datatype MyValue =
    | NULL
    | Bytes(raw: seq<Byte>)
    | Int(i: I64)
    | UInt(u: U64)
    | Float(f: Binary)
    | Double(f: Binary)
    | Date(y: U16, mo: U8, d: U8, h: U8, mi: U8, s: U8, us: U32)
    | Time(neg: bool, days: U32, h: U8, mi: U8, s: U8, us: U32)

  /** The fates the backend reports; only `ConnectionLost` leaves the statement's fate unknown. */
  datatype PoolError = Backend | Unsupported | BindRefused | Server | ConnectionLost

  const DASH: Byte := 0x2D
  const COLON: Byte := 0x3A
  const DOT: Byte := 0x2E
  const SPACE: Byte := 0x20
  const TEE: Byte := 0x54
  const ZED: Byte := 0x5A
  const PLUS: Byte := 0x2B

  const US_PER_SECOND: nat := 1_000_000
  const US_PER_MINUTE: nat := 60 * US_PER_SECOND
  const US_PER_HOUR: nat := 3_600 * US_PER_SECOND
  const US_PER_DAY: nat := 86_400 * US_PER_SECOND
  const MAX_TIME_US: nat := (838 * 3600 + 59 * 60 + 59) * 1_000_000 + 999_999

  predicate AllAscii(s: seq<Byte>) {
    forall i :: 0 <= i < |s| ==> s[i] < 0x80
  }

  function CanonicalDate(y: nat, mo: nat, d: nat): (s: seq<Byte>)
    ensures AllAscii(s)
  {
    Pad(y, 4) + [DASH] + Pad(mo, 2) + [DASH] + Pad(d, 2)
  }

  function Hms(h: nat, mi: nat, s: nat): (text: seq<Byte>)
    ensures AllAscii(text)
  {
    Pad(h, 2) + [COLON] + Pad(mi, 2) + [COLON] + Pad(s, 2)
  }

  /** No fraction group at all, or exactly six digits. */
  function Fraction(us: nat): (text: seq<Byte>)
    ensures AllAscii(text)
  {
    if us == 0 then [] else [DOT] + Pad(us, 6)
  }

  function FmtTimeOfDay(h: nat, mi: nat, s: nat, us: nat): (text: seq<Byte>)
    ensures AllAscii(text)
  {
    Hms(h, mi, s) + Fraction(us)
  }

  predicate IsTimeOfDay(h: nat, mi: nat, s: nat, us: nat) {
    h <= 23 && mi <= 59 && s <= 59 && us < US_PER_SECOND
  }

  /** `"0000-00-00 00:00:00"`. */
  const ZERO_DATETIME: seq<Byte> :=
    (ZZ + ZZ + [DASH] + ZZ + [DASH] + ZZ) + [SPACE] + (ZZ + [COLON] + ZZ + [COLON] + ZZ)

  const ZZ: seq<Byte> := [ZERO, ZERO]

  lemma ZeroDatetimeIsAscii()
    ensures AllAscii(ZERO_DATETIME)
  {
  }

  /** A date, a separator and a wall clock. */
  function Stamp(v: MyValue, sep: Byte): (s: seq<Byte>)
    requires v.Date? && sep < 0x80
    ensures AllAscii(s)
  {
    CanonicalDate(v.y, v.mo, v.d) + [sep] + FmtTimeOfDay(v.h, v.mi, v.s, v.us)
  }

  function DateToText(v: MyValue): (r: Result<seq<Byte>, PoolError>)
    ensures r.Ok? ==> AllAscii(r.value)
    ensures r.Err? ==> r.error == Backend
  {
    if !v.Date? then Err(Backend)
    else if (v.h, v.mi, v.s, v.us) != (0, 0, 0, 0) then Err(Backend)
    else Ok(CanonicalDate(v.y, v.mo, v.d))
  }

  function DatetimeToText(v: MyValue): (r: Result<seq<Byte>, PoolError>)
    ensures r.Ok? ==> v.Date? && IsTimeOfDay(v.h, v.mi, v.s, v.us)
    ensures r.Ok? ==> AllAscii(r.value)
    ensures r.Err? ==> r.error == Backend
  {
    if !v.Date? || !IsTimeOfDay(v.h, v.mi, v.s, v.us) then Err(Backend)
    else Ok(Stamp(v, SPACE))
  }

  function TimestamptzToText(v: MyValue): (r: Result<seq<Byte>, PoolError>)
    ensures r.Ok? ==> v.Date? && IsTimeOfDay(v.h, v.mi, v.s, v.us)
    ensures r.Ok? ==> AllAscii(r.value)
    ensures r.Err? ==> r.error == Backend
  {
    if !v.Date? || !IsTimeOfDay(v.h, v.mi, v.s, v.us) then Err(Backend)
    else if v == Date(0, 0, 0, 0, 0, 0, 0) then ZeroDatetimeIsAscii(); Ok(ZERO_DATETIME)
    else Ok(Stamp(v, TEE) + [ZED])
  }

  const U64_MAX: nat := 0xFFFF_FFFF_FFFF_FFFF

  function SaturatingMul(a: nat, b: nat): nat {
    if a * b > U64_MAX then U64_MAX else a * b
  }

  function SaturatingAdd(a: nat, b: nat): nat {
    if a + b > U64_MAX then U64_MAX else a + b
  }

  /** The magnitude of a `TIME` cell in microseconds, exactly. */
  function Magnitude(days: nat, h: nat, mi: nat, s: nat, us: nat): nat {
    days * US_PER_DAY + h * US_PER_HOUR + mi * US_PER_MINUTE + s * US_PER_SECOND + us
  }

  /** The same sum as the engine computes it, in saturating 64-bit steps. */
  function TotalUs(days: nat, h: nat, mi: nat, s: nat, us: nat): nat {
    var t := SaturatingMul(SaturatingMul(days, 86_400), US_PER_SECOND);
    var t := SaturatingAdd(t, h * 3_600 * US_PER_SECOND);
    var t := SaturatingAdd(t, mi * 60 * US_PER_SECOND);
    var t := SaturatingAdd(t, s * US_PER_SECOND);
    SaturatingAdd(t, us)
  }

  function Signed(neg: bool, text: seq<Byte>): seq<Byte> {
    if neg then [DASH] + text else text
  }

  function TimeToText(v: MyValue): (r: Result<seq<Byte>, PoolError>)
    ensures r.Ok? ==> v.Time? && IsTimeOfDay(v.h, v.mi, v.s, v.us)
    ensures r.Ok? ==> AllAscii(r.value)
    ensures r.Err? ==> r.error == Backend
  {
    if !v.Time? || !IsTimeOfDay(v.h, v.mi, v.s, v.us) then Err(Backend)
    else
      var total := TotalUs(v.days, v.h, v.mi, v.s, v.us);
      if total > MAX_TIME_US then Err(Backend)
      else
        var hours := total / US_PER_HOUR;
        var mins := (total % US_PER_HOUR) / US_PER_MINUTE;
        var secs := (total % US_PER_MINUTE) / US_PER_SECOND;
        Ok(Signed(v.neg && total != 0, FmtTimeOfDay(hours, mins, secs, total % US_PER_SECOND)))
  }

  /** The index of the first `b`, or the length. */
  function IndexOf(s: seq<Byte>, b: Byte): (i: nat)
    ensures i <= |s| && (forall k :: 0 <= k < i ==> s[k] != b) && (i < |s| ==> s[i] == b)
  {
    if s == [] || s[0] == b then 0 else 1 + IndexOf(s[1..], b)
  }

  /** `str::split_once` on an ASCII character. */
  function SplitOnce(s: seq<Byte>, b: Byte): (r: Option<(seq<Byte>, seq<Byte>)>) {
    var i := IndexOf(s, b);
    if i == |s| then None else Some((s[..i], s[i + 1..]))
  }

  /** `[-|+]digits[.digits]`, the grammar both directions accept for a `DECIMAL`. */
  predicate IsDecimalText(s: seq<Byte>) {
    var body := if s != [] && (s[0] == DASH || s[0] == PLUS) then s[1..] else s;
    match SplitOnce(body, DOT)
    case Some((whole, frac)) => whole != [] && AllDigits(whole) && frac != [] && AllDigits(frac)
    case None => body != [] && AllDigits(body)
  }

  function DecimalToText(v: MyValue): (r: Result<seq<Byte>, PoolError>)
    ensures r.Ok? ==> WellFormed(r.value)
    ensures r.Err? ==> r.error == Backend
  {
    if v.Bytes? && WellFormed(v.raw) && IsDecimalText(v.raw) then Ok(v.raw) else Err(Backend)
  }

  function JsonToText(v: MyValue): (r: Result<seq<Byte>, PoolError>)
    ensures r.Ok? ==> WellFormed(r.value)
    ensures r.Err? ==> r.error == Backend
  {
    if v.Bytes? && WellFormed(v.raw) then Ok(v.raw) else Err(Backend)
  }
}
