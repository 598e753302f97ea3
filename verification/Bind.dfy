/** Canonical parameter values to driver values: the strict parsers. */
module Bind {
  import opened Utf8
  import opened DecimalText
  import opened Wrappers
  import opened MyText

  /** The canonical wire value; its text payloads are Rust strings. */
  datatype Value =
    | Null
    | Bool(b: bool)
    | I64(n: MyText.I64)
    | U64(u: MyText.U64)
    | F64(f: Binary)
    | Text(s: Str)
    | Bytes(raw: seq<Byte>)
    | Uuid(s: Str)
    | Json(s: Str)
    | Decimal(s: Str)
    | Date(s: Str)
    | Time(s: Str)
    | Timestamp(s: Str)
    | TimestampTz(s: Str)

  /** A non-empty run of at most nine digits; never a sign. */
  function Digits(s: seq<Byte>): (r: Option<nat>)
    ensures r.Some? ==> r.value < Pow10(|s|)
  {
    if s == [] || |s| > 9 || !AllDigits(s) then None
    else
      NumberBound(s);
      Some(NumberOf(s))
  }

  lemma SmallPowers()
    ensures Pow10(1) == 10 && Pow10(2) == 100 && Pow10(3) == 1000 && Pow10(4) == 10_000
    ensures Pow10(5) == 100_000 && Pow10(6) == 1_000_000
  {
    assert Pow10(2) == 10 * Pow10(1);
    assert Pow10(4) == 10 * Pow10(3);
    assert Pow10(6) == 10 * Pow10(5);
  }

  predicate InCalendar(y: nat, mo: nat, d: nat) {
    y <= 9999 && mo <= 12 && d <= 31
  }

  function SplitDate(s: seq<Byte>): (r: Option<(U16, U8, U8)>)
    requires Cuts(s)
    ensures r.Some? ==> InCalendar(r.value.0, r.value.1, r.value.2)
  {
    if |s| != 10 || s[4] != DASH || s[7] != DASH then None
    else
      CutsIff(s);
      var y, mo, d := Digits(Slice(s, 0, 4)), Digits(Slice(s, 5, 7)), Digits(Slice(s, 8, 10));
      if y.None? || mo.None? || d.None? || mo.value > 12 || d.value > 31 then None
      else
        SmallPowers();
        Some((y.value, mo.value, d.value))
  }

  function SplitTimeOfDay(s: seq<Byte>): (r: Option<(U8, U8, U8, U32)>)
    requires Cuts(s)
    ensures r.Some? ==> IsTimeOfDay(r.value.0, r.value.1, r.value.2, r.value.3)
  {
    var split := SplitOnce(s, DOT);
    var hms := if split.Some? then split.value.0 else s;
    if |hms| != 8 || hms[2] != COLON || hms[5] != COLON then None
    else
      CutsIff(s);
      var h, mi, sec := Digits(Slice(hms, 0, 2)), Digits(Slice(hms, 3, 5)), Digits(Slice(hms, 6, 8));
      if h.None? || mi.None? || sec.None? || h.value > 23 || mi.value > 59 || sec.value > 59 then None
      else if split.None? then Some((h.value, mi.value, sec.value, 0))
      else
        var frac := split.value.1;
        var us := Digits(frac);
        if |frac| != 6 || us.None? then None
        else
          SmallPowers();
          Some((h.value, mi.value, sec.value, us.value))
  }

  function SplitDateAndTime(s: seq<Byte>, sep: Byte): (r: Option<MyValue>)
    requires Cuts(s) && sep < 0x80
    ensures r.Some? ==> r.value.Date? && InCalendar(r.value.y, r.value.mo, r.value.d)
    ensures r.Some? ==> IsTimeOfDay(r.value.h, r.value.mi, r.value.s, r.value.us)
  {
    if |s| <= 10 || s[10] != sep then None
    else
      CutsIff(s);
      CutsIff(s[0..10]);
      CutsIff(s[11..|s|]);
      var date, time := SplitDate(Slice(s, 0, 10)), SplitTimeOfDay(Slice(s, 11, |s|));
      if date.None? || time.None? then None
      else
        var (y, mo, d) := date.value;
        var (h, mi, sec, us) := time.value;
        Some(MyValue.Date(y, mo, d, h, mi, sec, us))
  }

  function ParseDate(s: seq<Byte>): (r: Option<MyValue>)
    requires Cuts(s)
    ensures r.Some? ==> r.value.Date?
  {
    match SplitDate(s)
    case Some((y, mo, d)) => Some(MyValue.Date(y, mo, d, 0, 0, 0, 0))
    case None => None
  }

  function ParseDatetime(s: seq<Byte>): (r: Option<MyValue>)
    requires Cuts(s)
    ensures r.Some? ==> r.value.Date?
  {
    SplitDateAndTime(s, SPACE)
  }

  function ParseRfc3339Utc(s: seq<Byte>): (r: Option<MyValue>)
    requires Cuts(s)
    ensures r.Some? ==> r.value.Date?
  {
    if s == ZERO_DATETIME then Some(MyValue.Date(0, 0, 0, 0, 0, 0, 0))
    else if s == [] || s[|s| - 1] != ZED then None
    else
      CutsIff(s);
      CutsIff(s[0..|s| - 1]);
      var body := Slice(s, 0, |s| - 1);
      if |body| <= 10 || body[10] != TEE then None else SplitDateAndTime(body, TEE)
  }

  /** A duration the driver can carry: clock fields in range, magnitude in range, no negative zero. */
  predicate IsTime(v: MyValue) {
    && v.Time? && IsTimeOfDay(v.h, v.mi, v.s, v.us)
    && Magnitude(v.days, v.h, v.mi, v.s, v.us) <= MAX_TIME_US
    && (v.neg ==> Magnitude(v.days, v.h, v.mi, v.s, v.us) != 0)
  }

  function ParseTime(s: seq<Byte>): (r: Option<MyValue>)
    requires Cuts(s)
    ensures r.Some? ==> IsTime(r.value)
  {
    if s != [] && s[0] == DASH then ParseUnsigned(true, s[1..]) else ParseUnsigned(false, s)
  }

  function ParseUnsigned(neg: bool, s: seq<Byte>): (r: Option<MyValue>)
    requires Cuts(s)
    ensures r.Some? ==> IsTime(r.value)
  {
    match SplitOnce(s, COLON)
    case None => None
    case Some((hh, tail)) =>
      if hh == [] || |hh| > 3 then None
      else
        var hours := Digits(hh);
        CutsIff(s);
        CutsIff([ZERO, ZERO, COLON] + tail);
        var clock := SplitTimeOfDay([ZERO, ZERO, COLON] + tail);
        if hours.None? || clock.None? then None
        else
          var (_, mi, sec, us) := clock.value;
          Duration(neg, hours.value, mi, sec, us)
  }

  /** The driver value of a duration in the `TIME` range: the day overflow has its own field. */
  function Duration(neg: bool, hours: nat, mi: U8, sec: U8, us: U32): (r: Option<MyValue>)
    requires mi <= 59 && sec <= 59 && us < US_PER_SECOND
    ensures r.Some? ==> IsTime(r.value)
  {
    var total := hours * 3_600 * US_PER_SECOND + mi * 60 * US_PER_SECOND + sec * US_PER_SECOND + us;
    if total > MAX_TIME_US then None
    else Some(MyValue.Time(neg && total != 0, hours / 24, hours % 24, mi, sec, us))
  }

  /** The canonical to driver mapping: an exact representation or a refusal before anything is sent. */
  function ValueToMy(v: Value): (r: Result<MyValue, PoolError>)
    ensures r.Err? ==> r.error == BindRefused
  {
    match v
    case Null => Ok(NULL)
    case Bool(b) => Ok(Int(if b then 1 else 0))
    case I64(n) => Ok(Int(n))
    case U64(u) => Ok(UInt(u))
    case F64(f) => Ok(Double(f))
    case Text(s) => Ok(MyValue.Bytes(s))
    case Bytes(raw) => Ok(MyValue.Bytes(raw))
    case Uuid(s) => Ok(MyValue.Bytes(s))
    case Json(s) => Ok(MyValue.Bytes(s))
    case Decimal(s) => if IsDecimalText(s) then Ok(MyValue.Bytes(s)) else Err(BindRefused)
    case Date(s) => StrHasCuts(s); Accepted(ParseDate(s))
    case Time(s) => StrHasCuts(s); Accepted(ParseTime(s))
    case Timestamp(s) => StrHasCuts(s); Accepted(ParseDatetime(s))
    case TimestampTz(s) => StrHasCuts(s); Accepted(ParseRfc3339Utc(s))
  }

  function Accepted(parsed: Option<MyValue>): Result<MyValue, PoolError> {
    if parsed.Some? then Ok(parsed.value) else Err(BindRefused)
  }

  predicate Binds(params: seq<Value>) {
    forall i :: 0 <= i < |params| ==> ValueToMy(params[i]).Ok?
  }

  /** `to_params`: every parameter in its place, or nothing at all. */
  method ToParams(params: seq<Value>) returns (r: Result<seq<MyValue>, PoolError>)
    ensures r.Ok? <==> Binds(params)
    ensures r.Ok? ==> |r.value| == |params| && forall i :: 0 <= i < |params| ==> ValueToMy(params[i]) == Ok(r.value[i])
    ensures r.Err? ==> r.error == BindRefused
  {
    var out := [];
    for i := 0 to |params|
      invariant |out| == i && forall k :: 0 <= k < i ==> ValueToMy(params[k]) == Ok(out[k])
    {
      var my := ValueToMy(params[i]);
      if my.Err? {
        return Err(my.error);
      }
      out := out + [my.value];
    }
    r := Ok(out);
  }
}
