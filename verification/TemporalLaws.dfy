/** Printers and parsers of canonical temporal text undo each other. */
module TemporalLaws {
  import opened Utf8
  import opened Texts
  import opened DecimalText
  import opened Wrappers
  import opened MyText
  import opened Bind

  lemma AsciiHasCuts(s: seq<Byte>)
    requires AllAscii(s)
    ensures Cuts(s)
  {
    CutsIff(s);
  }

  lemma PartHasCuts(s: seq<Byte>, from: nat, to: nat)
    requires Cuts(s) && from <= to <= |s|
    ensures Cuts(s[from..to])
  {
    CutsIff(s);
    CutsIff(s[from..to]);
  }

  // The printed forms, over the declarative padding.

  ghost function PrintedDate(y: nat, mo: nat, d: nat): seq<Byte> {
    Padded(y, 4) + [DASH] + Padded(mo, 2) + [DASH] + Padded(d, 2)
  }

  ghost function PrintedHms(h: nat, mi: nat, s: nat): seq<Byte> {
    Padded(h, 2) + [COLON] + Padded(mi, 2) + [COLON] + Padded(s, 2)
  }

  ghost function PrintedFraction(us: nat): seq<Byte> {
    if us == 0 then [] else [DOT] + Padded(us, 6)
  }

  ghost function PrintedClock(h: nat, mi: nat, s: nat, us: nat): seq<Byte> {
    PrintedHms(h, mi, s) + PrintedFraction(us)
  }

  lemma DateIsPrinted(y: nat, mo: nat, d: nat)
    ensures CanonicalDate(y, mo, d) == PrintedDate(y, mo, d)
  {
    PaddedIsPad(y, 4);
    PaddedIsPad(mo, 2);
    PaddedIsPad(d, 2);
  }

  lemma ClockIsPrinted(h: nat, mi: nat, s: nat, us: nat)
    ensures FmtTimeOfDay(h, mi, s, us) == PrintedClock(h, mi, s, us)
  {
    PaddedIsPad(h, 2);
    PaddedIsPad(mi, 2);
    PaddedIsPad(s, 2);
    PaddedIsPad(us, 6);
  }

  /** A padded field as the parsers read it. */
  lemma PaddedReads(n: nat, w: nat)
    requires 0 < w <= 6
    ensures var a := Padded(n, w);
            && AllDigits(a) && |a| >= w && (|a| == w <==> n < Pow10(w))
            && (n < Pow10(w) ==> Digits(a) == Some(n))
  {
    PaddedLength(n, w);
  }

  /** A field that reads as `n` is `n` padded to its width. */
  lemma FieldIsPadded(s: seq<Byte>)
    requires Digits(s).Some?
    ensures s == Padded(Digits(s).value, |s|)
  {
    PaddedOfNumber(s);
  }

  // DATE

  /** Digits and dashes, at least ten of them. */
  predicate DateLike(s: seq<Byte>) {
    |s| >= 10 && forall i :: 0 <= i < |s| ==> IsDigit(s[i]) || s[i] == DASH
  }

  lemma DashJoin(a: seq<Byte>, b: seq<Byte>, c: seq<Byte>)
    requires AllDigits(a) && AllDigits(b) && AllDigits(c) && |a| >= 4 && |b| >= 2 && |c| >= 2
    ensures var s := a + [DASH] + b + [DASH] + c;
            && DateLike(s) && Cuts(s)
            && (|s| == 10 <==> |a| == 4 && |b| == 2 && |c| == 2)
            && (|s| == 10 ==> s[4] == DASH && s[7] == DASH && s[0..4] == a && s[5..7] == b && s[8..10] == c)
  {
    AsciiHasCuts(a + [DASH] + b + [DASH] + c);
  }

  lemma SplitPrintedDate(y: U16, mo: U8, d: U8)
    ensures var s := PrintedDate(y, mo, d);
            && DateLike(s) && Cuts(s) && (InCalendar(y, mo, d) ==> |s| == 10)
            && SplitDate(s) == if InCalendar(y, mo, d) then Some((y, mo, d)) else None
  {
    SmallPowers();
    PaddedReads(y, 4);
    PaddedReads(mo, 2);
    PaddedReads(d, 2);
    DashJoin(Padded(y, 4), Padded(mo, 2), Padded(d, 2));
  }

  lemma SplitDateIsPrinted(s: seq<Byte>)
    requires Cuts(s) && SplitDate(s).Some?
    ensures var (y, mo, d) := SplitDate(s).value; s == PrintedDate(y, mo, d)
  {
    FieldIsPadded(s[0..4]);
    FieldIsPadded(s[5..7]);
    FieldIsPadded(s[8..10]);
    assert s == s[0..4] + [DASH] + s[5..7] + [DASH] + s[8..10];
  }

  /** A printed date parses back to itself exactly inside the calendar bounds, and is refused outside. */
  lemma DateRoundTrip(v: MyValue)
    requires DateToText(v).Ok?
    ensures Cuts(DateToText(v).value)
    ensures ParseDate(DateToText(v).value) == if InCalendar(v.y, v.mo, v.d) then Some(v) else None
  {
    DateIsPrinted(v.y, v.mo, v.d);
    SplitPrintedDate(v.y, v.mo, v.d);
  }

  /** The date parser accepts printed dates only, so printing what it read gives the text back. */
  lemma DateNormalises(s: seq<Byte>)
    requires Cuts(s) && ParseDate(s).Some?
    ensures DateToText(ParseDate(s).value) == Ok(s)
  {
    SplitDateIsPrinted(s);
    var v := ParseDate(s).value;
    DateIsPrinted(v.y, v.mo, v.d);
  }

  // The wall clock

  lemma SplitAt(a: seq<Byte>, b: seq<Byte>, sep: Byte)
    requires sep !in a
    ensures SplitOnce(a, sep) == None && SplitOnce(a + [sep] + b, sep) == Some((a, b))
  {
    var s := a + [sep] + b;
    assert IndexOf(a, sep) == |a|;
    assert s[|a|] == sep && forall k :: 0 <= k < |a| ==> s[k] != sep;
    assert IndexOf(s, sep) == |a|;
    assert s[..|a|] == a && s[|a| + 1..] == b;
  }

  lemma ColonJoin(a: seq<Byte>, b: seq<Byte>, c: seq<Byte>)
    requires AllDigits(a) && AllDigits(b) && AllDigits(c) && |a| == |b| == |c| == 2
    ensures var s := a + [COLON] + b + [COLON] + c;
            && |s| == 8 && s[2] == COLON && s[5] == COLON && AllAscii(s) && DOT !in s
            && s[0..2] == a && s[3..5] == b && s[6..8] == c
  {
  }

  lemma SplitPrintedClock(h: U8, mi: U8, sec: U8, us: U32)
    requires IsTimeOfDay(h, mi, sec, us)
    ensures var s := PrintedClock(h, mi, sec, us);
            AllAscii(s) && Cuts(s) && SplitTimeOfDay(s) == Some((h, mi, sec, us))
  {
    SmallPowers();
    PaddedReads(h, 2);
    PaddedReads(mi, 2);
    PaddedReads(sec, 2);
    PaddedReads(us, 6);
    var hms, f := PrintedHms(h, mi, sec), Padded(us, 6);
    ColonJoin(Padded(h, 2), Padded(mi, 2), Padded(sec, 2));
    SplitAt(hms, f, DOT);
    if us == 0 {
      assert hms + [] == hms;
      AsciiHasCuts(hms);
    } else {
      assert hms + ([DOT] + f) == hms + [DOT] + f;
      AsciiHasCuts(hms + [DOT] + f);
    }
  }

  /** The one spelling the clock parser accepts that the printer never writes. */
  ghost function ZeroFraction(): seq<Byte> {
    [DOT] + Padded(0, 6)
  }

  /** An accepted clock text is the printed one, or the printed one with a zero fraction spelled out. */
  lemma SplitClockIsPrinted(s: seq<Byte>)
    requires Cuts(s) && SplitTimeOfDay(s).Some?
    ensures var (h, mi, sec, us) := SplitTimeOfDay(s).value;
            s == PrintedClock(h, mi, sec, us) || (us == 0 && s == PrintedClock(h, mi, sec, us) + ZeroFraction())
  {
    var split := SplitOnce(s, DOT);
    var hms := if split.Some? then split.value.0 else s;
    FieldIsPadded(hms[0..2]);
    FieldIsPadded(hms[3..5]);
    FieldIsPadded(hms[6..8]);
    assert hms == hms[0..2] + [COLON] + hms[3..5] + [COLON] + hms[6..8];
    var (h, mi, sec, us) := SplitTimeOfDay(s).value;
    assert hms == PrintedHms(h, mi, sec) == PrintedHms(h, mi, sec) + [];
    if split.Some? {
      FieldIsPadded(split.value.1);
      assert s == hms + ([DOT] + split.value.1);
    }
  }

  // DATETIME and TIMESTAMP

  lemma SplitAroundSeparator(date: seq<Byte>, sep: Byte, time: seq<Byte>)
    requires DateLike(date) && AllAscii(time) && (sep == SPACE || sep == TEE)
    ensures var s := date + [sep] + time;
            && AllAscii(s) && Cuts(s) && |s| > 10
            && (s[10] == sep <==> |date| == 10) && s[10] != (if sep == SPACE then TEE else SPACE)
            && (|date| == 10 ==> s[0..10] == date && s[11..|s|] == time)
  {
    var s := date + [sep] + time;
    assert |date| > 10 ==> s[10] == date[10];
    AsciiHasCuts(s);
  }

  ghost function PrintedDatetime(v: MyValue, sep: Byte): seq<Byte>
    requires v.Date?
  {
    PrintedDate(v.y, v.mo, v.d) + [sep] + PrintedClock(v.h, v.mi, v.s, v.us)
  }

  lemma SplitPrintedDatetime(v: MyValue, sep: Byte)
    requires v.Date? && IsTimeOfDay(v.h, v.mi, v.s, v.us) && (sep == SPACE || sep == TEE)
    ensures var s := PrintedDatetime(v, sep);
            && AllAscii(s) && Cuts(s) && |s| > 10 && s[10] != (if sep == SPACE then TEE else SPACE)
            && SplitDateAndTime(s, sep) == if InCalendar(v.y, v.mo, v.d) then Some(v) else None
  {
    SplitPrintedDate(v.y, v.mo, v.d);
    SplitPrintedClock(v.h, v.mi, v.s, v.us);
    SplitAroundSeparator(PrintedDate(v.y, v.mo, v.d), sep, PrintedClock(v.h, v.mi, v.s, v.us));
  }

  lemma DatetimeTextIs(v: MyValue)
    requires DatetimeToText(v).Ok?
    ensures DatetimeToText(v).value == PrintedDatetime(v, SPACE)
  {
    DateIsPrinted(v.y, v.mo, v.d);
    ClockIsPrinted(v.h, v.mi, v.s, v.us);
  }

  /** `DATETIME`: printed text parses back exactly inside the calendar bounds. */
  lemma DatetimeRoundTrip(v: MyValue)
    requires DatetimeToText(v).Ok?
    ensures Cuts(DatetimeToText(v).value)
    ensures ParseDatetime(DatetimeToText(v).value) == if InCalendar(v.y, v.mo, v.d) then Some(v) else None
  {
    DatetimeTextIs(v);
    SplitPrintedDatetime(v, SPACE);
  }

  lemma ParseInstant(body: seq<Byte>)
    requires AllAscii(body) && |body| > 10 && body[10] != SPACE
    ensures Cuts(body) && Cuts(body + [ZED]) && ParseRfc3339Utc(body + [ZED]) == SplitDateAndTime(body, TEE)
  {
    var s := body + [ZED];
    AsciiHasCuts(body);
    AsciiHasCuts(s);
    assert s[10] == body[10] && s[0..|s| - 1] == body;
  }

  lemma TimestamptzTextIs(v: MyValue)
    requires TimestamptzToText(v).Ok? && v != MyValue.Date(0, 0, 0, 0, 0, 0, 0)
    ensures TimestamptzToText(v).value == PrintedDatetime(v, TEE) + [ZED]
  {
    DateIsPrinted(v.y, v.mo, v.d);
    ClockIsPrinted(v.h, v.mi, v.s, v.us);
  }

  /** `TIMESTAMP`: the same, with the all-zero value as the one text that is no instant. */
  lemma TimestamptzRoundTrip(v: MyValue)
    requires TimestamptzToText(v).Ok?
    ensures Cuts(TimestamptzToText(v).value)
    ensures ParseRfc3339Utc(TimestamptzToText(v).value) == if InCalendar(v.y, v.mo, v.d) then Some(v) else None
  {
    if v == MyValue.Date(0, 0, 0, 0, 0, 0, 0) {
      AsciiHasCuts(ZERO_DATETIME);
    } else {
      TimestamptzTextIs(v);
      SplitPrintedDatetime(v, TEE);
      ParseInstant(PrintedDatetime(v, TEE));
    }
  }

  lemma SplitHalves(s: seq<Byte>, sep: Byte)
    requires Cuts(s) && sep < 0x80 && SplitDateAndTime(s, sep).Some?
    ensures |s| > 10 && s[10] == sep && Cuts(s[0..10]) && Cuts(s[11..|s|])
    ensures var v := SplitDateAndTime(s, sep).value;
            && SplitDate(s[0..10]) == Some((v.y, v.mo, v.d))
            && SplitTimeOfDay(s[11..|s|]) == Some((v.h, v.mi, v.s, v.us))
  {
    PartHasCuts(s, 0, 10);
    PartHasCuts(s, 11, |s|);
  }

  lemma AroundTen(s: seq<Byte>)
    requires |s| > 10
    ensures s == s[0..10] + [s[10]] + s[11..|s|]
  {
  }

  /** Any text a date-and-time parser accepts is the printed text of its value, up to a zero fraction. */
  lemma SplitDatetimeIsPrinted(s: seq<Byte>, sep: Byte)
    requires Cuts(s) && sep < 0x80 && SplitDateAndTime(s, sep).Some?
    ensures var v := SplitDateAndTime(s, sep).value;
            s == PrintedDatetime(v, sep) || (v.us == 0 && s == PrintedDatetime(v, sep) + ZeroFraction())
  {
    SplitHalves(s, sep);
    AroundTen(s);
    SplitDateIsPrinted(s[0..10]);
    SplitClockIsPrinted(s[11..|s|]);
    var v := SplitDateAndTime(s, sep).value;
    Associate(s[0..10] + [sep], PrintedClock(v.h, v.mi, v.s, v.us), ZeroFraction());
  }

  /** Printing what was parsed and parsing it again changes nothing, and printing only drops a zero
      fraction: printing after parsing is an idempotent normaliser. */
  lemma DatetimeNormalises(s: seq<Byte>)
    requires Cuts(s) && ParseDatetime(s).Some?
    ensures var v := ParseDatetime(s).value;
            && DatetimeToText(v).Ok?
            && Cuts(DatetimeToText(v).value)
            && ParseDatetime(DatetimeToText(v).value) == Some(v)
            && (s == DatetimeToText(v).value || s == DatetimeToText(v).value + ZeroFraction())
  {
    SplitDatetimeIsPrinted(s, SPACE);
    var v := ParseDatetime(s).value;
    DatetimeTextIs(v);
    SplitPrintedDatetime(v, SPACE);
  }

  lemma {:induction false} ZerosRead(s: seq<Byte>)
    requires forall i :: 0 <= i < |s| ==> s[i] == ZERO
    ensures NumberOf(s) == 0
    ensures 0 < |s| <= 9 ==> Digits(s) == Some(0)
    decreases |s|
  {
    if s != [] {
      ZerosRead(s[..|s| - 1]);
    }
  }

  lemma ZeroDatetimeParses()
    ensures Cuts(ZERO_DATETIME) && ParseDatetime(ZERO_DATETIME) == Some(MyValue.Date(0, 0, 0, 0, 0, 0, 0))
  {
    var date, clock := ZZ + ZZ + [DASH] + ZZ + [DASH] + ZZ, ZZ + [COLON] + ZZ + [COLON] + ZZ;
    ZerosRead(ZZ);
    ZerosRead(ZZ + ZZ);
    DashJoin(ZZ + ZZ, ZZ, ZZ);
    ColonJoin(ZZ, ZZ, ZZ);
    SplitAt(clock, [], DOT);
    AsciiHasCuts(clock);
    SplitAroundSeparator(date, SPACE, clock);
  }

  /** The naive and the instant parser agree on one text only, the all-zero sentinel. */
  lemma NaiveAndUtcDisjoint(s: seq<Byte>)
    requires Cuts(s)
    ensures ParseDatetime(s).Some? && ParseRfc3339Utc(s).Some? <==> s == ZERO_DATETIME
  {
    ZeroDatetimeParses();
  }

  // Injectivity, on all cells, calendar bounds or not.

  lemma CutAt(a: seq<Byte>, b: seq<Byte>, a': seq<Byte>, b': seq<Byte>, sep: Byte)
    requires sep !in a && sep !in a' && a + [sep] + b == a' + [sep] + b'
    ensures a == a' && b == b'
  {
    SplitAt(a, b, sep);
    SplitAt(a', b', sep);
  }

  lemma PrintedDateInjective(y: nat, mo: nat, d: nat, y': nat, mo': nat, d': nat)
    requires PrintedDate(y, mo, d) == PrintedDate(y', mo', d')
    ensures y == y' && mo == mo' && d == d'
  {
    var r, r' := Padded(mo, 2) + [DASH] + Padded(d, 2), Padded(mo', 2) + [DASH] + Padded(d', 2);
    assert PrintedDate(y, mo, d) == Padded(y, 4) + [DASH] + r;
    assert PrintedDate(y', mo', d') == Padded(y', 4) + [DASH] + r';
    CutAt(Padded(y, 4), r, Padded(y', 4), r', DASH);
    CutAt(Padded(mo, 2), Padded(d, 2), Padded(mo', 2), Padded(d', 2), DASH);
    PaddedInjective(y, y', 4);
    PaddedInjective(mo, mo', 2);
    PaddedInjective(d, d', 2);
  }

  lemma DateToTextInjective(v: MyValue, w: MyValue)
    requires DateToText(v).Ok? && DateToText(v) == DateToText(w)
    ensures v == w
  {
    DateIsPrinted(v.y, v.mo, v.d);
    DateIsPrinted(w.y, w.mo, w.d);
    PrintedDateInjective(v.y, v.mo, v.d, w.y, w.mo, w.d);
  }

  lemma PrintedDatetimeInjective(v: MyValue, w: MyValue, sep: Byte)
    requires v.Date? && IsTimeOfDay(v.h, v.mi, v.s, v.us) && w.Date? && IsTimeOfDay(w.h, w.mi, w.s, w.us)
    requires (sep == SPACE || sep == TEE) && PrintedDatetime(v, sep) == PrintedDatetime(w, sep)
    ensures v == w
  {
    SplitPrintedDate(v.y, v.mo, v.d);
    SplitPrintedDate(w.y, w.mo, w.d);
    CutAt(PrintedDate(v.y, v.mo, v.d), PrintedClock(v.h, v.mi, v.s, v.us),
          PrintedDate(w.y, w.mo, w.d), PrintedClock(w.h, w.mi, w.s, w.us), sep);
    PrintedDateInjective(v.y, v.mo, v.d, w.y, w.mo, w.d);
    SplitPrintedClock(v.h, v.mi, v.s, v.us);
    SplitPrintedClock(w.h, w.mi, w.s, w.us);
  }

  lemma DatetimeToTextInjective(v: MyValue, w: MyValue)
    requires DatetimeToText(v).Ok? && DatetimeToText(v) == DatetimeToText(w)
    ensures v == w
  {
    DatetimeTextIs(v);
    DatetimeTextIs(w);
    PrintedDatetimeInjective(v, w, SPACE);
  }

  lemma TimestamptzToTextInjective(v: MyValue, w: MyValue)
    requires TimestamptzToText(v).Ok? && TimestamptzToText(v) == TimestamptzToText(w)
    ensures v == w
  {
    var zero := MyValue.Date(0, 0, 0, 0, 0, 0, 0);
    if v != zero && w != zero {
      TimestamptzTextIs(v);
      TimestamptzTextIs(w);
      var a, b := PrintedDatetime(v, TEE), PrintedDatetime(w, TEE);
      assert a == (a + [ZED])[..|a + [ZED]| - 1] && b == (b + [ZED])[..|b + [ZED]| - 1];
      PrintedDatetimeInjective(v, w, TEE);
    } else if v != w {
      // The sentinel has no instant's separator at its tenth byte.
      var u := if v == zero then w else v;
      TimestamptzTextIs(u);
      SplitPrintedDatetime(u, TEE);
    }
  }

  // TIME

  function Clamp(n: nat): nat {
    if n > U64_MAX then U64_MAX else n
  }

  /** Saturating at every addition is saturating once. */
  lemma ClampSum(d: nat, h: nat, mi: nat, s: nat, us: nat)
    ensures SaturatingAdd(SaturatingAdd(SaturatingAdd(SaturatingAdd(Clamp(d), h), mi), s), us)
         == Clamp(d + h + mi + s + us)
  {
  }

  lemma UnitProducts(n: nat)
    ensures n * 86_400 * US_PER_SECOND == n * US_PER_DAY
    ensures n * 3_600 * US_PER_SECOND == n * US_PER_HOUR
    ensures n * 60 * US_PER_SECOND == n * US_PER_MINUTE
  {
  }

  lemma TotalIsClamped(days: U32, h: nat, mi: nat, s: nat, us: nat)
    requires IsTimeOfDay(h, mi, s, us)
    ensures TotalUs(days, h, mi, s, us) == Clamp(Magnitude(days, h, mi, s, us))
  {
    assert SaturatingMul(days, 86_400) == days * 86_400;
    UnitProducts(days);
    UnitProducts(h);
    UnitProducts(mi);
    ClampSum(days * US_PER_DAY, h * US_PER_HOUR, mi * US_PER_MINUTE, s * US_PER_SECOND, us);
  }

  /** The saturating sum passes the range check exactly when the true magnitude does. */
  lemma SaturationIsExact(days: U32, h: nat, mi: nat, s: nat, us: nat)
    requires IsTimeOfDay(h, mi, s, us)
    ensures TotalUs(days, h, mi, s, us) <= MAX_TIME_US <==> Magnitude(days, h, mi, s, us) <= MAX_TIME_US
    ensures Magnitude(days, h, mi, s, us) <= MAX_TIME_US ==>
              TotalUs(days, h, mi, s, us) == Magnitude(days, h, mi, s, us)
  {
    TotalIsClamped(days, h, mi, s, us);
  }

  lemma OnlyZeroMultiple(d: int, k: int)
    requires -k < d * k < k
    ensures d == 0
  {
  }

  lemma QuotientIs(q: nat, k: nat, r: nat)
    requires r < k
    ensures (q * k + r) / k == q && (q * k + r) % k == r
  {
    var t := q * k + r;
    var d := t / k - q;
    assert t == (t / k) * k + t % k;
    assert d * k == r - t % k;
    OnlyZeroMultiple(d, k);
  }

  lemma HoursSplit(hours: nat, mi: nat, s: nat, us: nat)
    requires mi <= 59 && s <= 59 && us < US_PER_SECOND
    ensures var t := Magnitude(0, hours, mi, s, us);
            && t / US_PER_HOUR == hours
            && (t % US_PER_HOUR) / US_PER_MINUTE == mi
            && (t % US_PER_MINUTE) / US_PER_SECOND == s
            && t % US_PER_SECOND == us
  {
    var r1 := s * US_PER_SECOND + us;
    var r2 := mi * US_PER_MINUTE + r1;
    QuotientIs(hours, US_PER_HOUR, r2);
    QuotientIs(mi, US_PER_MINUTE, r1);
    QuotientIs(hours * 60 + mi, US_PER_MINUTE, r1);
    QuotientIs(s, US_PER_SECOND, us);
    QuotientIs(hours * 3600 + mi * 60 + s, US_PER_SECOND, us);
  }

  /** What the parser makes of an hour field and a clock tail. */
  lemma ParseUnsignedOf(neg: bool, hh: seq<Byte>, hours: nat, tail: seq<Byte>, mi: U8, sec: U8, us: U32)
    requires |hh| <= 3 && Digits(hh) == Some(hours) && AllAscii(tail)
    requires Cuts([ZERO, ZERO, COLON] + tail)
    requires SplitTimeOfDay([ZERO, ZERO, COLON] + tail) == Some((0, mi, sec, us))
    requires mi <= 59 && sec <= 59 && us < US_PER_SECOND
    ensures var s := hh + [COLON] + tail;
            AllAscii(s) && Cuts(s) && ParseUnsigned(neg, s) == Duration(neg, hours, mi, sec, us)
  {
    AsciiHasCuts(hh + [COLON] + tail);
    SplitAt(hh, tail, COLON);
  }

  lemma ParseSigned(neg: bool, s: seq<Byte>)
    requires AllAscii(s) && s != [] && s[0] != DASH
    ensures Cuts(Signed(neg, s)) && Cuts(s) && ParseTime(Signed(neg, s)) == ParseUnsigned(neg, s)
  {
    AsciiHasCuts(s);
    if neg {
      var t := [DASH] + s;
      AsciiHasCuts(t);
      assert t[0] == DASH && t[1..] == s;
    }
  }

  ghost function PrintedTail(mi: nat, sec: nat, us: nat): seq<Byte> {
    Padded(mi, 2) + [COLON] + Padded(sec, 2) + PrintedFraction(us)
  }

  lemma ClockIsHoursAndTail(hours: nat, mi: nat, sec: nat, us: nat)
    ensures PrintedClock(hours, mi, sec, us) == Padded(hours, 2) + [COLON] + PrintedTail(mi, sec, us)
  {
  }

  /** The tail of a printed clock reads as its minutes, seconds and fraction. */
  lemma ClockTail(mi: nat, sec: nat, us: nat)
    requires mi <= 59 && sec <= 59 && us < US_PER_SECOND
    ensures var tail := PrintedTail(mi, sec, us);
            && AllAscii(tail) && Cuts([ZERO, ZERO, COLON] + tail)
            && SplitTimeOfDay([ZERO, ZERO, COLON] + tail) == Some((0, mi, sec, us))
  {
    SplitPrintedClock(0, mi, sec, us);
    ClockIsHoursAndTail(0, mi, sec, us);
    var tail, clock := PrintedTail(mi, sec, us), PrintedClock(0, mi, sec, us);
    assert Padded(0, 2) == [ZERO, ZERO] by {
      ZerosRead([ZERO, ZERO]);
      PrintsUnique(Padded(0, 2), [ZERO, ZERO], 0, 2);
    }
    assert clock == [ZERO, ZERO, COLON] + tail;
    assert forall i :: 0 <= i < |tail| ==> tail[i] == clock[i + 3];
  }

  lemma HourField(hours: nat)
    requires hours <= 999
    ensures 2 <= |Padded(hours, 2)| <= 3 && Digits(Padded(hours, 2)) == Some(hours)
  {
    SmallPowers();
    var s := Padded(hours, 2);
    NumberBound(s);
    Pow10Grows(3, if |s| > 3 then |s| - 1 else 3);
  }

  lemma PrintedDurationParses(neg: bool, hours: nat, mi: U8, sec: U8, us: U32)
    requires hours <= 999 && mi <= 59 && sec <= 59 && us < US_PER_SECOND
    ensures var s := Signed(neg, PrintedClock(hours, mi, sec, us));
            Cuts(s) && ParseTime(s) == Duration(neg, hours, mi, sec, us)
  {
    HourField(hours);
    ClockTail(mi, sec, us);
    ClockIsHoursAndTail(hours, mi, sec, us);
    var hh, tail := Padded(hours, 2), PrintedTail(mi, sec, us);
    ParseUnsignedOf(neg, hh, hours, tail, mi, sec, us);
    var s := hh + [COLON] + tail;
    assert s[0] == hh[0];
    ParseSigned(neg, s);
  }

  lemma DurationRange(neg: bool, hours: nat, mi: U8, sec: U8, us: U32)
    requires mi <= 59 && sec <= 59 && us < US_PER_SECOND
    ensures Duration(neg, hours, mi, sec, us).Some? <==> Magnitude(0, hours, mi, sec, us) <= MAX_TIME_US
  {
  }

  lemma LongHourField(hours: nat)
    requires hours > 999
    ensures |Padded(hours, 2)| > 3
  {
    var hh := Padded(hours, 2);
    SmallPowers();
    NumberBound(hh);
    Pow10Grows(|hh|, if |hh| <= 3 then 3 else |hh|);
  }

  /** Four or more hour digits are refused before any arithmetic. */
  lemma LongHoursUnparsed(neg: bool, hh: seq<Byte>, tail: seq<Byte>)
    requires |hh| > 3 && AllDigits(hh) && AllAscii(tail)
    ensures var s := Signed(neg, hh + [COLON] + tail); Cuts(s) && ParseTime(s) == None
  {
    var s := hh + [COLON] + tail;
    SplitAt(hh, tail, COLON);
    assert s[0] == hh[0];
    ParseSigned(neg, s);
  }

  lemma LongHoursRefused(neg: bool, hours: nat, mi: U8, sec: U8, us: U32)
    requires hours > 999 && mi <= 59 && sec <= 59 && us < US_PER_SECOND
    ensures var s := Signed(neg, PrintedClock(hours, mi, sec, us)); Cuts(s) && ParseTime(s) == None
  {
    LongHourField(hours);
    ClockTail(mi, sec, us);
    ClockIsHoursAndTail(hours, mi, sec, us);
    LongHoursUnparsed(neg, Padded(hours, 2), PrintedTail(mi, sec, us));
  }

  /** The parser accepts a printed duration exactly when its magnitude is in the range. */
  lemma TimeParserRange(neg: bool, hours: nat, mi: U8, sec: U8, us: U32)
    requires mi <= 59 && sec <= 59 && us < US_PER_SECOND
    ensures var s := Signed(neg, FmtTimeOfDay(hours, mi, sec, us));
            Cuts(s) && (ParseTime(s).Some? <==> Magnitude(0, hours, mi, sec, us) <= MAX_TIME_US)
  {
    ClockIsPrinted(hours, mi, sec, us);
    DurationRange(neg, hours, mi, sec, us);
    if hours <= 999 {
      PrintedDurationParses(neg, hours, mi, sec, us);
    } else {
      LongHoursRefused(neg, hours, mi, sec, us);
      LongHoursOutOfRange(hours, mi, sec, us);
    }
  }

  lemma LongHoursOutOfRange(hours: nat, mi: nat, sec: nat, us: nat)
    requires hours > 999
    ensures Magnitude(0, hours, mi, sec, us) > MAX_TIME_US
  {
    assert hours * US_PER_HOUR >= 1000 * US_PER_HOUR;
  }

  lemma TimeAccepted(v: MyValue)
    requires v.Time? && IsTimeOfDay(v.h, v.mi, v.s, v.us)
    ensures TimeToText(v).Ok? <==> Magnitude(v.days, v.h, v.mi, v.s, v.us) <= MAX_TIME_US
  {
    SaturationIsExact(v.days, v.h, v.mi, v.s, v.us);
  }

  /** The sign a `TIME` keeps: none at zero. */
  predicate KeepsSign(v: MyValue)
    requires v.Time?
  {
    v.neg && Magnitude(v.days, v.h, v.mi, v.s, v.us) != 0
  }

  lemma TimeTextOfTotal(v: MyValue, total: nat, hours: nat)
    requires v.Time? && IsTimeOfDay(v.h, v.mi, v.s, v.us)
    requires total == TotalUs(v.days, v.h, v.mi, v.s, v.us) <= MAX_TIME_US
    requires total / US_PER_HOUR == hours && (total % US_PER_HOUR) / US_PER_MINUTE == v.mi
    requires (total % US_PER_MINUTE) / US_PER_SECOND == v.s && total % US_PER_SECOND == v.us
    ensures TimeToText(v) == Ok(Signed(v.neg && total != 0, FmtTimeOfDay(hours, v.mi, v.s, v.us)))
  {
  }

  /** A printed `TIME` is its sign and its hours, minutes, seconds and fraction. */
  lemma TimeTextIs(v: MyValue, hours: nat)
    requires v.Time? && IsTimeOfDay(v.h, v.mi, v.s, v.us) && hours == v.days * 24 + v.h
    requires Magnitude(v.days, v.h, v.mi, v.s, v.us) <= MAX_TIME_US
    ensures TimeToText(v).Ok? && TimeToText(v).value == Signed(KeepsSign(v), PrintedClock(hours, v.mi, v.s, v.us))
  {
    var total := TotalUs(v.days, v.h, v.mi, v.s, v.us);
    SaturationIsExact(v.days, v.h, v.mi, v.s, v.us);
    DaysInHours(v.days, v.h, v.mi, v.s, v.us);
    assert total == Magnitude(0, hours, v.mi, v.s, v.us);
    HoursSplit(hours, v.mi, v.s, v.us);
    TimeTextOfTotal(v, total, hours);
    ClockIsPrinted(hours, v.mi, v.s, v.us);
  }

  lemma DaysInHours(days: nat, h: nat, mi: nat, s: nat, us: nat)
    ensures Magnitude(0, days * 24 + h, mi, s, us) == Magnitude(days, h, mi, s, us)
  {
    assert days * US_PER_DAY == days * 24 * US_PER_HOUR;
  }

  lemma DaysFold(v: MyValue, hours: nat)
    requires v.Time? && IsTimeOfDay(v.h, v.mi, v.s, v.us) && hours == v.days * 24 + v.h
    requires Magnitude(v.days, v.h, v.mi, v.s, v.us) <= MAX_TIME_US
    ensures hours <= 838
    ensures Duration(KeepsSign(v), hours, v.mi, v.s, v.us) == Some(v.(neg := KeepsSign(v)))
  {
    QuotientIs(v.days, 24, v.h);
  }

  /** `TIME` cells: accepted exactly up to 838:59:59.999999, and an accepted cell comes back as itself
      with the sign of zero cleared. */
  lemma TimeRoundTrip(v: MyValue)
    requires v.Time? && IsTimeOfDay(v.h, v.mi, v.s, v.us)
    ensures TimeToText(v).Ok? <==> Magnitude(v.days, v.h, v.mi, v.s, v.us) <= MAX_TIME_US
    ensures TimeToText(v).Ok? ==>
              Cuts(TimeToText(v).value) && ParseTime(TimeToText(v).value) == Some(v.(neg := KeepsSign(v)))
  {
    TimeAccepted(v);
    if TimeToText(v).Ok? {
      var hours := v.days * 24 + v.h;
      TimeTextIs(v, hours);
      DaysFold(v, hours);
      PrintedDurationParses(KeepsSign(v), hours, v.mi, v.s, v.us);
    }
  }
}
