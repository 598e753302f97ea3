/** Exactly which texts the temporal parsers accept for a value, and that printing what was parsed picks
    one of them. */
module TemporalSpellings {
  import opened Utf8
  import opened Texts
  import opened DecimalText
  import opened Wrappers
  import opened MyText
  import opened Bind
  import opened TemporalLaws

  /** A moment the date-and-time parsers can mean. */
  predicate IsMoment(v: MyValue) {
    v.Date? && InCalendar(v.y, v.mo, v.d) && IsTimeOfDay(v.h, v.mi, v.s, v.us)
  }

  // ---------------------------------------------------------------------------------------------
  // Clocks

  /** The fraction as printed, or the zero fraction spelled out. */
  ghost predicate FractionSpelling(f: seq<Byte>, us: nat) {
    f == PrintedFraction(us) || (us == 0 && f == ZeroFraction())
  }

  lemma ClockSpelling(h: U8, mi: U8, sec: U8, us: U32, f: seq<Byte>)
    requires IsTimeOfDay(h, mi, sec, us) && FractionSpelling(f, us)
    ensures var s := PrintedHms(h, mi, sec) + f;
            AllAscii(s) && Cuts(s) && SplitTimeOfDay(s) == Some((h, mi, sec, us))
  {
    if f == PrintedFraction(us) {
      SplitPrintedClock(h, mi, sec, us);
    } else {
      SpelledOutZero(h, mi, sec);
    }
  }

  lemma SpelledOutZero(h: U8, mi: U8, sec: U8)
    requires IsTimeOfDay(h, mi, sec, 0)
    ensures var s := PrintedHms(h, mi, sec) + ZeroFraction();
            AllAscii(s) && Cuts(s) && SplitTimeOfDay(s) == Some((h, mi, sec, 0))
  {
    SmallPowers();
    PaddedReads(h, 2);
    PaddedReads(mi, 2);
    PaddedReads(sec, 2);
    PaddedReads(0, 6);
    var hms, f := PrintedHms(h, mi, sec), Padded(0, 6);
    ColonJoin(Padded(h, 2), Padded(mi, 2), Padded(sec, 2));
    SplitAt(hms, f, DOT);
    Associate(hms, [DOT], f);
    AsciiHasCuts(hms + [DOT] + f);
  }

  lemma ClockSpelled(s: seq<Byte>) returns (f: seq<Byte>)
    requires Cuts(s) && SplitTimeOfDay(s).Some?
    ensures var (h, mi, sec, us) := SplitTimeOfDay(s).value;
            FractionSpelling(f, us) && s == PrintedHms(h, mi, sec) + f
  {
    SplitClockIsPrinted(s);
    var (h, mi, sec, us) := SplitTimeOfDay(s).value;
    f := if s == PrintedClock(h, mi, sec, us) then PrintedFraction(us) else ZeroFraction();
    assert PrintedHms(h, mi, sec) + [] == PrintedHms(h, mi, sec);
  }

  // ---------------------------------------------------------------------------------------------
  // Date and time

  ghost function Spelled(v: MyValue, sep: Byte, f: seq<Byte>): seq<Byte>
    requires v.Date?
  {
    PrintedDate(v.y, v.mo, v.d) + [sep] + (PrintedHms(v.h, v.mi, v.s) + f)
  }

  /** `s` spells the moment `v` with this separator. */
  ghost predicate Spells(s: seq<Byte>, v: MyValue, sep: Byte)
    requires v.Date?
  {
    s == Spelled(v, sep, PrintedFraction(v.us)) || (v.us == 0 && s == Spelled(v, sep, ZeroFraction()))
  }

  lemma SpellingParses(v: MyValue, sep: Byte, f: seq<Byte>)
    requires IsMoment(v) && (sep == SPACE || sep == TEE) && FractionSpelling(f, v.us)
    ensures var s := Spelled(v, sep, f);
            && AllAscii(s) && Cuts(s) && |s| > 10 && s[10] == sep
            && SplitDateAndTime(s, sep) == Some(v)
  {
    SplitPrintedDate(v.y, v.mo, v.d);
    ClockSpelling(v.h, v.mi, v.s, v.us, f);
    SplitAroundSeparator(PrintedDate(v.y, v.mo, v.d), sep, PrintedHms(v.h, v.mi, v.s) + f);
  }

  lemma ParsedIsSpelled(s: seq<Byte>, sep: Byte)
    requires Cuts(s) && sep < 0x80 && SplitDateAndTime(s, sep).Some?
    ensures IsMoment(SplitDateAndTime(s, sep).value) && Spells(s, SplitDateAndTime(s, sep).value, sep)
  {
    SplitHalves(s, sep);
    AroundTen(s);
    SplitDateIsPrinted(s[0..10]);
    var f := ClockSpelled(s[11..|s|]);
  }

  /** The naive parser reads `s` as `v` if and only if `s` spells `v` with a space. */
  lemma DatetimeSpellings(s: seq<Byte>, v: MyValue)
    requires Cuts(s)
    ensures ParseDatetime(s) == Some(v) <==> IsMoment(v) && Spells(s, v, SPACE)
  {
    if ParseDatetime(s) == Some(v) {
      ParsedIsSpelled(s, SPACE);
    }
    if IsMoment(v) && Spells(s, v, SPACE) {
      var printed := s == Spelled(v, SPACE, PrintedFraction(v.us));
      SpellingParses(v, SPACE, if printed then PrintedFraction(v.us) else ZeroFraction());
    }
  }

  const ZERO_MOMENT: MyValue := MyValue.Date(0, 0, 0, 0, 0, 0, 0)

  /** `s` is the instant `v` in the `date-time` form of section 5.6 of RFC 3339, in UTC, or the sentinel. */
  ghost predicate SpellsInstant(s: seq<Byte>, v: MyValue)
    requires v.Date?
  {
    || (v == ZERO_MOMENT && s == ZERO_DATETIME)
    || s == Spelled(v, TEE, PrintedFraction(v.us)) + [ZED]
    || (v.us == 0 && s == Spelled(v, TEE, ZeroFraction()) + [ZED])
  }

  lemma InstantParses(v: MyValue, f: seq<Byte>)
    requires IsMoment(v) && FractionSpelling(f, v.us)
    ensures var s := Spelled(v, TEE, f) + [ZED]; Cuts(s) && ParseRfc3339Utc(s) == Some(v)
  {
    SpellingParses(v, TEE, f);
    ParseInstant(Spelled(v, TEE, f));
  }

  lemma InstantIsSpelled(s: seq<Byte>)
    requires Cuts(s) && ParseRfc3339Utc(s).Some?
    ensures IsMoment(ParseRfc3339Utc(s).value) && SpellsInstant(s, ParseRfc3339Utc(s).value)
  {
    if s != ZERO_DATETIME {
      var body := s[..|s| - 1];
      assert s[0..|s| - 1] == body;
      PartHasCuts(s, 0, |s| - 1);
      ParsedIsSpelled(body, TEE);
      assert s == body + [ZED];
    }
  }

  /** The UTC parser reads `s` as `v` if and only if `s` spells `v` with `T` and `Z`, or both are the
      all-zero sentinel. */
  lemma InstantSpellings(s: seq<Byte>, v: MyValue)
    requires Cuts(s)
    ensures ParseRfc3339Utc(s) == Some(v) <==> IsMoment(v) && SpellsInstant(s, v)
  {
    if ParseRfc3339Utc(s) == Some(v) {
      InstantIsSpelled(s);
    } else if IsMoment(v) && SpellsInstant(s, v) {
      if s == Spelled(v, TEE, PrintedFraction(v.us)) + [ZED] {
        InstantParses(v, PrintedFraction(v.us));
      } else if s != ZERO_DATETIME {
        InstantParses(v, ZeroFraction());
      }
    }
  }

  lemma PrintedInstant(v: MyValue)
    requires IsMoment(v) && v != ZERO_MOMENT
    ensures TimestamptzToText(v).Ok? && TimestamptzToText(v).value == Spelled(v, TEE, PrintedFraction(v.us)) + [ZED]
  {
    TimestamptzTextIs(v);
  }

  /** The texts of an instant other than its printed one. */
  ghost predicate IsOtherInstant(s: seq<Byte>, v: MyValue)
    requires v.Date?
  {
    s == Spelled(v, TEE, ZeroFraction()) + [ZED] || (v == ZERO_MOMENT && s == Spelled(v, TEE, []) + [ZED])
  }

  lemma InstantForms(s: seq<Byte>, v: MyValue)
    requires IsMoment(v) && SpellsInstant(s, v)
    ensures TimestamptzToText(v) == Ok(s) || IsOtherInstant(s, v)
  {
    if v != ZERO_MOMENT {
      PrintedInstant(v);
    }
  }

  /** Printing after parsing is an idempotent normaliser of instants: it drops a zero fraction and writes
      the all-zero moment as the sentinel, and changes nothing else. */
  lemma TimestamptzNormalises(s: seq<Byte>)
    requires Cuts(s) && ParseRfc3339Utc(s).Some?
    ensures var v := ParseRfc3339Utc(s).value;
            && TimestamptzToText(v).Ok?
            && Cuts(TimestamptzToText(v).value)
            && ParseRfc3339Utc(TimestamptzToText(v).value) == Some(v)
            && (TimestamptzToText(v).value == s || IsOtherInstant(s, v))
  {
    var v := ParseRfc3339Utc(s).value;
    InstantIsSpelled(s);
    InstantForms(s, v);
    TimestamptzRoundTrip(v);
  }

  // ---------------------------------------------------------------------------------------------
  // Durations

  ghost function SpelledTail(mi: nat, sec: nat, f: seq<Byte>): seq<Byte> {
    Padded(mi, 2) + [COLON] + Padded(sec, 2) + f
  }

  /** `s` spells the duration `v`: one to three hour digits, zeros in front allowed, either sign at zero,
      and a zero fraction absent or spelled out. */
  ghost predicate SpellsTime(s: seq<Byte>, v: MyValue, neg: bool, hh: seq<Byte>, f: seq<Byte>)
    requires v.Time?
  {
    && 1 <= |hh| <= 3 && AllDigits(hh) && NumberOf(hh) == v.days * 24 + v.h
    && (neg == v.neg || Magnitude(v.days, v.h, v.mi, v.s, v.us) == 0)
    && FractionSpelling(f, v.us)
    && s == Signed(neg, hh + [COLON] + SpelledTail(v.mi, v.s, f))
  }

  lemma TwoZeros()
    ensures Padded(0, 2) == [ZERO, ZERO]
  {
    ZerosRead([ZERO, ZERO]);
    PrintsUnique(Padded(0, 2), [ZERO, ZERO], 0, 2);
  }

  lemma TailBehindZeros(mi: nat, sec: nat, f: seq<Byte>)
    ensures PrintedHms(0, mi, sec) + f == [ZERO, ZERO, COLON] + SpelledTail(mi, sec, f)
  {
    TwoZeros();
  }

  lemma TailParses(mi: U8, sec: U8, us: U32, f: seq<Byte>)
    requires mi <= 59 && sec <= 59 && us < US_PER_SECOND && FractionSpelling(f, us)
    ensures var tail := SpelledTail(mi, sec, f);
            && AllAscii(tail) && Cuts([ZERO, ZERO, COLON] + tail)
            && SplitTimeOfDay([ZERO, ZERO, COLON] + tail) == Some((0, mi, sec, us))
  {
    ClockSpelling(0, mi, sec, us, f);
    TailBehindZeros(mi, sec, f);
    var tail := SpelledTail(mi, sec, f);
    var text := [ZERO, ZERO, COLON] + tail;
    assert forall i :: 0 <= i < |tail| ==> tail[i] == text[i + 3];
  }

  lemma TailIsSpelled(tail: seq<Byte>) returns (f: seq<Byte>)
    requires var text := [ZERO, ZERO, COLON] + tail; Cuts(text) && SplitTimeOfDay(text).Some?
    ensures var (h, mi, sec, us) := SplitTimeOfDay([ZERO, ZERO, COLON] + tail).value;
            h == 0 && FractionSpelling(f, us) && tail == SpelledTail(mi, sec, f)
  {
    var text := [ZERO, ZERO, COLON] + tail;
    f := ClockSpelled(text);
    var (h, mi, sec, us) := SplitTimeOfDay(text).value;
    HourIsZero(text);
    TailBehindZeros(mi, sec, f);
    CancelPrefix([ZERO, ZERO, COLON], tail, SpelledTail(mi, sec, f));
  }

  lemma HourIsZero(text: seq<Byte>)
    requires |text| >= 3 && text[0] == ZERO && text[1] == ZERO && text[2] == COLON
    requires Cuts(text) && SplitTimeOfDay(text).Some?
    ensures SplitTimeOfDay(text).value.0 == 0
  {
    var split := SplitOnce(text, DOT);
    var hms := if split.Some? then split.value.0 else text;
    assert hms[0..2] == [ZERO, ZERO];
    ZerosRead([ZERO, ZERO]);
  }

  lemma SpelledTimeParses(v: MyValue, neg: bool, hh: seq<Byte>, f: seq<Byte>)
    requires IsTime(v) && SpellsTime(Signed(neg, hh + [COLON] + SpelledTail(v.mi, v.s, f)), v, neg, hh, f)
    ensures var s := Signed(neg, hh + [COLON] + SpelledTail(v.mi, v.s, f)); Cuts(s) && ParseTime(s) == Some(v)
  {
    var s := hh + [COLON] + SpelledTail(v.mi, v.s, f);
    SpelledUnsignedParses(v, neg, hh, f);
    assert s[0] == hh[0];
    ParseSigned(neg, s);
  }

  lemma SpelledUnsignedParses(v: MyValue, neg: bool, hh: seq<Byte>, f: seq<Byte>)
    requires IsTime(v) && SpellsTime(Signed(neg, hh + [COLON] + SpelledTail(v.mi, v.s, f)), v, neg, hh, f)
    ensures var s := hh + [COLON] + SpelledTail(v.mi, v.s, f);
            AllAscii(s) && Cuts(s) && ParseUnsigned(neg, s) == Some(v)
  {
    TailParses(v.mi, v.s, v.us, f);
    ParseUnsignedOf(neg, hh, v.days * 24 + v.h, SpelledTail(v.mi, v.s, f), v.mi, v.s, v.us);
    DurationIs(v, neg);
  }

  lemma DurationIs(v: MyValue, neg: bool)
    requires IsTime(v) && (neg == v.neg || Magnitude(v.days, v.h, v.mi, v.s, v.us) == 0)
    ensures Duration(neg, v.days * 24 + v.h, v.mi, v.s, v.us) == Some(v)
  {
    DaysInHours(v.days, v.h, v.mi, v.s, v.us);
    QuotientIs(v.days, 24, v.h);
  }

  lemma UnsignedIsSpelled(neg: bool, s: seq<Byte>) returns (hh: seq<Byte>, f: seq<Byte>)
    requires Cuts(s) && ParseUnsigned(neg, s).Some?
    ensures var v := ParseUnsigned(neg, s).value;
            IsTime(v) && SpellsTime(Signed(neg, s), v, neg, hh, f)
  {
    hh := SplitOnce(s, COLON).value.0;
    var tail := SplitOnce(s, COLON).value.1;
    assert s == hh + [COLON] + tail;
    CutsIff(s);
    CutsIff([ZERO, ZERO, COLON] + tail);
    f := TailIsSpelled(tail);
    var (_, mi, sec, us) := SplitTimeOfDay([ZERO, ZERO, COLON] + tail).value;
    DurationFields(neg, NumberOf(hh), mi, sec, us);
  }

  lemma DurationFields(neg: bool, hours: nat, mi: U8, sec: U8, us: U32)
    requires mi <= 59 && sec <= 59 && us < US_PER_SECOND && Duration(neg, hours, mi, sec, us).Some?
    ensures var v := Duration(neg, hours, mi, sec, us).value;
            && v.mi == mi && v.s == sec && v.us == us && v.days * 24 + v.h == hours
            && (neg == v.neg || Magnitude(v.days, v.h, v.mi, v.s, v.us) == 0)
  {
    var v := Duration(neg, hours, mi, sec, us).value;
    DaysInHours(v.days, v.h, v.mi, v.s, v.us);
  }

  ghost predicate IsSpellingOf(s: seq<Byte>, v: MyValue)
    requires v.Time?
  {
    exists neg, hh, f :: SpellsTime(s, v, neg, hh, f)
  }

  lemma TimeIsSpelled(s: seq<Byte>)
    requires Cuts(s) && ParseTime(s).Some?
    ensures IsTime(ParseTime(s).value) && IsSpellingOf(s, ParseTime(s).value)
  {
    if s != [] && s[0] == DASH {
      assert s == [DASH] + s[1..];
      var hh, f := UnsignedIsSpelled(true, s[1..]);
    } else {
      var hh, f := UnsignedIsSpelled(false, s);
    }
  }

  /** The `TIME` parser reads `s` as `v` if and only if `s` is one of the spellings of the duration `v`. */
  lemma TimeSpellings(s: seq<Byte>, v: MyValue)
    requires Cuts(s)
    ensures ParseTime(s) == Some(v) <==> IsTime(v) && IsSpellingOf(s, v)
  {
    if ParseTime(s) == Some(v) {
      TimeIsSpelled(s);
    }
    if IsTime(v) && IsSpellingOf(s, v) {
      var neg, hh, f :| SpellsTime(s, v, neg, hh, f);
      SpelledTimeParses(v, neg, hh, f);
    }
  }

  /** Whatever the `TIME` parser accepts prints, and the printed text is a spelling of the same value. */
  lemma TimeNormalises(s: seq<Byte>)
    requires Cuts(s) && ParseTime(s).Some?
    ensures var v := ParseTime(s).value;
            && TimeToText(v).Ok?
            && Cuts(TimeToText(v).value)
            && ParseTime(TimeToText(v).value) == Some(v)
            && IsSpellingOf(s, v) && IsSpellingOf(TimeToText(v).value, v)
  {
    var v := ParseTime(s).value;
    TimeRoundTrip(v);
    assert v.(neg := KeepsSign(v)) == v;
    TimeIsSpelled(s);
    TimeIsSpelled(TimeToText(v).value);
  }
}
