/** What a bound parameter denotes, by the kind of the value, and where the digits of a printed moment stand. */
module BindLaws {
  import opened Utf8
  import opened Texts
  import opened DecimalText
  import opened Wrappers
  import opened MyText
  import opened Bind
  import opened TemporalLaws
  import opened TemporalSpellings

  // ---------------------------------------------------------------------------------------------
  // Decimal text

  predicate IsSign(s: seq<Byte>) {
    s == [] || s == [0x2D] || s == [0x2B]
  }

  predicate IsRun(s: seq<Byte>) {
    s != [] && forall i :: 0 <= i < |s| ==> 0x30 <= s[i] <= 0x39
  }

  /** A sign or none, digits, and then a dot and digits or nothing: no exponent, no NaN, no infinity. */
  ghost predicate IsDecimal(s: seq<Byte>) {
    || (exists sign, whole :: IsSign(sign) && IsRun(whole) && s == sign + whole)
    || (exists sign, whole, frac :: IsSign(sign) && IsRun(whole) && IsRun(frac) && s == Pointed(sign, whole, frac))
  }

  function Pointed(sign: seq<Byte>, whole: seq<Byte>, frac: seq<Byte>): seq<Byte> {
    sign + (whole + [0x2E] + frac)
  }

  lemma SignIsStripped(sign: seq<Byte>, body: seq<Byte>)
    requires IsSign(sign) && body != [] && 0x30 <= body[0] <= 0x39
    ensures IsDecimalText(sign + body) <==> IsDecimalText(body)
  {
    var s := sign + body;
    if sign != [] {
      assert s[0] == sign[0] && s[1..] == body;
    } else {
      assert s == body;
    }
  }

  lemma WholeIsText(sign: seq<Byte>, whole: seq<Byte>)
    requires IsSign(sign) && IsRun(whole)
    ensures IsDecimalText(sign + whole)
  {
    SplitAt(whole, [], DOT);
    SignIsStripped(sign, whole);
  }

  lemma PointedIsText(sign: seq<Byte>, whole: seq<Byte>, frac: seq<Byte>)
    requires IsSign(sign) && IsRun(whole) && IsRun(frac)
    ensures IsDecimalText(Pointed(sign, whole, frac))
  {
    var body := whole + [DOT] + frac;
    SplitAt(whole, frac, DOT);
    assert body[0] == whole[0];
    SignIsStripped(sign, body);
  }

  lemma BodyIsDecimal(sign: seq<Byte>, body: seq<Byte>)
    requires IsSign(sign)
    requires match SplitOnce(body, DOT)
             case Some((whole, frac)) => IsRun(whole) && IsRun(frac)
             case None => IsRun(body)
    ensures IsDecimal(sign + body)
  {
    var split := SplitOnce(body, DOT);
    if split.Some? {
      var (whole, frac) := split.value;
      assert body == whole + [DOT] + frac;
      assert sign + body == Pointed(sign, whole, frac);
    }
  }

  lemma TextIsDecimal(s: seq<Byte>)
    requires IsDecimalText(s)
    ensures IsDecimal(s)
  {
    var signed := s != [] && (s[0] == DASH || s[0] == PLUS);
    var sign, body := if signed then [s[0]] else [], if signed then s[1..] else s;
    assert s == sign + body;
    BodyIsDecimal(sign, body);
  }

  /** The grammar of the binder and of the renderer is this one. */
  lemma DecimalIff(s: seq<Byte>)
    ensures IsDecimalText(s) <==> IsDecimal(s)
  {
    if IsDecimalText(s) {
      TextIsDecimal(s);
    } else if IsDecimal(s) {
      if sign, whole :| IsSign(sign) && IsRun(whole) && s == sign + whole {
        WholeIsText(sign, whole);
      } else {
        var sign, whole, frac :| IsSign(sign) && IsRun(whole) && IsRun(frac) && s == Pointed(sign, whole, frac);
        PointedIsText(sign, whole, frac);
      }
    }
  }

  // ---------------------------------------------------------------------------------------------
  // What a bound parameter denotes

  /** The driver value a parameter stands for. */
  ghost predicate Denotes(v: Value, my: MyValue) {
    match v
    case Null => my == NULL
    case Bool(b) => my == Int(if b then 1 else 0)
    case I64(n) => my == Int(n)
    case U64(u) => my == UInt(u)
    case F64(f) => my == Double(f)
    case Bytes(raw) => my == MyValue.Bytes(raw)
    case Text(s) => my == MyValue.Bytes(s)
    case Uuid(s) => my == MyValue.Bytes(s)
    case Json(s) => my == MyValue.Bytes(s)
    case Decimal(s) => my == MyValue.Bytes(s) && IsDecimal(s)
    case Date(s) => IsMoment(my) && HasNoClock(my) && s == PrintedDate(my.y, my.mo, my.d)
    case Time(s) => IsTime(my) && IsSpellingOf(s, my)
    case Timestamp(s) => IsMoment(my) && Spells(s, my, SPACE)
    case TimestampTz(s) => IsMoment(my) && SpellsInstant(s, my)
  }

  predicate HasNoClock(my: MyValue)
    requires my.Date?
  {
    my.h == 0 && my.mi == 0 && my.s == 0 && my.us == 0
  }

  /** The date parser reads exactly the printed dates of the calendar. */
  lemma DateSpellings(s: seq<Byte>, v: MyValue)
    requires Cuts(s)
    ensures ParseDate(s) == Some(v) <==> IsMoment(v) && HasNoClock(v) && s == PrintedDate(v.y, v.mo, v.d)
  {
    if ParseDate(s) == Some(v) {
      SplitDateIsPrinted(s);
    } else if IsMoment(v) && HasNoClock(v) && s == PrintedDate(v.y, v.mo, v.d) {
      SplitPrintedDate(v.y, v.mo, v.d);
    }
  }

  lemma DateBinds(s: Str, my: MyValue)
    ensures ValueToMy(Value.Date(s)) == Ok(my) <==> Denotes(Value.Date(s), my)
  {
    StrHasCuts(s);
    DateSpellings(s, my);
  }

  lemma TimeBinds(s: Str, my: MyValue)
    ensures ValueToMy(Value.Time(s)) == Ok(my) <==> Denotes(Value.Time(s), my)
  {
    StrHasCuts(s);
    TimeSpellings(s, my);
  }

  lemma DatetimeBinds(s: Str, my: MyValue)
    ensures ValueToMy(Timestamp(s)) == Ok(my) <==> Denotes(Timestamp(s), my)
  {
    StrHasCuts(s);
    DatetimeSpellings(s, my);
  }

  lemma InstantBinds(s: Str, my: MyValue)
    ensures ValueToMy(TimestampTz(s)) == Ok(my) <==> Denotes(TimestampTz(s), my)
  {
    StrHasCuts(s);
    InstantSpellings(s, my);
  }

  lemma TemporalBinds(v: Value, my: MyValue)
    requires v.Date? || v.Time? || v.Timestamp? || v.TimestampTz?
    ensures ValueToMy(v) == Ok(my) <==> Denotes(v, my)
  {
    match v
    case Date(s) => DateBinds(s, my);
    case Time(s) => TimeBinds(s, my);
    case Timestamp(s) => DatetimeBinds(s, my);
    case TimestampTz(s) => InstantBinds(s, my);
  }

  lemma ScalarBinds(v: Value, my: MyValue)
    requires !(v.Date? || v.Time? || v.Timestamp? || v.TimestampTz?)
    ensures ValueToMy(v) == Ok(my) <==> Denotes(v, my)
  {
    if v.Decimal? {
      DecimalIff(v.s);
    }
  }

  lemma OnlyNullDenotesNull(v: Value)
    ensures Denotes(v, NULL) <==> v == Null
  {
  }

  lemma BindsIff(v: Value, my: MyValue)
    ensures ValueToMy(v) == Ok(my) <==> Denotes(v, my)
  {
    if v.Date? || v.Time? || v.Timestamp? || v.TimestampTz? {
      TemporalBinds(v, my);
    } else {
      ScalarBinds(v, my);
    }
  }

  /** A parameter binds to a driver value if and only if it denotes it: NULL to NULL and nothing else to
      NULL, every kind of value to its own driver form, and a text that denotes nothing is refused. */
  lemma BindsWhatItDenotes(v: Value, my: MyValue)
    ensures ValueToMy(v) == Ok(my) <==> Denotes(v, my)
    ensures ValueToMy(v) == Ok(NULL) <==> v == Null
  {
    BindsIff(v, my);
    BindsIff(v, NULL);
    OnlyNullDenotesNull(v);
  }

  // ---------------------------------------------------------------------------------------------
  // Where the digits stand

  /** The two or four digits from `i` on read as `n`. */
  predicate Reads(s: seq<Byte>, i: nat, j: nat, n: nat) {
    i <= j <= |s| && Digits(s[i..j]) == Some(n)
  }

  /** Year, month, day: `YYYY-MM-DD`. */
  lemma DateLayout(v: MyValue)
    requires DateToText(v).Ok? && InCalendar(v.y, v.mo, v.d)
    ensures var s := DateToText(v).value;
            && |s| == 10 && s[4] == 0x2D && s[7] == 0x2D
            && Reads(s, 0, 4, v.y) && Reads(s, 5, 7, v.mo) && Reads(s, 8, 10, v.d)
  {
    DateIsPrinted(v.y, v.mo, v.d);
    PrintedDateLayout(v.y, v.mo, v.d);
  }

  lemma PrintedDateLayout(y: nat, mo: nat, d: nat)
    requires InCalendar(y, mo, d)
    ensures var s := PrintedDate(y, mo, d);
            && |s| == 10 && s[4] == 0x2D && s[7] == 0x2D
            && Reads(s, 0, 4, y) && Reads(s, 5, 7, mo) && Reads(s, 8, 10, d)
  {
    SmallPowers();
    PaddedReads(y, 4);
    PaddedReads(mo, 2);
    PaddedReads(d, 2);
    DashJoin(Padded(y, 4), Padded(mo, 2), Padded(d, 2));
  }

  lemma HmsLayout(h: nat, mi: nat, sec: nat, rest: seq<Byte>)
    requires h <= 23 && mi <= 59 && sec <= 59
    ensures var s := PrintedHms(h, mi, sec) + rest;
            && |s| == 8 + |rest| && s[2] == 0x3A && s[5] == 0x3A && s[8..] == rest
            && Reads(s, 0, 2, h) && Reads(s, 3, 5, mi) && Reads(s, 6, 8, sec)
  {
    SmallPowers();
    PaddedReads(h, 2);
    PaddedReads(mi, 2);
    PaddedReads(sec, 2);
    ColonJoin(Padded(h, 2), Padded(mi, 2), Padded(sec, 2));
    var hms := PrintedHms(h, mi, sec);
    var s := hms + rest;
    assert s[0..2] == hms[0..2] && s[3..5] == hms[3..5] && s[6..8] == hms[6..8];
  }

  /** Hours, minutes, seconds: `HH:MM:SS`, and six digits of microseconds behind a dot unless they are zero. */
  lemma ClockLayout(h: nat, mi: nat, sec: nat, us: nat)
    requires IsTimeOfDay(h, mi, sec, us)
    ensures var s := FmtTimeOfDay(h, mi, sec, us);
            && |s| == (if us == 0 then 8 else 15) && s[2] == 0x3A && s[5] == 0x3A
            && Reads(s, 0, 2, h) && Reads(s, 3, 5, mi) && Reads(s, 6, 8, sec)
            && (us != 0 ==> s[8] == 0x2E && Reads(s, 9, 15, us))
  {
    ClockIsPrinted(h, mi, sec, us);
    HmsLayout(h, mi, sec, PrintedFraction(us));
    if us != 0 {
      SmallPowers();
      PaddedReads(us, 6);
      FractionLayout(FmtTimeOfDay(h, mi, sec, us), Padded(us, 6));
    }
  }

  lemma FractionLayout(s: seq<Byte>, digits: seq<Byte>)
    requires |s| == 15 && s[8..] == [DOT] + digits
    ensures s[8] == DOT && s[9..15] == digits
  {
    assert s[8] == s[8..][0] && s[9..15] == s[8..][1..];
  }

  /** A date, a space or `T`, a clock, and `Z` for an instant. */
  lemma MomentLayout(v: MyValue)
    requires v.Date? && IsTimeOfDay(v.h, v.mi, v.s, v.us) && InCalendar(v.y, v.mo, v.d)
    ensures DatetimeToText(v).Ok? && TimestamptzToText(v).Ok?
    ensures var s, clock := DatetimeToText(v).value, FmtTimeOfDay(v.h, v.mi, v.s, v.us);
            s == CanonicalDate(v.y, v.mo, v.d) + [0x20] + clock
    ensures var s, clock := TimestamptzToText(v).value, FmtTimeOfDay(v.h, v.mi, v.s, v.us);
            if v == ZERO_MOMENT then s == CanonicalDate(0, 0, 0) + [0x20] + clock
            else s == CanonicalDate(v.y, v.mo, v.d) + [0x54] + clock + [0x5A]
  {
    if v == ZERO_MOMENT {
      ZeroDatetimeParses();
      DatetimeSpellings(ZERO_DATETIME, v);
      DateIsPrinted(0, 0, 0);
      ClockIsPrinted(0, 0, 0, 0);
      ZeroIsPlain();
    }
  }

  lemma ZeroIsPlain()
    ensures ZERO_DATETIME == PrintedDate(0, 0, 0) + [SPACE] + PrintedClock(0, 0, 0, 0)
  {
    ZerosRead([ZERO, ZERO]);
    ZerosRead([ZERO, ZERO, ZERO, ZERO]);
    PrintsUnique(Padded(0, 2), [ZERO, ZERO], 0, 2);
    PrintsUnique(Padded(0, 4), [ZERO, ZERO, ZERO, ZERO], 0, 4);
    assert PrintedFraction(0) == [];
  }

  /** The sentinel, and the ends of the TIME range: 838:59:59.999999 and not a microsecond more, either way. */
  lemma Edges(neg: bool)
    ensures ZERO_DATETIME == Lit("0000-00-00 00:00:00")
    ensures TimeToText(MyValue.Time(neg, 34, 22, 59, 59, 999_999)).Ok?
    ensures TimeToText(MyValue.Time(neg, 34, 23, 0, 0, 0)).Err?
    ensures Magnitude(34, 22, 59, 59, 999_999) + 1 == Magnitude(34, 23, 0, 0, 0) && 34 * 24 + 22 == 838
  {
    TimeAccepted(MyValue.Time(neg, 34, 22, 59, 59, 999_999));
    TimeAccepted(MyValue.Time(neg, 34, 23, 0, 0, 0));
    SentinelSpelled();
  }

  lemma SentinelSpelled()
    ensures ZERO_DATETIME == Lit("0000-00-00 00:00:00")
  {
    var z: Byte := 0x30;
    assert ZERO_DATETIME
        == [z, z, z, z, 0x2D, z, z, 0x2D, z, z, 0x20, z, z, 0x3A, z, z, 0x3A, z, z];
  }
}
