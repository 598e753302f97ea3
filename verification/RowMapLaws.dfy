/** What reading a cell promises, by the type of its column: which cells are read, as what, that nothing of
    them is lost, and that no temporal text is taken for one of another type. */
module RowMapLaws {
  import opened Utf8
  import opened Texts
  import opened DecimalText
  import opened Wrappers
  import opened MyText
  import opened Bind
  import opened TemporalLaws
  import opened RowMap

  // ---------------------------------------------------------------------------------------------
  // By column type

  /** The integer in a cell, in either form of the driver. */
  function IntegerOf(cell: MyValue): Option<int> {
    match cell
    case Int(n) => Some(n)
    case UInt(u) => Some(u)
    case _ => None
  }

  /** The boolean idiom: `TINYINT(1)`, of either sign. */
  predicate IsFlag(col: Column) {
    col.ct == Tiny && col.length == 1
  }

  predicate IsBigUnsigned(col: Column) {
    col.ct == LongLong && col.unsigned
  }

  predicate IsWhole(ct: ColumnType) {
    ct.Tiny? || ct.Short? || ct.Int24? || ct.Long? || ct.LongLong?
  }

  predicate IsMoment(ct: ColumnType) {
    ct.DateType? || ct.TimeType? || ct.DatetimeType? || ct.TimestampType?
  }

  /** Text in the column's charset; the binary collation, number 63, takes any bytes. */
  predicate HasCharset(col: Column, raw: seq<Byte>) {
    col.charset == 63 || WellFormed(raw)
  }

  predicate IsZeroClock(cell: MyValue)
    requires cell.Date?
  {
    cell.h == 0 && cell.mi == 0 && cell.s == 0 && cell.us == 0
  }

  predicate IsClock(cell: MyValue)
    requires cell.Date? || cell.Time?
  {
    IsTimeOfDay(cell.h, cell.mi, cell.s, cell.us)
  }

  predicate InTimeRange(cell: MyValue)
    requires cell.Time?
  {
    Magnitude(cell.days, cell.h, cell.mi, cell.s, cell.us) <= MAX_TIME_US
  }

  /** The cells a column of this type can hold. */
  predicate Fits(col: Column, cell: MyValue) {
    match col.ct
    case Tiny | Short | Int24 | Long | LongLong =>
      && IntegerOf(cell).Some?
      && if IsBigUnsigned(col) then IntegerOf(cell).value >= 0 else IntegerOf(cell).value < 0x8000_0000_0000_0000
    case FloatType | DoubleType => cell.Float? || cell.Double?
    case OldDecimal | NewDecimal => cell.Bytes? && WellFormed(cell.raw) && IsDecimalText(cell.raw)
    case DateType => cell.Date? && IsZeroClock(cell)
    case TimeType => cell.Time? && IsClock(cell) && InTimeRange(cell)
    case DatetimeType | TimestampType => cell.Date? && IsClock(cell)
    case JsonType => cell.Bytes? && WellFormed(cell.raw)
    case EnumType => cell.Bytes? && HasCharset(col, cell.raw)
    case Varchar | VarString | StringType | Blob | TinyBlob | MediumBlob | LongBlob =>
      !col.setFlag && cell.Bytes? && HasCharset(col, cell.raw)
    case Year | Bit | SetType | Geometry | Vector | NullType | OtherType => false
  }

  /** The value such a cell stands for: the number, the bytes, or the printed moment. */
  ghost predicate Means(col: Column, cell: MyValue, v: Value)
    requires Fits(col, cell)
  {
    match col.ct
    case Tiny | Short | Int24 | Long | LongLong =>
      var n := IntegerOf(cell).value;
      if IsFlag(col) then v.Bool? && (v.b <==> n != 0)
      else if IsBigUnsigned(col) then v.U64? && v.u == n
      else v.I64? && v.n == n
    case FloatType | DoubleType => v.F64? && v.f == cell.f
    case OldDecimal | NewDecimal => v.Decimal? && v.s == cell.raw
    case DateType => v.Date? && v.s == PrintedDate(cell.y, cell.mo, cell.d)
    case TimeType =>
      v.Time? && v.s == Signed(KeepsSign(cell), PrintedClock(cell.days * 24 + cell.h, cell.mi, cell.s, cell.us))
    case DatetimeType => v.Timestamp? && v.s == PrintedDatetime(cell, SPACE)
    case TimestampType => v.TimestampTz? && v.s == InstantOf(cell)
    case JsonType => v.Json? && v.s == cell.raw
    case EnumType | Varchar | VarString | StringType | Blob | TinyBlob | MediumBlob | LongBlob =>
      if col.charset == 63 then v.Bytes? && v.raw == cell.raw else v.Text? && v.s == cell.raw
  }

  /** The text of an instant, or the sentinel. */
  ghost function InstantOf(cell: MyValue): seq<Byte>
    requires cell.Date?
  {
    if cell == MyValue.Date(0, 0, 0, 0, 0, 0, 0) then ZERO_DATETIME else PrintedDatetime(cell, TEE) + [ZED]
  }

  // ---------------------------------------------------------------------------------------------
  // Exactly the fitting cells are read, as what they stand for

  ghost predicate ReadsRight(col: Column, cell: MyValue) {
    && (ExtractValue(cell, col).Ok? <==> Fits(col, cell))
    && (Fits(col, cell) ==> Means(col, cell, ExtractValue(cell, col).value))
  }

  lemma WholeReads(col: Column, cell: MyValue)
    requires IsWhole(col.ct) && !cell.NULL?
    ensures ReadsRight(col, cell)
  {
  }

  lemma FloatReads(col: Column, cell: MyValue)
    requires col.ct in {FloatType, DoubleType} && !cell.NULL?
    ensures ReadsRight(col, cell)
  {
  }

  lemma DecimalOrJsonReads(col: Column, cell: MyValue)
    requires col.ct in {OldDecimal, NewDecimal, JsonType} && !cell.NULL?
    ensures ReadsRight(col, cell)
  {
  }

  /** The text a temporal cell is read as. */
  function MomentText(ct: ColumnType, cell: MyValue): Result<seq<Byte>, PoolError>
    requires IsMoment(ct)
  {
    match ct
    case DateType => DateToText(cell)
    case TimeType => TimeToText(cell)
    case DatetimeType => DatetimeToText(cell)
    case TimestampType => TimestamptzToText(cell)
  }

  function TextOf(v: Value): Option<Str> {
    match v
    case Date(s) => Some(s)
    case Time(s) => Some(s)
    case Timestamp(s) => Some(s)
    case TimestampTz(s) => Some(s)
    case _ => None
  }

  predicate HasMomentTag(ct: ColumnType, v: Value)
    requires IsMoment(ct)
  {
    match ct
    case DateType => v.Date?
    case TimeType => v.Time?
    case DatetimeType => v.Timestamp?
    case TimestampType => v.TimestampTz?
  }

  /** The value read is the text of the column's own type, under that type's tag. */
  ghost predicate ReadsMoment(col: Column, cell: MyValue)
    requires IsMoment(col.ct)
  {
    var r, text := ExtractValue(cell, col), MomentText(col.ct, cell);
    && (r.Ok? <==> text.Ok?)
    && (r.Ok? ==> HasMomentTag(col.ct, r.value) && TextOf(r.value) == Some(text.value))
  }

  lemma DateExtracts(col: Column, cell: MyValue)
    requires col.ct == DateType && !cell.NULL?
    ensures ReadsMoment(col, cell)
  {
    assert ExtractValue(cell, col) == TaggedText(DateToText(cell), KDate);
  }

  lemma TimeExtracts(col: Column, cell: MyValue)
    requires col.ct == TimeType && !cell.NULL?
    ensures ReadsMoment(col, cell)
  {
    assert ExtractValue(cell, col) == TaggedText(TimeToText(cell), KTime);
  }

  lemma DatetimeExtracts(col: Column, cell: MyValue)
    requires col.ct == DatetimeType && !cell.NULL?
    ensures ReadsMoment(col, cell)
  {
    assert ExtractValue(cell, col) == TaggedText(DatetimeToText(cell), KTimestamp);
  }

  lemma InstantExtracts(col: Column, cell: MyValue)
    requires col.ct == TimestampType && !cell.NULL?
    ensures ReadsMoment(col, cell)
  {
    assert ExtractValue(cell, col) == TaggedText(TimestamptzToText(cell), KTimestampTz);
  }

  lemma MomentExtracts(col: Column, cell: MyValue)
    requires IsMoment(col.ct) && !cell.NULL?
    ensures ReadsMoment(col, cell)
  {
    match col.ct
    case DateType => DateExtracts(col, cell);
    case TimeType => TimeExtracts(col, cell);
    case DatetimeType => DatetimeExtracts(col, cell);
    case TimestampType => InstantExtracts(col, cell);
  }

  lemma MomentTextFits(col: Column, cell: MyValue)
    requires IsMoment(col.ct)
    ensures MomentText(col.ct, cell).Ok? <==> Fits(col, cell)
  {
    if col.ct == TimeType && cell.Time? && IsClock(cell) {
      TimeAccepted(cell);
    }
  }

  lemma MomentTextIs(col: Column, cell: MyValue)
    requires IsMoment(col.ct) && Fits(col, cell)
    ensures MomentText(col.ct, cell).Ok?
    ensures MomentText(col.ct, cell).value
         == match col.ct
            case DateType => PrintedDate(cell.y, cell.mo, cell.d)
            case TimeType => Signed(KeepsSign(cell), PrintedClock(cell.days * 24 + cell.h, cell.mi, cell.s, cell.us))
            case DatetimeType => PrintedDatetime(cell, SPACE)
            case TimestampType => InstantOf(cell)
  {
    MomentTextFits(col, cell);
    match col.ct
    case DateType => DateIsPrinted(cell.y, cell.mo, cell.d);
    case TimeType => TimeTextIs(cell, cell.days * 24 + cell.h);
    case DatetimeType => DatetimeTextIs(cell);
    case TimestampType =>
      if cell != MyValue.Date(0, 0, 0, 0, 0, 0, 0) {
        TimestamptzTextIs(cell);
      }
  }

  lemma MomentReads(col: Column, cell: MyValue)
    requires IsMoment(col.ct) && !cell.NULL?
    ensures ReadsRight(col, cell)
  {
    MomentExtracts(col, cell);
    MomentTextFits(col, cell);
    if Fits(col, cell) {
      MomentTextIs(col, cell);
    }
  }

  predicate IsStringLike(ct: ColumnType) {
    || ct.EnumType? || ct.Varchar? || ct.VarString? || ct.StringType?
    || ct.Blob? || ct.TinyBlob? || ct.MediumBlob? || ct.LongBlob?
  }

  predicate IsRefused(ct: ColumnType) {
    || ct.Year? || ct.Bit? || ct.SetType? || ct.Geometry? || ct.Vector? || ct.NullType? || ct.OtherType?
  }

  lemma StringLikeReads(col: Column, cell: MyValue)
    requires IsStringLike(col.ct) && !cell.NULL?
    ensures ReadsRight(col, cell)
  {
    if col.ct != EnumType && col.setFlag {
      assert ColumnKind(col).Err?;
    } else {
      assert ColumnKind(col) == Ok(StringFamilyKind(col));
      assert ExtractValue(cell, col) == ExtractText(cell, StringFamilyKind(col));
    }
  }

  lemma RefusedReads(col: Column, cell: MyValue)
    requires IsRefused(col.ct) && !cell.NULL?
    ensures ReadsRight(col, cell)
  {
  }

  /** For every column and every cell that is not NULL: the cell is read if and only if the column's type
      can hold it, and then as the value it stands for under that type. */
  lemma ReadsExactly(col: Column, cell: MyValue)
    requires !cell.NULL?
    ensures ExtractValue(cell, col).Ok? <==> Fits(col, cell)
    ensures Fits(col, cell) ==> Means(col, cell, ExtractValue(cell, col).value)
  {
    if IsWhole(col.ct) {
      WholeReads(col, cell);
    } else if IsMoment(col.ct) {
      MomentReads(col, cell);
    } else if col.ct in {FloatType, DoubleType} {
      FloatReads(col, cell);
    } else if col.ct in {OldDecimal, NewDecimal, JsonType} {
      DecimalOrJsonReads(col, cell);
    } else if IsStringLike(col.ct) {
      StringLikeReads(col, cell);
    } else {
      RefusedReads(col, cell);
    }
  }

  // ---------------------------------------------------------------------------------------------
  // Nothing is lost

  /** The two cells hold the same number, bytes or moment. Of a `TINYINT(1)` only being zero counts, of a
      zero duration not the sign. */
  predicate SameContent(col: Column, a: MyValue, b: MyValue)
    requires Fits(col, a) && Fits(col, b)
  {
    match col.ct
    case Tiny | Short | Int24 | Long | LongLong =>
      var m, n := IntegerOf(a).value, IntegerOf(b).value;
      if IsFlag(col) then m == 0 <==> n == 0 else m == n
    case FloatType | DoubleType => a.f == b.f
    case DateType | DatetimeType | TimestampType => a == b
    case TimeType => a.(neg := KeepsSign(a)) == b.(neg := KeepsSign(b))
    case OldDecimal | NewDecimal | JsonType | EnumType | Varchar | VarString | StringType | Blob | TinyBlob
       | MediumBlob | LongBlob => a.raw == b.raw
  }

  /** Two `TIME` cells with the same text are the same duration. */
  lemma SameTimeText(a: MyValue, b: MyValue)
    requires a.Time? && IsClock(a) && InTimeRange(a) && b.Time? && IsClock(b) && InTimeRange(b)
    ensures TimeToText(a) == TimeToText(b) <==> a.(neg := KeepsSign(a)) == b.(neg := KeepsSign(b))
  {
    TimeRoundTrip(a);
    TimeRoundTrip(b);
    SignOfZero(a);
    SignOfZero(b);
  }

  lemma SameMomentText(col: Column, a: MyValue, b: MyValue)
    requires IsMoment(col.ct) && Fits(col, a) && Fits(col, b)
    ensures MomentText(col.ct, a) == MomentText(col.ct, b) <==> SameContent(col, a, b)
  {
    MomentTextFits(col, a);
    MomentTextFits(col, b);
    if col.ct == TimeType {
      SameTimeText(a, b);
    } else if MomentText(col.ct, a) == MomentText(col.ct, b) {
      match col.ct
      case DateType => DateToTextInjective(a, b);
      case DatetimeType => DatetimeToTextInjective(a, b);
      case TimestampType => TimestamptzToTextInjective(a, b);
    }
  }

  lemma SameMoment(col: Column, a: MyValue, b: MyValue)
    requires IsMoment(col.ct) && Fits(col, a) && Fits(col, b)
    ensures ExtractValue(a, col) == ExtractValue(b, col) <==> SameContent(col, a, b)
  {
    MomentExtracts(col, a);
    MomentExtracts(col, b);
    SameMomentText(col, a, b);
    MomentTextFits(col, a);
    MomentTextFits(col, b);
  }

  lemma SameScalar(col: Column, a: MyValue, b: MyValue)
    requires !IsMoment(col.ct) && Fits(col, a) && Fits(col, b)
    ensures ExtractValue(a, col) == ExtractValue(b, col) <==> SameContent(col, a, b)
  {
    ReadsExactly(col, a);
    ReadsExactly(col, b);
  }

  /** Two cells of one column are read as the same value if and only if they hold the same content. */
  lemma NothingIsLost(col: Column, a: MyValue, b: MyValue)
    requires Fits(col, a) && Fits(col, b)
    ensures ExtractValue(a, col) == ExtractValue(b, col) <==> SameContent(col, a, b)
  {
    if IsMoment(col.ct) {
      SameMoment(col, a, b);
    } else {
      SameScalar(col, a, b);
    }
  }

  // ---------------------------------------------------------------------------------------------
  // What the server delivers

  function MinOf(col: Column): int {
    if col.unsigned then 0
    else
      match col.ct
      case Tiny => -0x80
      case Short => -0x8000
      case Int24 => -0x80_0000
      case Long => -0x8000_0000
      case _ => -0x8000_0000_0000_0000
  }

  function MaxOf(col: Column): int {
    var signed := match col.ct
      case Tiny => 0x7F
      case Short => 0x7FFF
      case Int24 => 0x7F_FFFF
      case Long => 0x7FFF_FFFF
      case _ => 0x7FFF_FFFF_FFFF_FFFF;
    if col.unsigned then 2 * signed + 1 else signed
  }

  /** The integers a server sends for a column: the whole range of its type, in either driver form. */
  predicate InRange(col: Column, cell: MyValue) {
    IntegerOf(cell).Some? && MinOf(col) <= IntegerOf(cell).value <= MaxOf(col)
  }

  /** Every integer of a column's range is read as itself (or as whether it is zero): the widths below
      BIGINT fit a signed 64-bit value whatever their sign, and BIGINT UNSIGNED alone needs the other. */
  lemma WholeRangeIsRead(col: Column, cell: MyValue)
    requires IsWhole(col.ct) && InRange(col, cell)
    ensures Fits(col, cell) && ExtractValue(cell, col).Ok? && Means(col, cell, ExtractValue(cell, col).value)
  {
    WholeReads(col, cell);
  }

  // ---------------------------------------------------------------------------------------------
  // Only its own parser reads a temporal text

  /** Four digits in front are no hour field. */
  lemma YearIsNoHour(s: seq<Byte>)
    requires Cuts(s) && |s| >= 4 && forall i :: 0 <= i < 4 ==> IsDigit(s[i])
    ensures ParseTime(s) == None
  {
    var split := SplitOnce(s, COLON);
    if split.Some? {
      assert split.value.0 == s[..IndexOf(s, COLON)];
      assert IndexOf(s, COLON) >= 4;
    }
  }

  /** A sign at most in front, then digits, colons and a dot. */
  predicate TimeLike(s: seq<Byte>) {
    s != [] && forall i :: 1 <= i < |s| ==> IsDigit(s[i]) || s[i] == COLON || s[i] == DOT
  }

  lemma TimeIsNoDate(s: seq<Byte>)
    requires Cuts(s) && TimeLike(s) && |s| >= 2
    ensures ParseDate(s) == None && ParseDatetime(s) == None && ParseRfc3339Utc(s) == None
  {
    assert ZERO_DATETIME[10] == SPACE;
  }

  lemma ClockIsTimeLike(neg: bool, hours: nat, mi: nat, sec: nat, us: nat)
    ensures var s := Signed(neg, PrintedClock(hours, mi, sec, us)); TimeLike(s) && |s| >= 2
  {
    PaddedDigits(hours, 2);
    PaddedDigits(mi, 2);
    PaddedDigits(sec, 2);
    PaddedDigits(us, 6);
    var clock := PrintedClock(hours, mi, sec, us);
    assert forall i :: 0 <= i < |clock| ==> IsDigit(clock[i]) || clock[i] == COLON || clock[i] == DOT;
  }

  lemma PaddedDigits(n: nat, w: nat)
    requires 0 < w
    ensures AllDigits(Padded(n, w)) && |Padded(n, w)| >= w
  {
    PaddedLength(n, w);
  }

  lemma DateStartsWithYear(y: nat, mo: nat, d: nat, rest: seq<Byte>)
    ensures var s := PrintedDate(y, mo, d) + rest; |s| >= 10 && forall i :: 0 <= i < 4 ==> IsDigit(s[i])
  {
    PaddedDigits(y, 4);
    PaddedDigits(mo, 2);
    PaddedDigits(d, 2);
  }

  /** Which parsers read a text. */
  predicate ReadBy(s: seq<Byte>, date: bool, time: bool, naive: bool, utc: bool)
    requires Cuts(s)
  {
    && (ParseDate(s).Some? <==> date) && (ParseTime(s).Some? <==> time)
    && (ParseDatetime(s).Some? <==> naive) && (ParseRfc3339Utc(s).Some? <==> utc)
  }

  lemma DateTextReadBy(cell: MyValue, s: Str)
    requires DateToText(cell) == Ok(s) && InBounds(cell)
    ensures Cuts(s) && ReadBy(s, true, false, false, false)
  {
    DateRoundTrip(cell);
    DateIsPrinted(cell.y, cell.mo, cell.d);
    SplitPrintedDate(cell.y, cell.mo, cell.d);
    DateStartsWithYear(cell.y, cell.mo, cell.d, []);
    assert s + [] == s;
    YearIsNoHour(s);
    assert |s| == 10 && |ZERO_DATETIME| == 19;
    assert s[9] != ZED;
  }

  lemma TimeTextReadBy(cell: MyValue, s: Str)
    requires TimeToText(cell) == Ok(s)
    ensures Cuts(s) && ReadBy(s, false, true, false, false)
  {
    TimeRoundTrip(cell);
    TimeTextIs(cell, cell.days * 24 + cell.h);
    ClockIsTimeLike(KeepsSign(cell), cell.days * 24 + cell.h, cell.mi, cell.s, cell.us);
    TimeIsNoDate(s);
  }

  /** A date with more behind it is neither a date nor a duration. */
  lemma LongerThanDate(s: seq<Byte>, y: nat, mo: nat, d: nat, rest: seq<Byte>)
    requires Cuts(s) && s == PrintedDate(y, mo, d) + rest && rest != []
    ensures ParseDate(s) == None && ParseTime(s) == None
  {
    DateStartsWithYear(y, mo, d, rest);
    YearIsNoHour(s);
    PaddedDigits(y, 4);
    PaddedDigits(mo, 2);
    PaddedDigits(d, 2);
    assert |s| > 10;
  }

  lemma NaiveText(cell: MyValue, s: Str)
    requires DatetimeToText(cell) == Ok(s) && InBounds(cell)
    ensures Cuts(s) && ParseDatetime(s).Some? && (ParseRfc3339Utc(s).Some? <==> s == ZERO_DATETIME)
  {
    DatetimeRoundTrip(cell);
    NaiveAndUtcDisjoint(s);
  }

  lemma NaiveShape(cell: MyValue, s: Str)
    requires DatetimeToText(cell) == Ok(s)
    ensures s == PrintedDate(cell.y, cell.mo, cell.d) + ([SPACE] + PrintedClock(cell.h, cell.mi, cell.s, cell.us))
  {
    DatetimeTextIs(cell);
    Associate(PrintedDate(cell.y, cell.mo, cell.d), [SPACE], PrintedClock(cell.h, cell.mi, cell.s, cell.us));
  }

  lemma DatetimeTextReadBy(cell: MyValue, s: Str)
    requires DatetimeToText(cell) == Ok(s) && InBounds(cell)
    ensures Cuts(s) && ReadBy(s, false, false, true, s == ZERO_DATETIME)
  {
    NaiveText(cell, s);
    NaiveShape(cell, s);
    LongerThanDate(s, cell.y, cell.mo, cell.d, [SPACE] + PrintedClock(cell.h, cell.mi, cell.s, cell.us));
  }

  lemma SentinelReadBy()
    ensures Cuts(ZERO_DATETIME) && ReadBy(ZERO_DATETIME, false, false, true, true)
  {
    ZeroDatetimeParses();
    NaiveAndUtcDisjoint(ZERO_DATETIME);
    assert forall i :: 0 <= i < 4 ==> ZERO_DATETIME[i] == ZERO;
    YearIsNoHour(ZERO_DATETIME);
    assert |ZERO_DATETIME| == 19;
  }

  lemma InstantReadBack(cell: MyValue, s: Str)
    requires TimestamptzToText(cell) == Ok(s) && InBounds(cell)
    ensures Cuts(s) && ParseRfc3339Utc(s).Some? && (ParseDatetime(s).Some? <==> s == ZERO_DATETIME)
  {
    TimestamptzRoundTrip(cell);
    NaiveAndUtcDisjoint(s);
  }

  lemma InstantShape(cell: MyValue, s: Str)
    requires TimestamptzToText(cell) == Ok(s) && cell != MyValue.Date(0, 0, 0, 0, 0, 0, 0)
    ensures s == PrintedDate(cell.y, cell.mo, cell.d) + ([TEE] + PrintedClock(cell.h, cell.mi, cell.s, cell.us) + [ZED])
  {
    TimestamptzTextIs(cell);
    Behind(PrintedDate(cell.y, cell.mo, cell.d), [TEE], PrintedClock(cell.h, cell.mi, cell.s, cell.us), [ZED]);
  }

  lemma Behind(a: seq<Byte>, b: seq<Byte>, c: seq<Byte>, d: seq<Byte>)
    ensures a + b + c + d == a + (b + c + d)
  {
  }

  lemma InstantTextReadBy(cell: MyValue, s: Str)
    requires TimestamptzToText(cell) == Ok(s) && InBounds(cell)
    ensures Cuts(s) && ReadBy(s, false, false, s == ZERO_DATETIME, true)
  {
    if cell == MyValue.Date(0, 0, 0, 0, 0, 0, 0) {
      SentinelReadBy();
    } else {
      InstantReadBack(cell, s);
      InstantShape(cell, s);
      var clock := PrintedClock(cell.h, cell.mi, cell.s, cell.us);
      LongerThanDate(s, cell.y, cell.mo, cell.d, [TEE] + clock + [ZED]);
    }
  }

  /** No temporal text is taken for one of another type: inside the calendar bounds exactly the parser of
      the column's own type reads it, but for the all-zero sentinel, which both the naive and the UTC
      parser read. */
  lemma TypesNeverMix(col: Column, cell: MyValue)
    requires IsMoment(col.ct) && Fits(col, cell) && InBounds(cell)
    ensures ExtractValue(cell, col).Ok? && TextOf(ExtractValue(cell, col).value).Some?
    ensures var s := TextOf(ExtractValue(cell, col).value).value;
            && Cuts(s)
            && ReadBy(s, col.ct == DateType, col.ct == TimeType,
                      col.ct == DatetimeType || s == ZERO_DATETIME, col.ct == TimestampType || s == ZERO_DATETIME)
  {
    MomentTextFits(col, cell);
    MomentExtracts(col, cell);
    var s := TextOf(ExtractValue(cell, col).value).value;
    match col.ct
    case DateType => DateTextReadBy(cell, s);
    case TimeType => TimeTextReadBy(cell, s);
    case DatetimeType => DatetimeTextReadBy(cell, s);
    case TimestampType => InstantTextReadBy(cell, s);
  }
}
