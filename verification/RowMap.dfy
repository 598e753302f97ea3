/** Column metadata and cells to canonical values, and the round trip back to driver values. */
module RowMap {
  import opened Utf8
  import opened Wrappers
  import opened MyText
  import opened Bind
  import opened TemporalLaws

  datatype ColumnType =
    | Tiny | Short | Long | Int24 | LongLong | FloatType | DoubleType | OldDecimal | NewDecimal
    | DateType | TimeType | DatetimeType | TimestampType | JsonType
    | Varchar | VarString | StringType | Blob | TinyBlob | MediumBlob | LongBlob
    | Year | Bit | EnumType | SetType | Geometry | Vector | NullType | OtherType

  datatype Column = Column(ct: ColumnType, length: nat, charset: nat, unsigned: bool, setFlag: bool)

  datatype Kind =
    | KBool | KI64 | KU64 | KF64 | KText | KBytes | KDecimal | KDate | KTime | KTimestamp | KTimestampTz
    | KJson | KNull

  const BINARY_COLLATION_ID: nat := 63

  function StringFamilyKind(col: Column): Kind {
    if col.charset == BINARY_COLLATION_ID then KBytes else KText
  }

  function ColumnKind(col: Column): (r: Result<Kind, PoolError>)
    ensures r.Err? ==> r.error == Unsupported
  {
    match col.ct
    case Tiny => Ok(if col.length == 1 then KBool else KI64)
    case Short => Ok(KI64)
    case Long => Ok(KI64)
    case Int24 => Ok(KI64)
    case LongLong => Ok(if col.unsigned then KU64 else KI64)
    case FloatType => Ok(KF64)
    case DoubleType => Ok(KF64)
    case OldDecimal => Ok(KDecimal)
    case NewDecimal => Ok(KDecimal)
    case DateType => Ok(KDate)
    case TimeType => Ok(KTime)
    case DatetimeType => Ok(KTimestamp)
    case TimestampType => Ok(KTimestampTz)
    case JsonType => Ok(KJson)
    case EnumType => Ok(StringFamilyKind(col))
    case NullType => Ok(KNull)
    case Varchar | VarString | StringType | Blob | TinyBlob | MediumBlob | LongBlob =>
      if col.setFlag then Err(Unsupported) else Ok(StringFamilyKind(col))
    case Year | Bit | SetType | Geometry | Vector | OtherType => Err(Unsupported)
  }

  /** The value tags of the wire. */
  datatype Tag =
    | TNull | TBool | TI64 | TU64 | TF64 | TText | TBytes | TUuid | TJson | TDecimal | TDate | TTime
    | TTimestamp | TTimestampTz

  function TagOf(v: Value): Tag {
    match v
    case Null => TNull
    case Bool(_) => TBool
    case I64(_) => TI64
    case U64(_) => TU64
    case F64(_) => TF64
    case Text(_) => TText
    case Bytes(_) => TBytes
    case Uuid(_) => TUuid
    case Json(_) => TJson
    case Decimal(_) => TDecimal
    case Date(_) => TDate
    case Time(_) => TTime
    case Timestamp(_) => TTimestamp
    case TimestampTz(_) => TTimestampTz
  }

  /** A tag names its kind of value and no other. */
  lemma TagsTellKinds(v: Value)
    ensures TagOf(v) == TNull <==> v.Null?
    ensures TagOf(v) == TBool <==> v.Bool?
    ensures TagOf(v) == TI64 <==> v.I64?
    ensures TagOf(v) == TU64 <==> v.U64?
    ensures TagOf(v) == TF64 <==> v.F64?
    ensures TagOf(v) == TText <==> v.Text?
    ensures TagOf(v) == TBytes <==> v.Bytes?
    ensures TagOf(v) == TUuid <==> v.Uuid?
    ensures TagOf(v) == TJson <==> v.Json?
    ensures TagOf(v) == TDecimal <==> v.Decimal?
    ensures TagOf(v) == TDate <==> v.Date?
    ensures TagOf(v) == TTime <==> v.Time?
    ensures TagOf(v) == TTimestamp <==> v.Timestamp?
    ensures TagOf(v) == TTimestampTz <==> v.TimestampTz?
  {
  }

  function TagOfKind(kind: Kind): Tag {
    match kind
    case KBool => TBool
    case KI64 => TI64
    case KU64 => TU64
    case KF64 => TF64
    case KText => TText
    case KBytes => TBytes
    case KDecimal => TDecimal
    case KDate => TDate
    case KTime => TTime
    case KTimestamp => TTimestamp
    case KTimestampTz => TTimestampTz
    case KJson => TJson
    case KNull => TNull
  }

  function ColumnToTag(col: Column): (r: Result<Tag, PoolError>)
    ensures r.Err? ==> r.error == Unsupported
  {
    var kind :- ColumnKind(col);
    Ok(TagOfKind(kind))
  }

  /** A NULL-typed column in the prepared metadata is refused before anything is sent. */
  predicate HasNullTyped(columns: seq<Column>) {
    exists i :: 0 <= i < |columns| && columns[i].ct == NullType
  }

  predicate Described(columns: seq<Column>) {
    forall i :: 0 <= i < |columns| ==> ColumnToTag(columns[i]).Ok?
  }

  method RefusePreparedNull(columns: seq<Column>) returns (r: Result<(), PoolError>)
    ensures r == if HasNullTyped(columns) then Err(Unsupported) else Ok(())
  {
    for i := 0 to |columns|
      invariant forall k :: 0 <= k < i ==> columns[k].ct != NullType
    {
      if columns[i].ct == NullType {
        return Err(Unsupported);
      }
    }
    r := Ok(());
  }

  /** The wire header: one tag per column in order, or a refusal when any column has none. */
  method BuildCols(columns: seq<Column>) returns (r: Result<seq<Tag>, PoolError>)
    ensures r.Ok? <==> Described(columns)
    ensures r.Ok? ==>
              && |r.value| == |columns|
              && forall i :: 0 <= i < |columns| ==> ColumnToTag(columns[i]) == Ok(r.value[i])
    ensures r.Err? ==> r.error == Unsupported
  {
    var cols := [];
    for i := 0 to |columns|
      invariant |cols| == i && forall k :: 0 <= k < i ==> ColumnToTag(columns[k]) == Ok(cols[k])
    {
      var tag := ColumnToTag(columns[i]);
      if tag.Err? {
        return Err(tag.error);
      }
      cols := cols + [tag.value];
    }
    r := Ok(cols);
  }

  function AsI64(cell: MyValue): Result<MyText.I64, PoolError> {
    match cell
    case Int(n) => Ok(n)
    case UInt(u) => if u < 0x8000_0000_0000_0000 then Ok(u) else Err(Backend)
    case _ => Err(Backend)
  }

  function AsU64(cell: MyValue): Result<MyText.U64, PoolError> {
    match cell
    case UInt(u) => Ok(u)
    case Int(n) => if n >= 0 then Ok(n) else Err(Backend)
    case _ => Err(Backend)
  }

  function AsF64(cell: MyValue): Result<Binary, PoolError> {
    match cell
    case Double(f) => Ok(f)
    case Float(f) => Ok(f)
    case _ => Err(Backend)
  }

  predicate IsTemporal(kind: Kind) {
    kind.KDate? || kind.KTime? || kind.KTimestamp? || kind.KTimestampTz?
  }

  function RenderTemporal(cell: MyValue, kind: Kind): (r: Result<seq<Byte>, PoolError>)
    requires IsTemporal(kind)
    ensures r.Ok? ==> AllAscii(r.value)
    ensures r.Err? ==> r.error == Backend
  {
    if kind == KDate then DateToText(cell)
    else if kind == KTime then TimeToText(cell)
    else if kind == KTimestamp then DatetimeToText(cell)
    else TimestamptzToText(cell)
  }

  function TemporalValue(kind: Kind, s: Str): (v: Value)
    requires IsTemporal(kind)
    ensures !v.Null? && TagOf(v) == TagOfKind(kind)
  {
    if kind == KDate then Value.Date(s)
    else if kind == KTime then Value.Time(s)
    else if kind == KTimestamp then Timestamp(s)
    else TimestampTz(s)
  }

  /** A rendered text under its kind's tag, or the renderer's refusal. */
  function TaggedText(text: Result<seq<Byte>, PoolError>, kind: Kind): (r: Result<Value, PoolError>)
    requires IsTemporal(kind) && (text.Ok? ==> AllAscii(text.value))
    ensures text.Err? ==> r == Err(text.error)
    ensures text.Ok? ==> WellFormed(text.value) && r == Ok(TemporalValue(kind, text.value))
  {
    if text.Err? then Err(text.error)
    else
      AsciiWellFormed(text.value);
      Ok(TemporalValue(kind, text.value))
  }

  predicate IsNumber(kind: Kind) {
    kind.KBool? || kind.KI64? || kind.KU64? || kind.KF64?
  }

  function ExtractNumber(cell: MyValue, kind: Kind): (r: Result<Value, PoolError>)
    requires IsNumber(kind)
    ensures r.Err? ==> r.error == Backend
    ensures r.Ok? ==> !r.value.Null? && TagOf(r.value) == TagOfKind(kind)
  {
    match kind
    case KBool => var n :- AsI64(cell); Ok(Bool(n != 0))
    case KI64 => var n :- AsI64(cell); Ok(I64(n))
    case KU64 => var u :- AsU64(cell); Ok(U64(u))
    case KF64 => var f :- AsF64(cell); Ok(F64(f))
  }

  function ExtractText(cell: MyValue, kind: Kind): (r: Result<Value, PoolError>)
    requires !IsNumber(kind) && !IsTemporal(kind)
    ensures r.Err? ==> r.error == Backend
    ensures r.Ok? ==> HoldsText(r.value, kind)
  {
    if kind.KText? then ExtractString(cell)
    else if kind.KDecimal? then ExtractDecimal(cell)
    else if kind.KJson? then ExtractJson(cell)
    else if kind.KBytes? then ExtractBytes(cell)
    else Err(Backend)
  }

  /** The value is of the kind, for the kinds that are read from bytes. */
  predicate HoldsText(v: Value, kind: Kind) {
    || (kind.KText? && v.Text?) || (kind.KDecimal? && v.Decimal?)
    || (kind.KJson? && v.Json?) || (kind.KBytes? && v.Bytes?)
  }

  function ExtractBytes(cell: MyValue): (r: Result<Value, PoolError>)
    ensures r.Err? ==> r.error == Backend
    ensures r.Ok? ==> r.value.Bytes?
  {
    if cell.Bytes? then Ok(Value.Bytes(cell.raw)) else Err(Backend)
  }

  function ExtractString(cell: MyValue): (r: Result<Value, PoolError>)
    ensures r.Err? ==> r.error == Backend
    ensures r.Ok? ==> r.value.Text?
  {
    if cell.Bytes? && WellFormed(cell.raw) then Ok(Text(cell.raw)) else Err(Backend)
  }

  function ExtractDecimal(cell: MyValue): (r: Result<Value, PoolError>)
    ensures r.Err? ==> r.error == Backend
    ensures r.Ok? ==> r.value.Decimal?
  {
    var s :- DecimalToText(cell);
    Ok(Decimal(s))
  }

  function ExtractJson(cell: MyValue): (r: Result<Value, PoolError>)
    ensures r.Err? ==> r.error == Backend
    ensures r.Ok? ==> r.value.Json?
  {
    var s :- JsonToText(cell);
    Ok(Json(s))
  }

  function ExtractKind(cell: MyValue, kind: Kind): (r: Result<Value, PoolError>)
    ensures r.Err? ==> r.error == Backend
    ensures r.Ok? ==> !r.value.Null? && TagOf(r.value) == TagOfKind(kind)
  {
    if IsTemporal(kind) then TaggedText(RenderTemporal(cell, kind), kind)
    else if IsNumber(kind) then ExtractNumber(cell, kind)
    else ExtractText(cell, kind)
  }

  /** One binary-protocol cell to its canonical value. The header never lies: a decoded cell is NULL or
      has the tag its column was described with. */
  function ExtractValue(cell: MyValue, col: Column): (r: Result<Value, PoolError>)
    ensures r.Err? ==> r.error in {Backend, Unsupported}
    ensures r.Ok? ==> (r.value.Null? <==> cell.NULL?)
    ensures r.Ok? && !cell.NULL? ==> ColumnToTag(col) == Ok(TagOf(r.value))
  {
    if cell.NULL? then Ok(Null)
    else
      var kind :- ColumnKind(col);
      ExtractKind(cell, kind)
  }

  // ---------------------------------------------------------------------------------------------
  // Writing back what was read

  /** A cell in the form the binder writes it: one integer form per column, doubles, 0 or 1 for a
      boolean, no negative zero duration. */
  function Written(cell: MyValue, kind: Kind): MyValue {
    match kind
    case KBool => if AsI64(cell).Ok? then Int(if AsI64(cell).value != 0 then 1 else 0) else cell
    case KI64 => if AsI64(cell).Ok? then Int(AsI64(cell).value) else cell
    case KU64 => if AsU64(cell).Ok? then UInt(AsU64(cell).value) else cell
    case KF64 => if AsF64(cell).Ok? then Double(AsF64(cell).value) else cell
    case KTime => if cell.Time? then cell.(neg := KeepsSign(cell)) else cell
    case _ => cell
  }

  /** Dates outside the calendar print but do not parse; every other cell does. */
  predicate InBounds(cell: MyValue) {
    cell.Date? ==> InCalendar(cell.y, cell.mo, cell.d)
  }

  lemma DateWritesBack(cell: MyValue, s: Str)
    requires DateToText(cell) == Ok(s)
    ensures ValueToMy(Value.Date(s)) == if InBounds(cell) then Ok(cell) else Err(BindRefused)
  {
    DateRoundTrip(cell);
  }

  lemma TimeBinds(s: Str, my: MyValue)
    requires Cuts(s) && ParseTime(s) == Some(my)
    ensures ValueToMy(Value.Time(s)) == Ok(my)
  {
  }

  lemma TimeTextParses(cell: MyValue, s: Str)
    requires TimeToText(cell) == Ok(s)
    ensures Cuts(s) && ParseTime(s) == Some(cell.(neg := KeepsSign(cell)))
  {
    TimeRoundTrip(cell);
  }

  lemma TimeWritesBack(cell: MyValue, s: Str)
    requires TimeToText(cell) == Ok(s)
    ensures ValueToMy(Value.Time(s)) == Ok(cell.(neg := KeepsSign(cell)))
  {
    TimeTextParses(cell, s);
    TimeBinds(s, cell.(neg := KeepsSign(cell)));
  }

  lemma DatetimeWritesBack(cell: MyValue, s: Str)
    requires DatetimeToText(cell) == Ok(s)
    ensures ValueToMy(Timestamp(s)) == if InBounds(cell) then Ok(cell) else Err(BindRefused)
  {
    DatetimeRoundTrip(cell);
  }

  lemma TimestamptzWritesBack(cell: MyValue, s: Str)
    requires TimestamptzToText(cell) == Ok(s)
    ensures ValueToMy(TimestampTz(s)) == if InBounds(cell) then Ok(cell) else Err(BindRefused)
  {
    TimestamptzRoundTrip(cell);
  }

  /** Read, then write back: NULL binds as NULL; of the other cells exactly those inside the calendar bounds
      bind again, and they bind as the cell that was read, in the binder's form. */
  lemma WriteBack(cell: MyValue, col: Column)
    requires ExtractValue(cell, col).Ok?
    ensures cell.NULL? ==> ValueToMy(ExtractValue(cell, col).value) == Ok(NULL)
    ensures !cell.NULL? ==> ColumnKind(col).Ok?
    ensures !cell.NULL? && InBounds(cell) ==>
              ValueToMy(ExtractValue(cell, col).value) == Ok(Written(cell, ColumnKind(col).value))
    ensures !cell.NULL? && !InBounds(cell) ==> ValueToMy(ExtractValue(cell, col).value) == Err(BindRefused)
  {
    if !cell.NULL? {
      var kind := ColumnKind(col).value;
      if IsTemporal(kind) {
        TemporalWritesBack(cell, kind);
      } else {
        ScalarWritesBack(cell, kind);
      }
    }
  }

  /** A temporal cell, by the value it was read as. */
  lemma TemporalWritesBack(cell: MyValue, kind: Kind)
    requires IsTemporal(kind) && ExtractKind(cell, kind).Ok?
    ensures ValueToMy(ExtractKind(cell, kind).value)
         == if InBounds(cell) then Ok(Written(cell, kind)) else Err(BindRefused)
  {
    var text := RenderTemporal(cell, kind).value;
    AsciiWellFormed(text);
    assert ExtractKind(cell, kind) == Ok(TemporalValue(kind, text));
    TextWritesBack(cell, kind, text);
  }

  lemma DateText(cell: MyValue, text: Str)
    requires RenderTemporal(cell, KDate) == Ok(text)
    ensures ValueToMy(TemporalValue(KDate, text))
         == if InBounds(cell) then Ok(Written(cell, KDate)) else Err(BindRefused)
  {
    DateWritesBack(cell, text);
  }

  lemma TimeText(cell: MyValue, text: Str)
    requires RenderTemporal(cell, KTime) == Ok(text)
    ensures ValueToMy(TemporalValue(KTime, text))
         == if InBounds(cell) then Ok(Written(cell, KTime)) else Err(BindRefused)
  {
    TimeWritesBack(cell, text);
  }

  lemma DatetimeText(cell: MyValue, text: Str)
    requires RenderTemporal(cell, KTimestamp) == Ok(text)
    ensures ValueToMy(TemporalValue(KTimestamp, text))
         == if InBounds(cell) then Ok(Written(cell, KTimestamp)) else Err(BindRefused)
  {
    DatetimeWritesBack(cell, text);
  }

  lemma InstantText(cell: MyValue, text: Str)
    requires RenderTemporal(cell, KTimestampTz) == Ok(text)
    ensures ValueToMy(TemporalValue(KTimestampTz, text))
         == if InBounds(cell) then Ok(Written(cell, KTimestampTz)) else Err(BindRefused)
  {
    TimestamptzWritesBack(cell, text);
  }

  lemma TextWritesBack(cell: MyValue, kind: Kind, text: Str)
    requires IsTemporal(kind) && RenderTemporal(cell, kind) == Ok(text)
    ensures ValueToMy(TemporalValue(kind, text))
         == if InBounds(cell) then Ok(Written(cell, kind)) else Err(BindRefused)
  {
    match kind
    case KDate => DateText(cell, text);
    case KTime => TimeText(cell, text);
    case KTimestamp => DatetimeText(cell, text);
    case KTimestampTz => InstantText(cell, text);
  }

  lemma ScalarWritesBack(cell: MyValue, kind: Kind)
    requires !IsTemporal(kind) && ExtractKind(cell, kind).Ok?
    ensures InBounds(cell) && ValueToMy(ExtractKind(cell, kind).value) == Ok(Written(cell, kind))
  {
  }

  /** Reading the written cell gives the value first read: one round trip reaches a fixed point. */
  lemma WrittenReadsTheSame(cell: MyValue, col: Column)
    requires ExtractValue(cell, col).Ok? && !cell.NULL?
    ensures ExtractValue(Written(cell, ColumnKind(col).value), col) == ExtractValue(cell, col)
  {
    if ColumnKind(col).value == KTime {
      SignOfZero(cell);
    }
  }

  lemma SignOfZero(cell: MyValue)
    requires TimeToText(cell).Ok?
    ensures TimeToText(cell.(neg := KeepsSign(cell))) == TimeToText(cell)
  {
    SaturationIsExact(cell.days, cell.h, cell.mi, cell.s, cell.us);
  }
}
