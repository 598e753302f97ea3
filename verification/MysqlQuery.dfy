/** Statements on a MySQL connection: the buffered query, the opening of a row stream, its rows and the
    reclaim that puts the handle back. */
module MysqlQuery {
  import opened Wrappers
  import opened MyText
  import opened Bind
  import opened RowMap
  import opened MysqlConn

  datatype Prepared = Prepared(columns: seq<Column>, numParams: nat)

  /** Everything that is checked before the statement is sent. */
  predicate Preflight(params: seq<Value>, prep: Prepared) {
    && !HasNullTyped(prep.columns) && Described(prep.columns)
    && |params| == prep.numParams && Binds(params)
  }

  /** The refusal a failed preflight reports: the columns are checked first. */
  function Refusal(params: seq<Value>, prep: Prepared): PoolError {
    if HasNullTyped(prep.columns) || !Described(prep.columns) then Unsupported else BindRefused
  }

  method ValidateArity(params: seq<Value>, numParams: nat) returns (r: Result<(), PoolError>)
    ensures r == if |params| == numParams then Ok(()) else Err(BindRefused)
  {
    r := if |params| != numParams then Err(BindRefused) else Ok(());
  }

  /** The shared preflight of both paths, in the order they run it. */
  method CheckPreflight(params: seq<Value>, prep: Prepared) returns (r: Result<seq<Tag>, PoolError>)
    ensures r.Ok? <==> Preflight(params, prep)
    ensures r.Ok? ==> IsHeader(r.value, prep.columns)
    ensures r.Err? ==> r.error == Refusal(params, prep)
  {
    var nulls := RefusePreparedNull(prep.columns);
    if nulls.Err? {
      return Err(nulls.error);
    }
    r := BuildCols(prep.columns);
    if r.Err? {
      return;
    }
    var arity := ValidateArity(params, prep.numParams);
    if arity.Err? {
      return Err(arity.error);
    }
    var bound := ToParams(params);
    if bound.Err? {
      return Err(bound.error);
    }
  }

  predicate IsHeader(cols: seq<Tag>, columns: seq<Column>) {
    |cols| == |columns| && forall i :: 0 <= i < |columns| ==> ColumnToTag(columns[i]) == Ok(cols[i])
  }

  // ---------------------------------------------------------------------------------------------
  // Opening a stream

  datatype OpenScript = OpenScript(
    prep: Call<Prepared>,            // COM_STMT_PREPARE on the borrowed handle
    run: Owned<seq<Column>>,         // the execution, with the executed columns
    intoConn: Owned<Packet>,         // draining and handing the connection back
    intoStream: Owned<Option<()>>)   // the row stream; `None` when the server reports no result set

  /** Where an attempt to open a stream leaves the handle. */
  datatype Fate =
    | NotSent(error: PoolError)
    | Lost(error: PoolError, closes: bool)
    | HandedBack(refusal: Option<PoolError>, after: Packet)
    | Streaming(columns: seq<Column>)

  /** Whether an executed statement is drained at once: there is nothing to stream, or a column of it is
      refused. */
  predicate DrainsAtOnce(prepared: seq<Column>, executed: seq<Column>) {
    (prepared == [] && executed == []) || !Described(executed)
  }

  /** One table for both dispatch arms of `open`: the arm for statements that declare no columns and the
      arm for those that do. */
  function OpenFate(params: seq<Value>, script: OpenScript): Fate {
    if script.prep.Failed? then NotSent(MapError(script.prep.fatal))
    else
      var prep := script.prep.value;
      if !Preflight(params, prep) then NotSent(Refusal(params, prep))
      else if script.run.Gone? then Lost(MapError(script.run.fatal), script.run.fatal)
      else
        var executed := script.run.value;
        var noResultSet := prep.columns == [] && executed == [];
        if DrainsAtOnce(prep.columns, executed) then
          match script.intoConn
          case Gone(fatal) => Lost(MapError(fatal), false)
          case Kept(after) => HandedBack(if noResultSet then None else Some(Unsupported), after)
        else
          match script.intoStream
          case Gone(fatal) => Lost(MapError(fatal), fatal)
          case Kept(None) => Lost(Backend, false)
          case Kept(Some(_)) => Streaming(if executed == [] then prep.columns else executed)
  }

  /** The driver calls an `open` awaits, in order. */
  function OpenCalls(params: seq<Value>, script: OpenScript): seq<Outcome> {
    [CallOutcome(script.prep)]
    + (if script.prep.Failed? || !Preflight(params, script.prep.value) then []
       else
         [OwnedOutcome(script.run)]
         + (if script.run.Gone? then []
            else if DrainsAtOnce(script.prep.value.columns, script.run.value) then [OwnedOutcome(script.intoConn)]
            else [OwnedOutcome(script.intoStream)]))
  }

  ghost function OpenState(w: Wrapper, params: seq<Value>, script: OpenScript): Wrapper
    requires !IsParked(w)
  {
    var prepped := WithPacket(w, script.prep.after);
    var sent := prepped.(sends := w.sends + 1);
    match OpenFate(params, script)
    case NotSent(_) => Fatal(prepped, script.prep.Failed? && script.prep.fatal)
    case Lost(_, closes) => Fatal(sent.(handle := None), closes)
    case HandedBack(_, after) => Record(WithPacket(sent, after))
    case Streaming(_) => sent.(handle := None)
  }

  datatype RowStream =
    | Rows(handle: Handle, columns: seq<Column>, done: bool)
    | NoRows(affected: nat, lastInsertId: Option<nat>)

  /** The stream `open` hands out: for a result set it owns the wrapper's handle, for none it carries
      the count and the key read after the drain. */
  function OpenedStream(w: Wrapper, params: seq<Value>, script: OpenScript): (s: Option<RowStream>)
    requires !IsParked(w)
  {
    match OpenFate(params, script)
    case HandedBack(None, after) => Some(NoRows(after.affected, after.lastInsertId))
    case Streaming(columns) => Some(Rows(w.handle.value.(packet := script.prep.after), columns, false))
    case _ => None
  }

  function OpenError(fate: Fate): Option<PoolError> {
    match fate
    case NotSent(e) => Some(e)
    case Lost(e, _) => Some(e)
    case HandedBack(e, _) => e
    case Streaming(_) => None
  }

  lemma LostIffFatal(params: seq<Value>, script: OpenScript)
    ensures OpenError(OpenFate(params, script)) == Some(ConnectionLost) <==> FatalFailed in OpenCalls(params, script)
  {
  }

  /** The columns a stream's header describes. */
  function StreamColumns(s: RowStream): seq<Column> {
    if s.Rows? then s.columns else []
  }

  /** The executed statement produced something the arms share: hand the connection back. */
  method HandBack(conn: Conn, owned: Handle, intoConn: Owned<Packet>) returns (r: Result<Handle, PoolError>)
    requires conn.mysql.None?
    modifies conn
    ensures conn.outcomes == old(conn.outcomes) + [OwnedOutcome(intoConn)]
    ensures r.Err? ==> intoConn.Gone? && r.error == MapError(intoConn.fatal) && conn.State() == old(conn.State())
    ensures r.Ok? ==> intoConn.Kept? && r.value == owned.(packet := intoConn.value)
    ensures r.Ok? ==> conn.State() == Record(Unparked(old(conn.State()), owned.(packet := intoConn.value)))
  {
    conn.outcomes := conn.outcomes + [OwnedOutcome(intoConn)];
    match intoConn
    case Gone(fatal) =>
      r := Err(MapError(fatal));
    case Kept(after) =>
      var recovered := owned.(packet := after);
      conn.Unpark(recovered);
      conn.RecordSessionMutation();
      r := Ok(recovered);
  }

  /** `query_stream`: park, run, and either stream, hand the handle back, or lose it. */
  method Open(conn: Conn, params: seq<Value>, script: OpenScript) returns (r: Result<(seq<Tag>, RowStream), PoolError>)
    requires conn.mysql.Some?
    modifies conn
    ensures conn.State() == OpenState(old(conn.State()), params, script)
    ensures conn.outcomes == old(conn.outcomes) + OpenCalls(params, script)
    ensures r == Err(ConnectionLost) <==> FatalSince(old(conn.outcomes), conn.outcomes)
    ensures r.Err? ==> OpenError(OpenFate(params, script)) == Some(r.error)
    ensures r.Ok? ==> OpenedStream(old(conn.State()), params, script) == Some(r.value.1)
    ensures r.Ok? ==> IsHeader(r.value.0, StreamColumns(r.value.1))
    // A stream and its header follow the executed columns where the server sent any.
    ensures r.Ok? ==> script.run.Kept? && script.prep.Done?
    ensures r.Ok? && script.run.value != [] ==>
              r.value.1.Rows? && r.value.1.columns == script.run.value && IsHeader(r.value.0, script.run.value)
    ensures r.Ok? && script.run.value == [] && script.prep.value.columns != [] ==>
              r.value.1.Rows? && r.value.1.columns == script.prep.value.columns
  {
    LogGrows(conn.outcomes, OpenCalls(params, script));
    LostIffFatal(params, script);
    conn.Await(script.prep.after, CallOutcome(script.prep));
    if script.prep.Failed? {
      var e := conn.MapStmtError(script.prep.fatal);
      return Err(e);
    }
    var prep := script.prep.value;
    var cols := CheckPreflight(params, prep);
    if cols.Err? {
      return Err(cols.error);
    }
    var parked := conn.Park();
    r := Execute(conn, parked.value, cols.value, params, script);
  }

  /** The wrapper after a statement was sent on the handle it had parked. */
  ghost function AfterSend(w: Wrapper, owned: Handle, fate: Fate): Wrapper {
    match fate
    case Lost(_, closes) => Fatal(w, closes)
    case HandedBack(_, after) => Record(Unparked(w, owned.(packet := after)))
    case _ => w
  }

  /** The parked half of `open`: run the statement on the owned handle, then drain, hand back or stream. */
  method Execute(conn: Conn, owned: Handle, cols: seq<Tag>, params: seq<Value>, script: OpenScript)
    returns (r: Result<(seq<Tag>, RowStream), PoolError>)
    requires conn.mysql.None? && script.prep.Done? && Preflight(params, script.prep.value)
    requires IsHeader(cols, script.prep.value.columns)
    modifies conn
    ensures conn.State() == AfterSend(old(conn.State()).(sends := old(conn.sends) + 1), owned, OpenFate(params, script))
    ensures conn.outcomes == old(conn.outcomes) + OpenCalls(params, script)[1..]
    ensures r.Err? ==> OpenError(OpenFate(params, script)) == Some(r.error)
    ensures r.Ok? ==> r.value.1 == match OpenFate(params, script)
                                   case HandedBack(None, after) => NoRows(after.affected, after.lastInsertId)
                                   case Streaming(columns) => Rows(owned, columns, false)
                                   case _ => r.value.1
    ensures r.Ok? ==> OpenError(OpenFate(params, script)).None? && IsHeader(r.value.0, StreamColumns(r.value.1))
  {
    var prep := script.prep.value;
    conn.sends := conn.sends + 1;
    conn.outcomes := conn.outcomes + [OwnedOutcome(script.run)];
    if script.run.Gone? {
      var e := conn.MapStmtError(script.run.fatal);
      return Err(e);
    }
    var executed := script.run.value;
    var header, columns := cols, prep.columns;
    if executed == [] {
      if prep.columns == [] {
        // No result set at all: the handle goes straight back, read after the drain.
        var back := HandBack(conn, owned, script.intoConn);
        if back.Err? {
          return Err(back.error);
        }
        return Ok((header, NoRows(back.value.packet.affected, back.value.packet.lastInsertId)));
      }
    } else {
      // Describe from the executed metadata; a refusal here comes after the send.
      var described := BuildCols(executed);
      if described.Err? {
        var back := HandBack(conn, owned, script.intoConn);
        return Err(if back.Err? then back.error else described.error);
      }
      header, columns := described.value, executed;
    }
    conn.outcomes := conn.outcomes + [OwnedOutcome(script.intoStream)];
    match script.intoStream
    case Gone(fatal) =>
      var e := conn.MapStmtError(fatal);
      r := Err(e);
    case Kept(None) =>
      r := Err(Backend);
    case Kept(Some(_)) =>
      r := Ok((header, Rows(owned, columns, false)));
  }

  // ---------------------------------------------------------------------------------------------
  // Rows and reclaim

  datatype RowEvent = Row(cells: seq<MyValue>) | RowError(fatal: bool) | RowEnd

  /** Whether a row decodes: enough cells, and each cell under its column. */
  predicate RowMaps(cells: seq<MyValue>, columns: seq<Column>) {
    |columns| <= |cells| && forall i :: 0 <= i < |columns| ==> ExtractValue(cells[i], columns[i]).Ok?
  }

  predicate IsMapped(row: seq<Value>, cells: seq<MyValue>, columns: seq<Column>) {
    && |row| == |columns| <= |cells|
    && forall i :: 0 <= i < |columns| ==> ExtractValue(cells[i], columns[i]) == Ok(row[i])
  }

  method MapRow(cells: seq<MyValue>, columns: seq<Column>) returns (r: Result<seq<Value>, PoolError>)
    ensures r.Ok? <==> RowMaps(cells, columns)
    ensures r.Ok? ==> IsMapped(r.value, cells, columns)
    ensures r.Err? ==> r.error in {Backend, Unsupported}
  {
    var out := [];
    for idx := 0 to |columns|
      invariant |out| == idx <= |cells|
      invariant forall i :: 0 <= i < idx ==> ExtractValue(cells[i], columns[i]) == Ok(out[i])
    {
      if idx >= |cells| {
        return Err(Backend);
      }
      var v := ExtractValue(cells[idx], columns[idx]);
      if v.Err? {
        assert !RowMaps(cells, columns);
        return Err(v.error);
      }
      out := out + [v.value];
    }
    r := Ok(out);
  }

  /** The stream after one pull: only a decoded row leaves it open. */
  function AfterNext(rows: RowStream, event: RowEvent): RowStream {
    if rows.Rows? && !rows.done then rows.(done := !(event.Row? && RowMaps(event.cells, rows.columns))) else rows
  }

  /** One pull from the stream. A stream never resumes after its end or its first error. */
  method Next(rows: RowStream, event: RowEvent) returns (rows': RowStream, item: Option<Result<seq<Value>, PoolError>>)
    ensures rows' == AfterNext(rows, event)
    ensures rows.NoRows? || rows.done ==> item == None
    ensures rows.Rows? && !rows.done ==>
              && (item.None? <==> event.RowEnd?)
              && (event.RowError? ==> item == Some(Err(MapError(event.fatal))))
              && (event.Row? ==> (item.value.Ok? <==> RowMaps(event.cells, rows.columns)))
              && (event.Row? && item.value.Ok? ==> IsMapped(item.value.value, event.cells, rows.columns))
              && (event.Row? && item.value.Err? ==> item.value.error in {Backend, Unsupported})
  {
    if rows.NoRows? || rows.done {
      return rows, None;
    }
    match event
    case Row(cells) =>
      var row := MapRow(cells, rows.columns);
      return rows.(done := row.Err?), Some(row);
    case RowError(fatal) =>
      return rows.(done := true), Some(Err(MapError(fatal)));
    case RowEnd =>
      return rows.(done := true), None;
  }

  datatype Reclaimed = Reclaimed(affected: nat, lastInsertId: Option<nat>)

  ghost function ReclaimState(w: Wrapper, rows: RowStream, intoConn: Owned<Packet>): Wrapper {
    if rows.Rows? && intoConn.Kept? then Record(Unparked(w, rows.handle.(packet := intoConn.value))) else w
  }

  /** `reclaim_stream`: drain what remains and put the handle back, or leave the wrapper parked. */
  method Reclaim(conn: Conn, rows: RowStream, intoConn: Owned<Packet>) returns (r: Result<Reclaimed, PoolError>)
    requires rows.Rows? ==> conn.mysql.None?
    modifies conn
    ensures conn.State() == ReclaimState(old(conn.State()), rows, intoConn)
    ensures r == Err(ConnectionLost) <==> FatalSince(old(conn.outcomes), conn.outcomes)
    ensures r == match rows
                 case NoRows(affected, key) => Ok(Reclaimed(affected, key))
                 case Rows(_, _, _) =>
                   if intoConn.Kept? then Ok(Reclaimed(intoConn.value.affected, intoConn.value.lastInsertId))
                   else Err(MapError(intoConn.fatal))
  {
    match rows
    case NoRows(affected, key) =>
      LogGrows(conn.outcomes, []);
      r := Ok(Reclaimed(affected, key));
    case Rows(handle, _, _) =>
      LogGrows(conn.outcomes, [OwnedOutcome(intoConn)]);
      var back := HandBack(conn, handle, intoConn);
      if back.Err? {
        return Err(back.error);
      }
      r := Ok(Reclaimed(back.value.packet.affected, back.value.packet.lastInsertId));
  }

  // ---------------------------------------------------------------------------------------------
  // The buffered query

  /** What `drain` brings back: the columns read before the rows, the counts read after them. */
  datatype Drained = Drained(
    executed: Option<seq<Column>>, rows: seq<seq<MyValue>>, affected: nat, lastInsertId: Option<nat>)

  datatype RunScript = RunScript(prep: Call<Prepared>, drain: Call<Drained>)

  predicate RunSends(params: seq<Value>, script: RunScript) {
    script.prep.Done? && Preflight(params, script.prep.value)
  }

  /** The driver calls a `run` awaits, in order. */
  function RunCalls(params: seq<Value>, script: RunScript): seq<Outcome> {
    [CallOutcome(script.prep)] + (if RunSends(params, script) then [CallOutcome(script.drain)] else [])
  }

  ghost function RunState(w: Wrapper, params: seq<Value>, script: RunScript): Wrapper
    requires !IsParked(w)
  {
    var prepped := WithPacket(w, script.prep.after);
    if !RunSends(params, script) then Fatal(prepped, script.prep.Failed? && script.prep.fatal)
    else
      var sent := WithPacket(prepped.(sends := w.sends + 1), script.drain.after);
      if script.drain.Failed? then Fatal(sent, script.drain.fatal) else Record(sent)
  }

  /** The columns that describe the rows: the executed ones when the server sent any. */
  function RowColumns(prep: Prepared, drained: Drained): seq<Column> {
    if drained.executed.Some? && drained.executed.value != [] then drained.executed.value else prep.columns
  }

  datatype QueryResult = QueryResult(cols: seq<Tag>, rows: seq<seq<Value>>, affected: nat, lastInsertId: Option<nat>)

  /** What the buffered query makes of what was drained. */
  predicate DrainedAnswers(r: Result<QueryResult, PoolError>, prep: Prepared, drained: Drained) {
    var columns := RowColumns(prep, drained);
    if !Described(columns) then r == Err(Unsupported)
    else if exists i :: 0 <= i < |drained.rows| && !RowMaps(drained.rows[i], columns) then
      r.Err? && r.error in {Backend, Unsupported}
    else
      && r.Ok? && IsHeader(r.value.cols, columns) && |r.value.rows| == |drained.rows|
      && (forall i :: 0 <= i < |drained.rows| ==> IsMapped(r.value.rows[i], drained.rows[i], columns))
      && r.value.affected == drained.affected && r.value.lastInsertId == drained.lastInsertId
  }

  /** What the buffered query answers. */
  predicate RunAnswers(r: Result<QueryResult, PoolError>, params: seq<Value>, script: RunScript) {
    if script.prep.Failed? then r == Err(MapError(script.prep.fatal))
    else if !Preflight(params, script.prep.value) then r == Err(Refusal(params, script.prep.value))
    else if script.drain.Failed? then r == Err(MapError(script.drain.fatal))
    else DrainedAnswers(r, script.prep.value, script.drain.value)
  }

  method MapRows(raw: seq<seq<MyValue>>, columns: seq<Column>) returns (r: Result<seq<seq<Value>>, PoolError>)
    ensures r.Ok? <==> forall i :: 0 <= i < |raw| ==> RowMaps(raw[i], columns)
    ensures r.Ok? ==> |r.value| == |raw| && forall i :: 0 <= i < |raw| ==> IsMapped(r.value[i], raw[i], columns)
    ensures r.Err? ==> r.error in {Backend, Unsupported}
  {
    var rows := [];
    for i := 0 to |raw|
      invariant |rows| == i && forall k :: 0 <= k < i ==> IsMapped(rows[k], raw[k], columns) && RowMaps(raw[k], columns)
    {
      var row := MapRow(raw[i], columns);
      if row.Err? {
        return Err(row.error);
      }
      rows := rows + [row.value];
    }
    r := Ok(rows);
  }

  /** `query`: the handle never leaves the wrapper. */
  method Run(conn: Conn, params: seq<Value>, script: RunScript) returns (r: Result<QueryResult, PoolError>)
    requires conn.mysql.Some?
    modifies conn
    ensures conn.State() == RunState(old(conn.State()), params, script)
    ensures RunAnswers(r, params, script)
    ensures conn.outcomes == old(conn.outcomes) + RunCalls(params, script)
    ensures r == Err(ConnectionLost) <==> FatalSince(old(conn.outcomes), conn.outcomes)
  {
    LogGrows(conn.outcomes, RunCalls(params, script));
    conn.Await(script.prep.after, CallOutcome(script.prep));
    if script.prep.Failed? {
      var e := conn.MapStmtError(script.prep.fatal);
      return Err(e);
    }
    var prep := script.prep.value;
    var cols := CheckPreflight(params, prep);
    if cols.Err? {
      return Err(cols.error);
    }
    conn.sends := conn.sends + 1;
    conn.Await(script.drain.after, CallOutcome(script.drain));
    if script.drain.Failed? {
      var e := conn.MapStmtError(script.drain.fatal);
      return Err(e);
    }
    conn.RecordSessionMutation();
    r := MapDrained(prep, cols.value, script.drain.value);
  }

  /** Describe and map what was drained, from the executed columns where the server sent any. */
  method MapDrained(prep: Prepared, cols: seq<Tag>, drained: Drained) returns (r: Result<QueryResult, PoolError>)
    requires IsHeader(cols, prep.columns)
    ensures DrainedAnswers(r, prep, drained) && r != Err(ConnectionLost)
  {
    var header, columns := cols, prep.columns;
    if drained.executed.Some? && drained.executed.value != [] {
      columns := drained.executed.value;
      var described := BuildCols(columns);
      if described.Err? {
        return Err(described.error);
      }
      header := described.value;
    }
    var rows := MapRows(drained.rows, columns);
    if rows.Err? {
      return Err(rows.error);
    }
    r := Ok(QueryResult(header, rows.value, drained.affected, drained.lastInsertId));
  }
}
