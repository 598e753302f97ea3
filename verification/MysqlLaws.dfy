/** What the calls on a MySQL connection promise, in terms of the driver's answers alone. */
module MysqlLaws {
  import opened Utf8
  import opened Wrappers
  import opened MyText
  import opened Bind
  import opened RowMap
  import opened Tracker
  import opened MysqlConn
  import opened MysqlQuery
  import opened MysqlLease

  // ---------------------------------------------------------------------------------------------
  // What is checked before anything is sent

  predicate NoNullTyped(columns: seq<Column>) {
    forall i :: 0 <= i < |columns| ==> columns[i].ct != NullType
  }

  predicate AllAdmitted(columns: seq<Column>) {
    forall i :: 0 <= i < |columns| ==> ColumnKind(columns[i]).Ok?
  }

  predicate AllBind(params: seq<Value>) {
    forall i :: 0 <= i < |params| ==> ValueToMy(params[i]).Ok?
  }

  /** A statement goes out exactly when no prepared column is NULL-typed or unsupported, the parameters
      are as many as the placeholders, and each of them has a driver form; otherwise the columns are what
      is complained about first. */
  lemma SentIff(params: seq<Value>, prep: Prepared)
    ensures Preflight(params, prep) <==>
              && NoNullTyped(prep.columns) && AllAdmitted(prep.columns)
              && |params| == prep.numParams && AllBind(params)
    ensures Refusal(params, prep) == Unsupported <==> !NoNullTyped(prep.columns) || !AllAdmitted(prep.columns)
    ensures Refusal(params, prep) in {Unsupported, BindRefused}
  {
    DescribedIff(prep.columns);
  }

  // ---------------------------------------------------------------------------------------------
  // What comes back

  /** What a successful `open` hands out: a stream over the executed columns where the server sent any, over
      the prepared ones where it sent none, and no stream at all but the drained count and key when there
      are no columns in either. */
  lemma OpenedFollowsExecuted(w: Wrapper, params: seq<Value>, script: OpenScript)
    requires !IsParked(w) && OpenedStream(w, params, script).Some?
    ensures script.prep.Done? && script.run.Kept?
    ensures var s := OpenedStream(w, params, script).value;
            var prepared, executed := script.prep.value.columns, script.run.value;
            && (executed != [] ==> s.Rows? && s.columns == executed && AllAdmitted(executed))
            && (executed == [] && prepared != [] ==> s.Rows? && s.columns == prepared)
            && (executed == [] && prepared == [] ==>
                  && script.intoConn.Kept?
                  && s == NoRows(script.intoConn.value.affected, script.intoConn.value.lastInsertId))
            && (s.Rows? ==> !s.done && s.handle.id == w.handle.value.id && script.intoStream.Kept?)
  {
    DescribedIff(script.run.value);
  }

  /** A cell read under its column. */
  predicate CellReads(raw: seq<MyValue>, columns: seq<Column>, j: nat) {
    j < |columns| && j < |raw| && ExtractValue(raw[j], columns[j]).Ok?
  }

  predicate RowReads(raw: seq<MyValue>, columns: seq<Column>) {
    forall j :: 0 <= j < |columns| ==> CellReads(raw, columns, j)
  }

  /** The row holds, column by column, the cells that were sent. */
  predicate IsRow(row: seq<Value>, raw: seq<MyValue>, columns: seq<Column>) {
    && |row| == |columns|
    && forall j :: 0 <= j < |columns| ==> CellReads(raw, columns, j) && row[j] == ExtractValue(raw[j], columns[j]).value
  }

  /** The columns of a buffered result: the executed ones if the server sent any, else the prepared ones. */
  function DrainColumns(script: RunScript): seq<Column>
    requires script.prep.Done? && script.drain.Done?
  {
    match script.drain.value.executed
    case Some(executed) => if |executed| > 0 then executed else script.prep.value.columns
    case None => script.prep.value.columns
  }

  /** A buffered query succeeds exactly when its statement was prepared, allowed out and drained, and its
      columns and all its cells can be read; and then header, rows, count and key are those of the drain. */
  lemma RunReturnsTheDrain(params: seq<Value>, script: RunScript, r: Result<QueryResult, PoolError>)
    requires RunAnswers(r, params, script)
    ensures r.Ok? <==>
              && script.prep.Done? && Preflight(params, script.prep.value) && script.drain.Done?
              && AllAdmitted(DrainColumns(script))
              && var rows := script.drain.value.rows;
                 forall i :: 0 <= i < |rows| ==> RowReads(rows[i], DrainColumns(script))
    ensures r.Ok? ==>
              var columns, rows := DrainColumns(script), script.drain.value.rows;
              && |r.value.cols| == |columns|
              && (forall j :: 0 <= j < |columns| ==> ColumnToTag(columns[j]) == Ok(r.value.cols[j]))
              && |r.value.rows| == |rows|
              && (forall i :: 0 <= i < |rows| ==> IsRow(r.value.rows[i], rows[i], columns))
              && r.value.affected == script.drain.value.affected
              && r.value.lastInsertId == script.drain.value.lastInsertId
  {
    if script.prep.Done? && Preflight(params, script.prep.value) && script.drain.Done? {
      var columns := DrainColumns(script);
      DescribedIff(columns);
      forall i | 0 <= i < |script.drain.value.rows|
        ensures RowMaps(script.drain.value.rows[i], columns) <==> RowReads(script.drain.value.rows[i], columns)
      {
        RowMapsIff(script.drain.value.rows[i], columns);
      }
    }
  }

  lemma DescribedIff(columns: seq<Column>)
    ensures Described(columns) <==> AllAdmitted(columns)
  {
    assert forall i :: 0 <= i < |columns| ==> (ColumnToTag(columns[i]).Ok? <==> ColumnKind(columns[i]).Ok?);
  }

  lemma RowMapsIff(raw: seq<MyValue>, columns: seq<Column>)
    ensures RowMaps(raw, columns) <==> RowReads(raw, columns)
  {
    if RowReads(raw, columns) {
      assert columns != [] ==> CellReads(raw, columns, |columns| - 1);
      forall j | 0 <= j < |columns| ensures ExtractValue(raw[j], columns[j]).Ok? {
        assert CellReads(raw, columns, j);
      }
    }
  }

  // ---------------------------------------------------------------------------------------------
  // What a call leaves behind

  /** The call ended with the session broken, as its caller is told. */
  predicate IsLost(l: Lease, op: Op) {
    match op
    case OpenOp(params, script) => FatalFailed in OpenCalls(params, script)
    case QueryOp(params, script) => FatalFailed in RunCalls(params, script)
    case SimpleOp(call) => call.Failed? && call.fatal
    case ResetOp(call) => call.Failed?
    case PingOp(call) => call.Failed?
    case ReclaimOp(intoConn) => l.stream.Some? && l.stream.value.Rows? && intoConn.Gone?
    case _ => false
  }

  /** After a call that lost the session the connection reads closed, and only such a call closes it. */
  lemma LostReadsClosed(l: Lease, op: Op)
    requires Inv(l) && Enabled(l, op)
    ensures IsLost(l, op) ==> ReportsClosed(Step(l, op).w)
    ensures Step(l, op).w.closed && !l.w.closed ==> IsLost(l, op)
    ensures l.w.closed ==> Step(l, op).w.closed
  {
    if op.OpenOp? {
      LostIffFatal(op.params, op.open);
    }
  }

  /** The last packet the driver delivered for a call that leaves the handle in the wrapper. */
  function LastPacket(op: Op): Option<Packet> {
    match op
    case OpenOp(params, script) =>
      if script.prep.Failed? || !Preflight(params, script.prep.value) then Some(script.prep.after)
      else if script.run.Kept? && DrainsAtOnce(script.prep.value.columns, script.run.value) && script.intoConn.Kept?
      then Some(script.intoConn.value) else None
    case QueryOp(params, script) =>
      if script.prep.Failed? || !Preflight(params, script.prep.value) then Some(script.prep.after)
      else Some(script.drain.after)
    case SimpleOp(call) => Some(call.after)
    case ResetOp(call) => Some(call.after)
    case PingOp(call) => Some(call.after)
    case _ => None
  }

  /** What the pool reads off the wrapper afterwards is the last packet of that call: the transaction
      status is its flag. */
  lemma PacketIsTheLast(l: Lease, op: Op)
    requires Enabled(l, op) && LastPacket(op).Some?
    ensures var w, packet := Step(l, op).w, LastPacket(op).value;
            && w.handle == Some(Handle(l.w.handle.value.id, packet))
            && (TxStatusOf(w) == InTx <==> packet.lastOk.Some? && packet.lastOk.value.inTransaction)
            && (ReportsClosed(w) <==> w.closed || packet.disconnected)
  {
  }

  /** A take changes nothing but the taint; a reset that succeeds clears it, one that fails keeps it. */
  lemma TakeAndReset(l: Lease, call: Call<()>)
    requires Enabled(l, TakeMutatedOp)
    ensures Step(l, TakeMutatedOp).w == l.w.(mutated := false)
    ensures Enabled(l, ResetOp(call)) ==> Step(l, ResetOp(call)).w.mutated == (l.w.mutated && call.Failed?)
  {
  }

  // ---------------------------------------------------------------------------------------------
  // The taint rule

  /** `autocommit` in any spelling. */
  predicate IsAutocommit(name: seq<Byte>) {
    |name| == 10 && forall i :: 0 <= i < 10 ==>
      name[i] == LOWER_AUTOCOMMIT[i] || name[i] == LOWER_AUTOCOMMIT[i] - 0x20
  }

  /** a u t o c o m m i t */
  const LOWER_AUTOCOMMIT: seq<Byte> := [0x61, 0x75, 0x74, 0x6F, 0x63, 0x6F, 0x6D, 0x6D, 0x69, 0x74]

  lemma AllowlistIsAutocommit(name: seq<Byte>)
    ensures IsAllowlisted(name) <==> IsAutocommit(name)
  {
    assert AUTOCOMMIT == LOWER_AUTOCOMMIT;
  }

  /** The cases the rule was made for: a changed variable other than `autocommit` taints, whatever else is
      reported; toggling `autocommit` alone does not, nor does transaction control, nor a plain statement;
      a state change that names neither does. */
  lemma TaintCases(changes: seq<StateChange>, flag: bool, name: seq<Byte>)
    ensures !IsAutocommit(name) ==> IsMutation(changes + [SystemVariables([name])], flag)
    ensures IsAutocommit(name) ==> !IsMutation([SystemVariables([name])], flag)
    ensures !IsMutation([TransactionState], flag)
    ensures !IsMutation([], false) && IsMutation([], true)
    ensures IsMutation([IsTracked(true)], true) && !IsMutation([IsTracked(true)], false)
  {
    AllowlistIsAutocommit(name);
    var c := SystemVariables([name]);
    assert c.names[0] == name;
    if !IsAutocommit(name) {
      assert NamesForeignVariable(c);
      assert (changes + [c])[|changes|] == c;
    } else {
      assert !NamesForeignVariable(c);
      assert [c][0] == c;
    }
    assert [TransactionState][0].TransactionState?;
  }
}
