/** Whole leases of a MySQL connection: what holds after every sequence of pool calls, whatever the
    driver answers. */
module MysqlLease {
  import opened Wrappers
  import opened MyText
  import opened Bind
  import opened RowMap
  import opened Tracker
  import opened MysqlConn
  import opened MysqlQuery

  /** A checked-out connection and the row stream opened on it, if any. */
  datatype Lease = Lease(w: Wrapper, stream: Option<RowStream>)

  datatype Op =
    | OpenOp(params: seq<Value>, open: OpenScript)
    | NextOp(event: RowEvent)
    | ReclaimOp(intoConn: Owned<Packet>)
    | DropStreamOp
    | QueryOp(params: seq<Value>, query: RunScript)
    | SimpleOp(call: Call<()>)
    | TakeMutatedOp
    | ResetOp(call: Call<()>)
    | PingOp(call: Call<()>)

  /** The stream handle borrows the checkout, so nothing else runs beside it; the calls that touch the
      driver need the handle in place. */
  predicate Enabled(l: Lease, op: Op) {
    match op
    case NextOp(_) => l.stream.Some?
    case ReclaimOp(_) => l.stream.Some?
    case DropStreamOp => l.stream.Some?
    case TakeMutatedOp => l.stream.None?
    case _ => l.stream.None? && !IsParked(l.w)
  }

  ghost function Step(l: Lease, op: Op): Lease
    requires Enabled(l, op)
  {
    match op
    case OpenOp(params, script) => Lease(OpenState(l.w, params, script), OpenedStream(l.w, params, script))
    case NextOp(event) => l.(stream := Some(AfterNext(l.stream.value, event)))
    case ReclaimOp(intoConn) => Lease(ReclaimState(l.w, l.stream.value, intoConn), None)
    case DropStreamOp => l.(stream := None)
    case QueryOp(params, script) => l.(w := RunState(l.w, params, script))
    case SimpleOp(call) => l.(w := SimpleQueryState(l.w, call))
    case TakeMutatedOp => l.(w := l.w.(mutated := false))
    case ResetOp(call) => l.(w := ResetState(l.w, call))
    case PingOp(call) => l.(w := PingState(l.w, call))
  }

  ghost predicate Runs(l: Lease, ops: seq<Op>)
    decreases |ops|
  {
    ops == [] || (Enabled(l, ops[0]) && Runs(Step(l, ops[0]), ops[1..]))
  }

  ghost function RunAll(l: Lease, ops: seq<Op>): Lease
    requires Runs(l, ops)
    decreases |ops|
  {
    if ops == [] then l else RunAll(Step(l, ops[0]), ops[1..])
  }

  datatype Owner = ByWrapper | ByStream | ByNobody

  /** Who holds the driver handle. */
  function OwnerOf(l: Lease): Owner {
    if !IsParked(l.w) then ByWrapper
    else if l.stream.Some? && l.stream.value.Rows? then ByStream
    else ByNobody
  }

  /** One owner, and always the session that was connected. */
  predicate Inv(l: Lease) {
    && (!IsParked(l.w) ==> l.w.handle.value.id == l.w.connId)
    && (l.stream.Some? && l.stream.value.Rows? ==> IsParked(l.w) && l.stream.value.handle.id == l.w.connId)
  }

  lemma StepKeepsInv(l: Lease, op: Op)
    requires Inv(l) && Enabled(l, op)
    ensures Inv(Step(l, op)) && Step(l, op).w.connId == l.w.connId
  {
  }

  /** Over every run with arbitrary driver failures the invariant holds; in particular a connection the
      pool does not see as closed has its original, live session and no stream owns it. */
  lemma {:induction false} EveryRunKeepsInv(l: Lease, ops: seq<Op>)
    requires Inv(l) && Runs(l, ops)
    ensures var end := RunAll(l, ops);
            && Inv(end) && end.w.connId == l.w.connId
            && (!ReportsClosed(end.w) ==>
                  && OwnerOf(end) == ByWrapper && end.w.handle.value.id == l.w.connId
                  && !end.w.handle.value.packet.disconnected)
    decreases |ops|
  {
    if ops != [] {
      StepKeepsInv(l, ops[0]);
      EveryRunKeepsInv(Step(l, ops[0]), ops[1..]);
    }
  }

  /** A handle that nobody owns is gone for good: the wrapper stays dead in every continuation. */
  lemma {:induction false} LostStaysLost(l: Lease, ops: seq<Op>)
    requires Inv(l) && OwnerOf(l) == ByNobody && Runs(l, ops)
    ensures OwnerOf(RunAll(l, ops)) == ByNobody && ReportsClosed(RunAll(l, ops).w)
    ensures TxStatusOf(RunAll(l, ops).w) == TxStatus.Failed
    decreases |ops|
  {
    if ops != [] {
      StepKeepsInv(l, ops[0]);
      LostStaysLost(Step(l, ops[0]), ops[1..]);
    }
  }

  /** Whether one pool call executes a statement. */
  predicate Executes(op: Op) {
    match op
    case OpenOp(params, script) => script.prep.Done? && Preflight(params, script.prep.value)
    case QueryOp(params, script) => script.prep.Done? && Preflight(params, script.prep.value)
    case SimpleOp(_) => true
    case _ => false
  }

  function Executions(ops: seq<Op>): nat {
    if ops == [] then 0 else (if Executes(ops[0]) then 1 else 0) + Executions(ops[1..])
  }

  /** Each call executes its statement once if its preflight passes and never otherwise, whatever fails
      afterwards: nothing is retried. */
  lemma {:induction false} ExecutesOncePerCall(l: Lease, ops: seq<Op>)
    requires Runs(l, ops)
    ensures RunAll(l, ops).w.sends == l.w.sends + Executions(ops)
    decreases |ops|
  {
    if ops != [] {
      OneExecution(l, ops[0]);
      ExecutesOncePerCall(Step(l, ops[0]), ops[1..]);
    }
  }

  lemma OneExecution(l: Lease, op: Op)
    requires Enabled(l, op)
    ensures Step(l, op).w.sends == l.w.sends + if Executes(op) then 1 else 0
  {
  }

  /** `open`: an unknown fate is reported exactly when a driver call it awaited failed fatally; a refusal
      by the preflight is known, leaves the handle in place and the connection as open as it was. */
  lemma OpenErrorsAreHonest(w: Wrapper, params: seq<Value>, script: OpenScript)
    requires !IsParked(w)
    ensures var fate := OpenFate(params, script);
            && (OpenError(fate) == Some(ConnectionLost) <==> FatalFailed in OpenCalls(params, script))
            && (script.prep.Done? && !Preflight(params, script.prep.value) ==>
                  && fate.NotSent? && fate.error in {Unsupported, BindRefused}
                  && OpenState(w, params, script) == WithPacket(w, script.prep.after))
  {
    LostIffFatal(params, script);
  }

  /** `run`: the same, and the fate is unknown only if the wrapper is closed by it; a refusal after the
      drain is known and leaves the handle in place with the taint recorded. */
  lemma RunErrorsAreHonest(w: Wrapper, params: seq<Value>, script: RunScript, r: Result<QueryResult, PoolError>)
    requires !IsParked(w) && RunAnswers(r, params, script)
    ensures var after := RunState(w, params, script);
            && !IsParked(after)
            && (r == Err(ConnectionLost) <==> FatalFailed in RunCalls(params, script))
            && (r == Err(ConnectionLost) ==> ReportsClosed(after))
            && (r.Err? && RunSends(params, script) && script.drain.Done? ==>
                  && r.error in {Backend, Unsupported}
                  && after.recorded == w.recorded + [script.drain.after.lastOk])
  {
  }

  /** `open`: a column refused after the send either recovers the handle, with its taint recorded and the
      refusal reported, or the drain failed and that failure is what is reported. */
  lemma LateRefusalRecoversOrReportsDrain(w: Wrapper, params: seq<Value>, script: OpenScript)
    requires !IsParked(w) && script.prep.Done? && Preflight(params, script.prep.value)
    requires script.run.Kept? && !Described(script.run.value)
    ensures var fate, after := OpenFate(params, script), OpenState(w, params, script);
            if script.intoConn.Kept? then
              && OpenError(fate) == Some(Unsupported) && !IsParked(after)
              && after.handle.value == Handle(w.handle.value.id, script.intoConn.value)
              && after.recorded == w.recorded + [script.intoConn.value.lastOk]
            else
              && OpenError(fate) == Some(MapError(script.intoConn.fatal)) && IsParked(after)
              && after.recorded == w.recorded
  {
  }

  /** The end of a stream: a successful reclaim puts the original session back and records its taint, a
      failed one leaves the wrapper dead. */
  lemma ReclaimRestoresOrKills(l: Lease, intoConn: Owned<Packet>)
    requires Inv(l) && l.stream.Some? && l.stream.value.Rows?
    ensures var end := Step(l, ReclaimOp(intoConn));
            if intoConn.Kept? then
              && OwnerOf(end) == ByWrapper && end.w.handle.value == Handle(l.w.connId, intoConn.value)
              && end.w.recorded == l.w.recorded + [intoConn.value.lastOk]
              && TxStatusOf(end.w) != TxStatus.Failed
            else OwnerOf(end) == ByNobody && ReportsClosed(end.w)
  {
  }

  // ---------------------------------------------------------------------------------------------
  // The taint, from the calls of the run

  /** The packet a call records for the taint, if it records one: that of a statement that ran to its end
      with its connection in hand. */
  ghost function RecordedBy(l: Lease, op: Op): Option<Option<OkPacket>> {
    match op
    case OpenOp(params, script) =>
      var fate := OpenFate(params, script);
      if fate.HandedBack? then Some(fate.after.lastOk) else None
    case ReclaimOp(intoConn) =>
      if l.stream.Some? && l.stream.value.Rows? && intoConn.Kept? then Some(intoConn.value.lastOk) else None
    case QueryOp(params, script) =>
      if RunSends(params, script) && script.drain.Done? then Some(script.drain.after.lastOk) else None
    case SimpleOp(call) => if call.Done? then Some(call.after.lastOk) else None
    case _ => None
  }

  /** A take, or a reset that succeeded. */
  predicate Clears(op: Op) {
    op.TakeMutatedOp? || (op.ResetOp? && op.call.Done?)
  }

  ghost predicate Mutates(l: Lease, op: Op) {
    RecordedBy(l, op).Some? && ReportsMutation(RecordedBy(l, op).value)
  }

  /** Some call of the run recorded a packet that reports a mutation. */
  ghost predicate SomeMutates(l: Lease, ops: seq<Op>)
    requires Runs(l, ops)
    decreases |ops|
  {
    ops != [] && (Mutates(l, ops[0]) || SomeMutates(Step(l, ops[0]), ops[1..]))
  }

  predicate NoneClears(ops: seq<Op>) {
    forall i :: 0 <= i < |ops| ==> !Clears(ops[i])
  }

  lemma OneCallTaints(l: Lease, op: Op)
    requires Enabled(l, op)
    ensures Step(l, op).w.mutated <==> !Clears(op) && (l.w.mutated || Mutates(l, op))
  {
  }

  /** Between two reports the taint is the taint before, or some call that recorded a mutation: never
      forgotten, never invented. */
  lemma {:induction false} TaintOverRuns(l: Lease, ops: seq<Op>)
    requires Runs(l, ops) && NoneClears(ops)
    ensures RunAll(l, ops).w.mutated <==> l.w.mutated || SomeMutates(l, ops)
    decreases |ops|
  {
    if ops != [] {
      OneCallTaints(l, ops[0]);
      forall i | 0 <= i < |ops[1..]| ensures !Clears(ops[1..][i]) {
        assert ops[1..][i] == ops[i + 1];
      }
      TaintOverRuns(Step(l, ops[0]), ops[1..]);
    }
  }

  /** What a take reports is whether some call since the last take or successful reset recorded a mutation;
      and it reports it once: right after it the taint is gone. */
  lemma TaintIsReportedOnce(l: Lease, cleared: Op, ops: seq<Op>)
    requires Enabled(l, cleared) && Clears(cleared)
    requires Runs(Step(l, cleared), ops) && NoneClears(ops) && RunAll(Step(l, cleared), ops).stream.None?
    ensures var start := Step(l, cleared);
            var end := RunAll(start, ops);
            && (end.w.mutated <==> SomeMutates(start, ops))
            && Enabled(end, TakeMutatedOp) && !Step(end, TakeMutatedOp).w.mutated
  {
    OneCallTaints(l, cleared);
    TaintOverRuns(Step(l, cleared), ops);
  }

  /** A fresh connection on a new lease. */
  function FreshLease(h: Handle): Lease {
    Lease(Wrapper(h.id, Some(h), false, false, 0, []), None)
  }

  /** From a fresh connection on, in every run: one owner of the original session, and until the first
      report the taint is exactly whether some call recorded a mutation. */
  lemma FreshLeaseRuns(h: Handle, ops: seq<Op>)
    requires Runs(FreshLease(h), ops)
    ensures Inv(FreshLease(h)) && Inv(RunAll(FreshLease(h), ops))
    ensures NoneClears(ops) ==> (RunAll(FreshLease(h), ops).w.mutated <==> SomeMutates(FreshLease(h), ops))
  {
    EveryRunKeepsInv(FreshLease(h), ops);
    if NoneClears(ops) {
      TaintOverRuns(FreshLease(h), ops);
    }
  }

  function Pull(rows: RowStream, events: seq<RowEvent>): RowStream
    decreases |events|
  {
    if events == [] then rows else Pull(AfterNext(rows, events[0]), events[1..])
  }

  /** A stream that has ended or failed answers nothing more, whatever the driver would deliver; until
      then every event so far was a row that decoded. */
  lemma {:induction false} StreamIsRowsThenSilence(rows: RowStream, events: seq<RowEvent>)
    requires rows.Rows?
    ensures Pull(rows, events).Rows? && Pull(rows, events).columns == rows.columns
    ensures rows.done ==> Pull(rows, events) == rows
    ensures !Pull(rows, events).done <==>
              !rows.done && forall i :: 0 <= i < |events| ==> events[i].Row? && RowMaps(events[i].cells, rows.columns)
    decreases |events|
  {
    if events != [] {
      StreamIsRowsThenSilence(AfterNext(rows, events[0]), events[1..]);
      assert forall i :: 0 < i < |events| ==> events[i] == events[1..][i - 1];
      assert forall i :: 0 <= i < |events| - 1 ==> events[1..][i] == events[i + 1];
    }
  }
}
