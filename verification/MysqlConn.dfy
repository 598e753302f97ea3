/** The pooled MySQL connection: a driver handle that a row stream may own for a while.

    Every driver await is a scripted outcome, so a statement about all scripts is a statement about
    every way the driver and the server can answer or fail.
 */
module MysqlConn {
  import opened Wrappers
  import opened MyText
  import opened Tracker

  /** What a driver handle reports after a call; the session behind the handle never changes. */
  datatype Packet = Packet(disconnected: bool, lastOk: Option<OkPacket>, affected: nat, lastInsertId: Option<nat>)

  datatype Handle = Handle(id: nat, packet: Packet)

  /** A call on a borrowed handle. */
  datatype Call<+T> = Done(value: T, after: Packet) | Failed(fatal: bool, after: Packet)

  /** A call that consumes the handle: a failure takes it with it. */
  datatype Owned<+T> = Kept(value: T) | Gone(fatal: bool)

  /** How an awaited driver call came out. */
  datatype Outcome = Fine | ServerFailed | FatalFailed

  function Failure(fatal: bool): Outcome {
    if fatal then FatalFailed else ServerFailed
  }

  function CallOutcome<T>(call: Call<T>): Outcome {
    if call.Done? then Fine else Failure(call.fatal)
  }

  function OwnedOutcome<T>(call: Owned<T>): Outcome {
    if call.Kept? then Fine else Failure(call.fatal)
  }

  /** Some call logged since `before` failed with a broken session. */
  ghost predicate FatalSince(before: seq<Outcome>, after: seq<Outcome>) {
    before <= after && FatalFailed in after[|before|..]
  }

  lemma LogGrows(before: seq<Outcome>, added: seq<Outcome>)
    ensures before <= before + added && (FatalSince(before, before + added) <==> FatalFailed in added)
  {
    assert (before + added)[|before|..] == added;
  }

  function MapError(fatal: bool): PoolError {
    if fatal then ConnectionLost else Server
  }

  /** The wrapper's whole state, with the log of statements sent and of packets recorded. */
  datatype Wrapper = Wrapper(
    connId: nat, handle: Option<Handle>, mutated: bool, closed: bool,
    sends: nat, recorded: seq<Option<OkPacket>>)

  predicate IsParked(w: Wrapper) {
    w.handle.None?
  }

  /** A parked wrapper is dead to the pool. */
  predicate ReportsClosed(w: Wrapper) {
    IsParked(w) || w.closed || w.handle.value.packet.disconnected
  }

  function TxStatusOf(w: Wrapper): (s: TxStatus)
    ensures s == TxStatus.Failed <==> IsParked(w)
  {
    if IsParked(w) then TxStatus.Failed else TxStatusFromOk(w.handle.value.packet.lastOk)
  }

  ghost function Record(w: Wrapper): Wrapper
    requires !IsParked(w)
  {
    var ok := w.handle.value.packet.lastOk;
    w.(mutated := w.mutated || ReportsMutation(ok), recorded := w.recorded + [ok])
  }

  function WithPacket(w: Wrapper, after: Packet): Wrapper
    requires !IsParked(w)
  {
    w.(handle := Some(w.handle.value.(packet := after)))
  }

  function Unparked(w: Wrapper, h: Handle): Wrapper {
    w.(handle := Some(h))
  }

  function Fatal(w: Wrapper, fatal: bool): Wrapper {
    w.(closed := w.closed || fatal)
  }

  class Conn {
    var mysql: Option<Handle>
    const connId: nat
    var sessionMutated: bool
    var closed: bool
    ghost var sends: nat
    ghost var recorded: seq<Option<OkPacket>>
    ghost var outcomes: seq<Outcome>

    ghost function State(): Wrapper
      reads this
    {
      Wrapper(connId, mysql, sessionMutated, closed, sends, recorded)
    }

    /** A fresh connection: the setup statements never count as a mutation. */
    constructor (h: Handle)
      ensures State() == Wrapper(h.id, Some(h), false, false, 0, []) && outcomes == []
    {
      mysql, connId, sessionMutated, closed := Some(h), h.id, false, false;
      sends, recorded, outcomes := 0, [], [];
    }

    method Park() returns (h: Option<Handle>)
      modifies this`mysql
      ensures h == old(mysql) && State() == old(State()).(handle := None)
    {
      h := mysql;
      mysql := None;
    }

    method Unpark(h: Handle)
      modifies this`mysql
      ensures State() == Unparked(old(State()), h)
    {
      mysql := Some(h);
    }

    /** An awaited call on the borrowed driver handle; it panics on a parked wrapper. */
    method Await(after: Packet, ghost outcome: Outcome)
      requires mysql.Some?
      modifies this`mysql, this`outcomes
      ensures State() == WithPacket(old(State()), after) && outcomes == old(outcomes) + [outcome]
    {
      mysql := Some(mysql.value.(packet := after));
      outcomes := outcomes + [outcome];
    }

    method RecordSessionMutation()
      requires mysql.Some?
      modifies this`sessionMutated, this`recorded
      ensures State() == Record(old(State()))
    {
      var mutated := OkReportsSessionMutation(mysql.value.packet.lastOk);
      sessionMutated := sessionMutated || mutated;
      recorded := recorded + [mysql.value.packet.lastOk];
    }

    method MapStmtError(fatal: bool) returns (e: PoolError)
      modifies this`closed
      ensures State() == Fatal(old(State()), fatal) && e == MapError(fatal)
    {
      if fatal {
        closed := true;
      }
      e := MapError(fatal);
    }

    method IsClosed() returns (b: bool)
      ensures b == ReportsClosed(State())
    {
      if mysql.None? {
        return true;
      }
      b := closed || mysql.value.packet.disconnected;
    }

    method TakeSessionMutated() returns (m: bool)
      modifies this`sessionMutated
      ensures m == old(sessionMutated) && State() == old(State()).(mutated := false)
    {
      m := sessionMutated;
      sessionMutated := false;
    }

    method Reset(call: Call<()>) returns (r: Result<(), PoolError>)
      requires mysql.Some?
      modifies this
      ensures State() == ResetState(old(State()), call) && outcomes == old(outcomes) + [CallOutcome(call)]
      ensures r == if call.Done? then Ok(()) else Err(ConnectionLost)
    {
      Await(call.after, CallOutcome(call));
      if call.Failed? {
        closed := true;
        return Err(ConnectionLost);
      }
      sessionMutated := false;
      r := Ok(());
    }

    method Ping(call: Call<()>) returns (r: Result<(), PoolError>)
      requires mysql.Some?
      modifies this
      ensures State() == PingState(old(State()), call) && outcomes == old(outcomes) + [CallOutcome(call)]
      ensures r == if call.Done? then Ok(()) else Err(ConnectionLost)
    {
      Await(call.after, CallOutcome(call));
      if call.Failed? {
        closed := true;
        return Err(ConnectionLost);
      }
      r := Ok(());
    }

    method SimpleQuery(call: Call<()>) returns (r: Result<nat, PoolError>)
      requires mysql.Some?
      modifies this
      ensures State() == SimpleQueryState(old(State()), call) && outcomes == old(outcomes) + [CallOutcome(call)]
      ensures r == if call.Done? then Ok(call.after.affected) else Err(MapError(call.fatal))
    {
      sends := sends + 1;
      Await(call.after, CallOutcome(call));
      if call.Failed? {
        var e := MapStmtError(call.fatal);
        return Err(e);
      }
      RecordSessionMutation();
      r := Ok(mysql.value.packet.affected);
    }
  }

  function PingState(w: Wrapper, call: Call<()>): Wrapper
    requires !IsParked(w)
  {
    Fatal(WithPacket(w, call.after), call.Failed?)
  }

  function ResetState(w: Wrapper, call: Call<()>): Wrapper
    requires !IsParked(w)
  {
    var w' := PingState(w, call);
    if call.Done? then w'.(mutated := false) else w'
  }

  ghost function SimpleQueryState(w: Wrapper, call: Call<()>): Wrapper
    requires !IsParked(w)
  {
    var w' := WithPacket(w.(sends := w.sends + 1), call.after);
    if call.Done? then Record(w') else Fatal(w', call.fatal)
  }
}
