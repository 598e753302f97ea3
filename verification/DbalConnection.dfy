/** The Doctrine driver connection over a session that carries one request at a time.

    The connection holds a weak reference to the result it opened last. The PHP heap is modelled by the
    views of all results and the set of those still referenced; a result that is dropped is freed at
    once by its destructor.
 */
module DbalConnection {
  import opened Wrappers
  import opened DbalResult

  /** `wire` is the result whose stream is open on the session, if any. `drained` and `cancelled` log
      what became of streams; `requests` counts the requests sent. */
  datatype State = State(
    openStream: Option<nat>, settledRows: nat, inTx: bool, commitEnded: bool,
    results: map<nat, View>, live: set<nat>, wire: Option<nat>,
    next: nat, requests: nat, drained: seq<(nat, nat)>, cancelled: set<nat>)

  datatype StreamReply =
    | Opens(producer: Producer)         // HEAD arrived; the stream is open
    | EndsAtOpen(affected: Option<int>) // a complete statement, nothing to read
    | Fails(code: nat)

  datatype Reply = Answered | Refused(code: nat)

  datatype TxReply = TxDone | TxFailed(code: nat, stillInTx: bool)

  datatype Outcome = Fine | NewResult(id: nat) | Thrown(code: nat) | Unsupported | WrongTxState

  function Forget(wire: Option<nat>, id: nat): Option<nat> {
    if wire == Some(id) then None else wire
  }

  /** The result `id` moves to the view `v`; a view without an ending has no stream on the wire. */
  function Moved(s: State, id: nat, v: View): State {
    s.(results := s.results[id := v], wire := if v.ending.None? then Forget(s.wire, id) else s.wire)
  }

  predicate SettleThrows(s: State) {
    s.openStream.Some? && s.openStream.value in s.live && s.openStream.value in s.results
    && DrainThrows(s.results[s.openStream.value])
  }

  /** `settleOpenStream`: a result still referenced is drained into memory, one that is gone was
      cancelled when it was dropped. */
  function Settle(s: State): State {
    if s.openStream.None? then s
    else
      var id, s' := s.openStream.value, s.(openStream := None);
      if id !in s.live || id !in s.results then s'
      else
        var v := s.results[id];
        Moved(s', id, AfterDrain(v)).(
          settledRows := s.settledRows + DrainCost(v), drained := s.drained + [(id, DrainCost(v))])
  }

  function Send(s: State): State {
    s.(requests := s.requests + 1)
  }

  function AddResult(s: State, v: View, onWire: bool): State {
    s.(openStream := Some(s.next), results := s.results[s.next := v], live := s.live + {s.next},
       wire := if onWire then Some(s.next) else s.wire, next := s.next + 1)
  }

  datatype Op =
    | Stream(isolation: bool, reply: StreamReply)   // query() and runPrepared()
    | Exec(isolation: bool, answer: Reply)
    | OwnRead(answer: Reply)                        // the driver's own reads: lastval(), version()
    | Begin(tx: TxReply)
    | Commit(tx: TxReply)
    | RollBack(tx: TxReply)
    | FetchRow(id: nat)                             // the caller reads a result
    | CountRows(id: nat)
    | FreeResult(id: nat)
    | DropResult(id: nat)                           // the caller lets go of it

  predicate OfCaller(op: Op) {
    op.FetchRow? || op.CountRows? || op.FreeResult? || op.DropResult?
  }

  predicate Enabled(s: State, op: Op) {
    OfCaller(op) ==> op.id in s.live && op.id in s.results
  }

  /** Free: cancel the stream on the wire and drop the rows. */
  function Release(s: State, id: nat): State
    requires id in s.results
  {
    Moved(s, id, Freed(s.results[id])).(cancelled := if s.wire == Some(id) then s.cancelled + {id} else s.cancelled)
  }

  /** The state after a statement entry point's own request, once the open stream is settled. */
  function AfterRequest(s: State, op: Op): State
    requires !OfCaller(op)
  {
    match op
    case Stream(isolation, reply) =>
      if isolation then s
      else
        (match reply
         case Opens(p) => AddResult(Send(s), View(p.rows, Some(p.terminal), 0), true)
         case EndsAtOpen(a) => AddResult(Send(s), View([], Some(Finished(a)), 0), false)
         case Fails(_) => Send(s))
    case Exec(isolation, _) => if isolation then s else Send(s)
    case OwnRead(_) => Send(s)
    case Begin(tx) =>
      var s' := s.(commitEnded := false);
      if s.inTx then s' else Send(s').(inTx := if tx.TxDone? then true else tx.stillInTx)
    case Commit(tx) =>
      if !s.inTx then s.(commitEnded := true)
      else
        var inTx := if tx.TxDone? then false else tx.stillInTx;
        Send(s).(inTx := inTx, commitEnded := if tx.TxDone? then s.commitEnded else !inTx)
    case RollBack(tx) =>
      var s' := s.(commitEnded := false);
      if !s.inTx then s' else Send(s').(inTx := if tx.TxDone? then false else tx.stillInTx)
  }

  function Step(s: State, op: Op): State
    requires Enabled(s, op)
  {
    match op
    case FetchRow(id) => Moved(s, id, AfterFetch(s.results[id]))
    case CountRows(id) => Moved(s, id, AfterDrain(s.results[id]))
    case FreeResult(id) => Release(s, id)
    case DropResult(id) => Release(s, id).(live := s.live - {id})
    case _ => if SettleThrows(s) then Settle(s) else AfterRequest(Settle(s), op)
  }

  /** What an entry point of the connection reports. */
  function OutcomeOf(s: State, op: Op): Outcome
    requires !OfCaller(op)
  {
    if SettleThrows(s) then Thrown(s.results[s.openStream.value].ending.value.code)
    else
      match op
      case Stream(true, _) => Unsupported
      case Stream(false, Fails(code)) => Thrown(code)
      case Stream(false, _) => NewResult(s.next)
      case Exec(true, _) => Unsupported
      case Exec(false, Refused(code)) => Thrown(code)
      case OwnRead(Refused(code)) => Thrown(code)
      case Begin(tx) => if s.inTx then WrongTxState else if tx.TxFailed? then Thrown(tx.code) else Fine
      case Commit(tx) => if !s.inTx then WrongTxState else if tx.TxFailed? then Thrown(tx.code) else Fine
      case RollBack(tx) =>
        if !s.inTx then (if s.commitEnded then Fine else WrongTxState)
        else if tx.TxFailed? then Thrown(tx.code) else Fine
      case _ => Fine
  }

  class Connection {
    var openStream: Option<nat>
    var settledRows: nat
    var inTx: bool
    var commitEnded: bool
    var results: map<nat, View>
    var live: set<nat>
    var wire: Option<nat>
    var next: nat
    ghost var requests: nat
    ghost var drained: seq<(nat, nat)>
    ghost var cancelled: set<nat>

    ghost function Look(): State
      reads this
    {
      State(openStream, settledRows, inTx, commitEnded, results, live, wire, next, requests, drained, cancelled)
    }

    constructor ()
      ensures Look() == State(None, 0, false, false, map[], {}, None, 0, 0, [], {}) && Inv(Look())
    {
      openStream, settledRows, inTx, commitEnded := None, 0, false, false;
      results, live, wire, next := map[], {}, None, 0;
      requests, drained, cancelled := 0, [], {};
    }

    method SettleOpenStream() returns (thrown: Option<nat>)
      modifies this
      ensures Look() == Settle(old(Look()))
      ensures thrown.Some? <==> SettleThrows(old(Look()))
      ensures thrown.Some? ==> thrown.value == old(results[openStream.value]).ending.value.code
    {
      thrown := None;
      var ref := openStream;
      openStream := None;
      if ref.Some? && ref.value in live && ref.value in results {
        var v := results[ref.value];
        if DrainThrows(v) {
          thrown := Some(v.ending.value.code);
        }
        results := results[ref.value := AfterDrain(v)];
        wire := Forget(wire, ref.value);
        settledRows := settledRows + DrainCost(v);
        drained := drained + [(ref.value, DrainCost(v))];
      }
    }

    /** One request on the session, which refuses any while a stream is open. */
    method Request()
      requires wire.None?
      modifies this`requests
      ensures Look() == Send(old(Look()))
    {
      requests := requests + 1;
    }

    method OpenResult(isolation: bool, reply: StreamReply) returns (r: Outcome)
      requires StreamIsTracked(Look())
      modifies this
      ensures Look() == Step(old(Look()), Stream(isolation, reply))
      ensures r == OutcomeOf(old(Look()), Stream(isolation, reply))
    {
      SettlingClearsWire(Look());
      var thrown := SettleOpenStream();
      if thrown.Some? {
        return Thrown(thrown.value);
      }
      if isolation {
        return Unsupported;
      }
      Request();
      if reply.Fails? {
        return Thrown(reply.code);
      }
      r := NewResult(next);
      var v := if reply.Opens? then View(reply.producer.rows, Some(reply.producer.terminal), 0)
               else View([], Some(Finished(reply.affected)), 0);
      openStream, results, live := Some(next), results[next := v], live + {next};
      wire := if reply.Opens? then Some(next) else wire;
      next := next + 1;
    }

    method ExecStatement(isolation: bool, answer: Reply) returns (r: Outcome)
      requires StreamIsTracked(Look())
      modifies this
      ensures Look() == Step(old(Look()), Exec(isolation, answer))
      ensures r == OutcomeOf(old(Look()), Exec(isolation, answer))
    {
      SettlingClearsWire(Look());
      var thrown := SettleOpenStream();
      if thrown.Some? {
        return Thrown(thrown.value);
      }
      if isolation {
        return Unsupported;
      }
      Request();
      r := if answer.Refused? then Thrown(answer.code) else Fine;
    }

    method DriverRead(answer: Reply) returns (r: Outcome)
      requires StreamIsTracked(Look())
      modifies this
      ensures Look() == Step(old(Look()), OwnRead(answer))
      ensures r == OutcomeOf(old(Look()), OwnRead(answer))
    {
      SettlingClearsWire(Look());
      var thrown := SettleOpenStream();
      if thrown.Some? {
        return Thrown(thrown.value);
      }
      Request();
      r := if answer.Refused? then Thrown(answer.code) else Fine;
    }

    method DoBegin(tx: TxReply) returns (r: Outcome)
      requires StreamIsTracked(Look())
      modifies this
      ensures Look() == Step(old(Look()), Begin(tx))
      ensures r == OutcomeOf(old(Look()), Begin(tx))
    {
      SettlingClearsWire(Look());
      var thrown := SettleOpenStream();
      if thrown.Some? {
        return Thrown(thrown.value);
      }
      commitEnded := false;
      if inTx {
        // The client refuses to nest, before it sends anything.
        return WrongTxState;
      }
      Request();
      inTx := if tx.TxDone? then true else tx.stillInTx;
      r := if tx.TxFailed? then Thrown(tx.code) else Fine;
    }

    method DoCommit(tx: TxReply) returns (r: Outcome)
      requires StreamIsTracked(Look())
      modifies this
      ensures Look() == Step(old(Look()), Commit(tx))
      ensures r == OutcomeOf(old(Look()), Commit(tx))
    {
      SettlingClearsWire(Look());
      var thrown := SettleOpenStream();
      if thrown.Some? {
        return Thrown(thrown.value);
      }
      if !inTx {
        // The client refuses before it sends anything; the catch arm sees no open transaction.
        commitEnded := true;
        return WrongTxState;
      }
      Request();
      inTx := if tx.TxDone? then false else tx.stillInTx;
      if tx.TxFailed? {
        commitEnded := !inTx;
        return Thrown(tx.code);
      }
      r := Fine;
    }

    method DoRollBack(tx: TxReply) returns (r: Outcome)
      requires StreamIsTracked(Look())
      modifies this
      ensures Look() == Step(old(Look()), RollBack(tx))
      ensures r == OutcomeOf(old(Look()), RollBack(tx))
    {
      SettlingClearsWire(Look());
      var thrown := SettleOpenStream();
      if thrown.Some? {
        return Thrown(thrown.value);
      }
      if commitEnded && !inTx {
        commitEnded := false;
        return Fine;
      }
      commitEnded := false;
      if !inTx {
        return WrongTxState;
      }
      Request();
      inTx := if tx.TxDone? then false else tx.stillInTx;
      r := if tx.TxFailed? then Thrown(tx.code) else Fine;
    }
  }

  /** The stream open on the session, if any, belongs to the result the connection would settle, and
      that result is still referenced. */
  predicate StreamIsTracked(s: State) {
    s.wire.Some? ==>
      && s.openStream == s.wire && s.wire.value in s.live
      && s.wire.value in s.results && s.results[s.wire.value].ending.Some?
  }

  /** After settling, no stream is open: the request that follows may go out. */
  lemma SettlingClearsWire(s: State)
    requires StreamIsTracked(s)
    ensures Settle(s).wire.None?
  {
  }

  // ---------------------------------------------------------------------------------------------
  // Over every run

  ghost predicate Inv(s: State) {
    && StreamIsTracked(s)
    && (forall id :: id in s.live ==> id in s.results)
    && (forall id :: id in s.results ==> id < s.next)
    // A referenced result with its terminal still ahead is the one on the wire, or needs no wire.
    && (forall id :: id in s.live && s.results[id].ending.Some? ==>
          s.wire == Some(id) || (s.results[id].rows == [] && s.results[id].ending.value.Finished?))
    // A cancelled result kept nothing.
    && (forall id :: id in s.cancelled ==> id in s.results && s.results[id].rows == [] && s.results[id].ending.None?)
  }

  lemma SettleKeepsInv(s: State)
    requires Inv(s)
    ensures Inv(Settle(s)) && Settle(s).wire.None?
  {
    SettlingClearsWire(s);
    if s.openStream.Some? && s.openStream.value in s.live {
      var id := s.openStream.value;
      assert Settle(s).results == s.results[id := AfterDrain(s.results[id])];
    }
  }

  /** A result of the caller that loses rows or meets its terminal. */
  lemma MovedKeepsInv(s: State, id: nat, v: View)
    requires Inv(s) && id in s.live
    requires v.ending.Some? ==> v.ending == s.results[id].ending && (s.results[id].rows == [] ==> v.rows == [])
    requires s.results[id].rows == [] && s.results[id].ending.None? ==> v.rows == [] && v.ending.None?
    ensures Inv(Moved(s, id, v))
  {
  }

  lemma ReleaseKeepsInv(s: State, id: nat)
    requires Inv(s) && id in s.live
    ensures Inv(Release(s, id)) && Release(s, id).wire != Some(id)
  {
    MovedKeepsInv(s, id, Freed(s.results[id]));
  }

  lemma AddKeepsInv(s: State, v: View, onWire: bool)
    requires Inv(s) && s.wire.None? && v.ending.Some?
    requires !onWire ==> v.rows == [] && v.ending.value.Finished?
    ensures Inv(AddResult(s, v, onWire))
  {
    assert s.next !in s.results;
  }

  lemma RequestKeepsInv(s: State, op: Op)
    requires Inv(s) && s.wire.None? && !OfCaller(op)
    ensures Inv(AfterRequest(s, op))
  {
    if op.Stream? && op.reply.Opens? {
      AddKeepsInv(Send(s), View(op.reply.producer.rows, Some(op.reply.producer.terminal), 0), true);
    } else if op.Stream? && op.reply.EndsAtOpen? {
      AddKeepsInv(Send(s), View([], Some(Finished(op.reply.affected)), 0), false);
    }
  }

  lemma StepKeepsInv(s: State, op: Op)
    requires Inv(s) && Enabled(s, op)
    ensures Inv(Step(s, op))
  {
    match op
    case FetchRow(id) => MovedKeepsInv(s, id, AfterFetch(s.results[id]));
    case CountRows(id) => MovedKeepsInv(s, id, AfterDrain(s.results[id]));
    case FreeResult(id) => ReleaseKeepsInv(s, id);
    case DropResult(id) => ReleaseKeepsInv(s, id);
    case _ =>
      SettleKeepsInv(s);
      RequestKeepsInv(Settle(s), op);
  }

  ghost predicate Runs(s: State, ops: seq<Op>)
    decreases |ops|
  {
    ops == [] || (Enabled(s, ops[0]) && Runs(Step(s, ops[0]), ops[1..]))
  }

  ghost function RunAll(s: State, ops: seq<Op>): State
    requires Runs(s, ops)
    decreases |ops|
  {
    if ops == [] then s else RunAll(Step(s, ops[0]), ops[1..])
  }

  /** For every sequence of driver calls and every moment a caller drops a result, the open stream is
      tracked, so every request goes out on an idle session. */
  lemma {:induction false} EveryRunKeepsInv(s: State, ops: seq<Op>)
    requires Inv(s) && Runs(s, ops)
    ensures Inv(RunAll(s, ops)) && Settle(RunAll(s, ops)).wire.None?
    decreases |ops|
  {
    if ops == [] {
      SettlingClearsWire(s);
    } else {
      StepKeepsInv(s, ops[0]);
      EveryRunKeepsInv(Step(s, ops[0]), ops[1..]);
    }
  }

  predicate Touches(op: Op, id: nat) {
    OfCaller(op) && op.id == id
  }

  /** A referenced result keeps all its remaining rows through everything else that happens on the
      connection, unless its own stream breaks. */
  lemma {:induction false} OthersKeepMyRows(s: State, ops: seq<Op>, id: nat)
    requires Inv(s) && Runs(s, ops) && id in s.live && !DrainThrows(s.results[id])
    requires forall i :: 0 <= i < |ops| ==> !Touches(ops[i], id)
    ensures var end := RunAll(s, ops);
            id in end.live && id in end.results && end.results[id].rows == s.results[id].rows
    decreases |ops|
  {
    if ops != [] {
      StepKeepsInv(s, ops[0]);
      OneStepKeepsMyRows(s, ops[0], id);
      forall i | 0 <= i < |ops[1..]| ensures !Touches(ops[1..][i], id) {
        assert ops[1..][i] == ops[i + 1];
      }
      OthersKeepMyRows(Step(s, ops[0]), ops[1..], id);
    }
  }

  lemma OneStepKeepsMyRows(s: State, op: Op, id: nat)
    requires Inv(s) && Enabled(s, op) && id in s.live && !DrainThrows(s.results[id]) && !Touches(op, id)
    ensures var end := Step(s, op);
            && id in end.live && id in end.results && end.results[id].rows == s.results[id].rows
            && !DrainThrows(end.results[id])
  {
    if OfCaller(op) {
      CallerKeepsOthers(s, op, id);
    } else {
      SettleKeepsRows(s, id);
      RequestKeepsResults(Settle(s), op, id);
    }
  }

  lemma SettleKeepsRows(s: State, id: nat)
    requires Inv(s) && id in s.live && !DrainThrows(s.results[id])
    ensures var end := Settle(s);
            && id in end.live && id in end.results && id < end.next && end.results[id].rows == s.results[id].rows
            && !DrainThrows(end.results[id])
  {
  }

  lemma CallerKeepsOthers(s: State, op: Op, id: nat)
    requires Enabled(s, op) && OfCaller(op) && op.id != id && id in s.live && id in s.results
    ensures var end := Step(s, op); id in end.live && id in end.results && end.results[id] == s.results[id]
  {
  }

  lemma RequestKeepsResults(s: State, op: Op, id: nat)
    requires !OfCaller(op) && id in s.live && id in s.results && id < s.next
    ensures var end := AfterRequest(s, op); id in end.live && id in end.results && end.results[id] == s.results[id]
  {
  }

  /** Results are never revived: ids are fresh. */
  lemma NeverRevived(s: State, op: Op, id: nat)
    requires Enabled(s, op) && id < s.next && id !in s.live
    ensures id < Step(s, op).next && id !in Step(s, op).live
  {
    if !OfCaller(op) {
      assert Settle(s).live == s.live && Settle(s).next == s.next;
    }
  }

  predicate DrainedIn(drained: seq<(nat, nat)>, id: nat, from: nat) {
    exists i :: from <= i < |drained| && drained[i].0 == id
  }

  /** A dropped result is never drained afterwards; if its stream was open it was cancelled there and
      then. */
  lemma DropCancels(s: State, id: nat)
    requires Inv(s) && id in s.live
    ensures var end := Step(s, DropResult(id));
            && id !in end.live && end.wire != Some(id) && end.drained == s.drained
            && (s.wire == Some(id) ==> id in end.cancelled && end.wire.None?)
            && (s.wire != Some(id) ==> end.cancelled == s.cancelled)
  {
  }

  lemma {:induction false} DroppedIsNeverDrained(s: State, ops: seq<Op>, id: nat)
    requires Inv(s) && Runs(s, ops) && id < s.next && id !in s.live
    ensures var end := RunAll(s, ops);
            && id !in end.live && |s.drained| <= |end.drained|
            && !DrainedIn(end.drained, id, |s.drained|)
    decreases |ops|
  {
    if ops != [] {
      var s' := Step(s, ops[0]);
      StepKeepsInv(s, ops[0]);
      OneStepDrains(s, ops[0]);
      NeverRevived(s, ops[0], id);
      DroppedIsNeverDrained(s', ops[1..], id);
      DrainedGrows(s', ops[1..]);
      NotDrainedThrough(s.drained, s'.drained, RunAll(s', ops[1..]).drained, id);
    }
  }

  /** A log that grew by at most one entry, not of `id`, and then without `id`. */
  lemma NotDrainedThrough(d0: seq<(nat, nat)>, d1: seq<(nat, nat)>, d2: seq<(nat, nat)>, id: nat)
    requires |d0| <= |d1| <= |d0| + 1 && |d1| <= |d2| && d2[..|d1|] == d1
    requires (|d1| > |d0| ==> d1[|d0|].0 != id) && !DrainedIn(d2, id, |d1|)
    ensures !DrainedIn(d2, id, |d0|)
  {
    if |d1| > |d0| {
      assert d2[|d0|] == d2[..|d1|][|d0|];
    }
  }

  /** One call drains at most one result, and a referenced one. */
  lemma OneStepDrains(s: State, op: Op)
    requires Enabled(s, op)
    ensures var d := Step(s, op).drained;
            && |s.drained| <= |d| <= |s.drained| + 1 && d[..|s.drained|] == s.drained
            && (|d| > |s.drained| ==> d[|s.drained|].0 in s.live)
  {
    if !OfCaller(op) {
      var s' := Settle(s);
      assert s'.drained[..|s.drained|] == s.drained;
      assert Step(s, op).drained == s'.drained;
    }
  }

  lemma {:induction false} DrainedGrows(s: State, ops: seq<Op>)
    requires Runs(s, ops)
    ensures |s.drained| <= |RunAll(s, ops).drained| && RunAll(s, ops).drained[..|s.drained|] == s.drained
    decreases |ops|
  {
    if ops != [] {
      var s' := Step(s, ops[0]);
      OneStepDrains(s, ops[0]);
      DrainedGrows(s', ops[1..]);
      assert RunAll(s, ops).drained[..|s.drained|] == RunAll(s, ops).drained[..|s'.drained|][..|s.drained|];
    }
  }

  /** After a COMMIT that failed and ended the transaction, one rollback is a silent no-op that sends
      nothing, and only one; a COMMIT without a transaction to end is such a failure too, and sends
      nothing itself. */
  lemma RollbackAfterFailedCommit(s: State, code: nat, tx1: TxReply, tx2: TxReply)
    requires Inv(s) && !SettleThrows(s)
    ensures var s1 := Step(s, Commit(TxFailed(code, false)));
            var s2 := Step(s1, RollBack(tx1));
            && OutcomeOf(s, Commit(TxFailed(code, false))) == (if s.inTx then Thrown(code) else WrongTxState)
            && s1.requests == s.requests + (if s.inTx then 1 else 0)
            && OutcomeOf(s1, RollBack(tx1)) == Fine && s2.requests == s1.requests
            && OutcomeOf(s2, RollBack(tx2)) == WrongTxState && Step(s2, RollBack(tx2)).requests == s2.requests
  {
    SettleKeepsInv(s);
  }

  // ---------------------------------------------------------------------------------------------
  // Settled rows, from the calls of the run

  /** The rows a call has to buffer before it may send: the remainder of the open result, if that result
      is still referenced and its stream will end well. */
  function Remainder(s: State, op: Op): nat {
    if OfCaller(op) || s.openStream.None? then 0
    else
      var id := s.openStream.value;
      if id in s.live && id in s.results && s.results[id].ending.Some? && s.results[id].ending.value.Finished?
      then |s.results[id].rows| else 0
  }

  ghost function Remainders(s: State, ops: seq<Op>): nat
    requires Runs(s, ops)
    decreases |ops|
  {
    if ops == [] then 0 else Remainder(s, ops[0]) + Remainders(Step(s, ops[0]), ops[1..])
  }

  lemma OneCallSettles(s: State, op: Op)
    requires Enabled(s, op)
    ensures Step(s, op).settledRows == s.settledRows + Remainder(s, op)
  {
    if !OfCaller(op) {
      assert Settle(s).settledRows == s.settledRows + Remainder(s, op);
    }
  }

  /** Over every run `settledRows` grows by exactly the remainders of the results that were still
      referenced and open when another call needed the session: nothing for pure iteration, nothing for a
      result that was dropped. */
  lemma {:induction false} SettledRowsAreRemainders(s: State, ops: seq<Op>)
    requires Runs(s, ops)
    ensures RunAll(s, ops).settledRows == s.settledRows + Remainders(s, ops)
    decreases |ops|
  {
    if ops != [] {
      OneCallSettles(s, ops[0]);
      SettledRowsAreRemainders(Step(s, ops[0]), ops[1..]);
    }
  }
}
