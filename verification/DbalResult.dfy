/** The Doctrine driver result: one cursor over a buffered list or over an open stream.

    A streamed producer is the sequence of rows it yields and the terminal it ends in. `View` is what a
    caller can observe of a result; the class is the PHP object and is proved to move its view by
    `AfterFetch`, `AfterDrain` and `Freed`.
 */
module DbalResult {
  import opened Wrappers

  datatype Cell = CNull | CBool(b: bool) | CInt(n: int) | CText(s: string)
  type Row = seq<Cell>

  /** An Ok terminal carries the affected count unless it came without a body; an error terminal
      carries the exception. */
  datatype Terminal = Finished(affected: Option<int>) | Broken(code: nat)

  datatype Producer = Producer(rows: seq<Row>, terminal: Terminal)

  // ---------------------------------------------------------------------------------------------
  // What a caller sees

  /** The rows still to come, the terminal still to be met, and the count known so far. */
  datatype View = View(rows: seq<Row>, ending: Option<Terminal>, affected: int)

  datatype Fetched = Got(row: Row) | NoMore | Threw(code: nat)

  function Settled(v: View): View {
    match v.ending
    case Some(Finished(Some(a))) => v.(ending := None, affected := a)
    case _ => v.(ending := None)
  }

  function AfterFetch(v: View): View {
    if v.rows != [] then v.(rows := v.rows[1..]) else Settled(v)
  }

  function FetchAnswer(v: View): Fetched {
    if v.rows != [] then Got(v.rows[0])
    else if v.ending.Some? && v.ending.value.Broken? then Threw(v.ending.value.code)
    else NoMore
  }

  predicate DrainThrows(v: View) {
    v.ending.Some? && v.ending.value.Broken?
  }

  /** Draining keeps the rows in memory; when the stream breaks on the way, they are gone. */
  function AfterDrain(v: View): View {
    if DrainThrows(v) then Settled(v.(rows := [])) else Settled(v)
  }

  /** How many rows a drain had to buffer. */
  function DrainCost(v: View): nat {
    if v.ending.Some? && !DrainThrows(v) then |v.rows| else 0
  }

  function Freed(v: View): View {
    View([], None, v.affected)
  }

  // ---------------------------------------------------------------------------------------------
  // The generator behind a stream

  datatype GenState = Unstarted | At(pos: nat) | Ended

  datatype Gen = Gen(producer: Producer, state: GenState)

  /** Run the generator up to the row at `pos`, or into its terminal. */
  function RunTo(g: Gen, pos: nat): (Gen, Option<nat>) {
    if pos < |g.producer.rows| then (g.(state := At(pos)), None)
    else
      (g.(state := Ended), match g.producer.terminal case Broken(code) => Some(code) case Finished(_) => None)
  }

  /** `valid()`, which starts an unstarted generator: the generator after it, and what it threw. */
  function Valid(g: Gen): (Gen, Option<nat>) {
    if g.state.Unstarted? then RunTo(g, 0) else (g, None)
  }

  function Next(g: Gen): (Gen, Option<nat>) {
    match g.state
    case At(pos) => RunTo(g, pos + 1)
    case _ => (g, None)
  }

  /** `RawStream::affected()`: known once the Ok terminal was read. */
  function StreamAffected(g: Gen): Option<int> {
    if g.state.Ended? && g.producer.terminal.Finished? then g.producer.terminal.affected else None
  }

  /** A generator a result may hold: it stands on a row when one is pending, and the result lets go of
      one that ended well. */
  predicate GenOk(g: Gen, pending: bool) {
    && (g.state.At? ==> g.state.pos < |g.producer.rows|)
    && (pending ==> g.state.At?)
    && (g.state.Ended? ==> g.producer.terminal.Broken?)
  }

  /** What a caller sees of a generator, with its last row handed out already or not. */
  function GenView(g: Gen, pending: bool, affected: int): View
    requires GenOk(g, pending)
  {
    match g.state
    case Unstarted => View(g.producer.rows, Some(g.producer.terminal), affected)
    case At(pos) =>
      if pending then View(g.producer.rows[pos + 1..], Some(g.producer.terminal), affected)
      else View(g.producer.rows[pos..], Some(g.producer.terminal), affected)
    case Ended => View([], None, affected)
  }

  /** A pending `next()`, or else `valid()`. */
  function PullGen(g: Gen, pending: bool): (Gen, Option<nat>) {
    if pending then Next(g) else Valid(g)
  }

  /** The count once a generator has ended. */
  function CountAfter(g: Gen, affected: int): int {
    if StreamAffected(g).Some? then StreamAffected(g).value else affected
  }

  /** Where a pull leads, in terms of what the caller saw before it. */
  predicate Leads(v: View, g: Gen, thrown: Option<nat>, affected: int) {
    && v.affected == affected && !g.state.Unstarted?
    && (thrown.Some? ==> g.state.Ended? && v.rows == [] && v.ending == Some(Broken(thrown.value)))
    && (thrown.Some? ==> GenOk(g, false) && GenView(g, false, affected) == Settled(v))
    && (thrown.None? && g.state.At? ==> GenOk(g, true) && v == GenView(g, false, affected))
    && (thrown.None? && g.state.Ended? ==>
          v.rows == [] && !DrainThrows(v) && Settled(v) == View([], None, CountAfter(g, affected)))
  }

  lemma RunLeads(g: Gen, pos: nat, affected: int)
    requires pos <= |g.producer.rows|
    ensures var (g', t) := RunTo(g, pos);
            && g'.producer == g.producer
            && Leads(View(g.producer.rows[pos..], Some(g.producer.terminal), affected), g', t, affected)
  {
  }

  lemma PullLeads(g: Gen, pending: bool, affected: int)
    requires GenOk(g, pending)
    ensures var (g', t) := PullGen(g, pending);
            g'.producer == g.producer && Leads(GenView(g, pending, affected), g', t, affected)
  {
    match g.state
    case Unstarted =>
      assert g.producer.rows[0..] == g.producer.rows;
      RunLeads(g, 0, affected);
    case At(pos) =>
      if pending {
        RunLeads(g, pos + 1, affected);
      }
    case Ended =>
  }

  lemma OneFewer(rows: seq<Row>, k: nat)
    requires k < |rows|
    ensures rows[k..] != [] && rows[k..][0] == rows[k] && rows[k..][1..] == rows[k + 1..]
  {
  }

  /** Standing on a row, that row is the answer, and the rest is what is left. */
  lemma RowIsNext(g: Gen, affected: int)
    requires GenOk(g, true)
    ensures var v := GenView(g, false, affected);
            FetchAnswer(v) == Got(g.producer.rows[g.state.pos]) && AfterFetch(v) == GenView(g, true, affected)
  {
    OneFewer(g.producer.rows, g.state.pos);
  }

  /** Draining from a row on: the end of the generator, seen from there. */
  lemma DrainLeads(g: Gen, affected: int)
    requires GenOk(g, true)
    ensures var v, end := GenView(g, false, affected), g.(state := Ended);
            && (DrainThrows(v) <==> g.producer.terminal.Broken?)
            && (DrainThrows(v) ==>
                  && v.ending == Some(g.producer.terminal) && DrainCost(v) == 0
                  && GenOk(end, false) && AfterDrain(v) == GenView(end, false, affected))
            && (!DrainThrows(v) ==>
                  && DrainCost(v) == |g.producer.rows[g.state.pos..]|
                  && AfterDrain(v) == View(g.producer.rows[g.state.pos..], None, CountAfter(end, affected)))
  {
  }

  // ---------------------------------------------------------------------------------------------
  // The result object

  /** The explicit `valid()`/`current()`/`next()` loop over a started generator. */
  method DrainGenerator(g0: Gen) returns (g: Gen, rest: seq<Row>, thrown: Option<nat>)
    requires !g0.state.Unstarted? && (g0.state.At? ==> g0.state.pos < |g0.producer.rows|)
    ensures g == g0.(state := Ended)
    ensures g0.state.Ended? ==> rest == [] && thrown.None?
    ensures g0.state.At? ==> thrown == match g0.producer.terminal
                                       case Broken(code) => Some(code)
                                       case Finished(_) => None
    ensures g0.state.At? && thrown.None? ==> rest == g0.producer.rows[g0.state.pos..]
  {
    g, rest, thrown := g0, [], None;
    while g.state.At?
      invariant g.state.At? ==> g.state.pos < |g.producer.rows|
      invariant g.producer == g0.producer && !g.state.Unstarted? && thrown.None?
      invariant g0.state.Ended? ==> g == g0 && rest == []
      invariant g.state.At? ==> g0.state.At? && g0.state.pos <= g.state.pos
                                && rest == g0.producer.rows[g0.state.pos..g.state.pos]
      invariant g0.state.At? && g.state.Ended? ==>
                  rest == g0.producer.rows[g0.state.pos..] && g0.producer.terminal.Finished?
      decreases if g.state.At? then |g.producer.rows| - g.state.pos else 0
    {
      rest := rest + [g.producer.rows[g.state.pos]];
      var (g', t) := Next(g);
      g, thrown := g', t;
      if thrown.Some? {
        return;
      }
    }
  }

  class Result {
    var gen: Option<Gen>
    var pendingAdvance: bool
    var rows: seq<Row>
    var cursor: nat
    var affected: int

    ghost predicate Inv()
      reads this
    {
      gen.Some? ==> GenOk(gen.value, pendingAdvance) && rows == [] && cursor == 0
    }

    ghost function Look(): View
      requires Inv()
      reads this
    {
      if gen.None? then View(if cursor <= |rows| then rows[cursor..] else [], None, affected)
      else GenView(gen.value, pendingAdvance, affected)
    }

    constructor Buffered(rows: seq<Row>, affected: int)
      ensures Inv() && Look() == View(rows, None, affected)
    {
      gen, pendingAdvance, this.rows, cursor, this.affected := None, false, rows, 0, affected;
    }

    constructor Streamed(producer: Producer)
      ensures Inv() && Look() == View(producer.rows, Some(producer.terminal), 0)
    {
      gen, pendingAdvance, rows, cursor, affected := Some(Gen(producer, Unstarted)), false, [], 0, 0;
    }

    /** A pending `next()`, then `valid()`: stand on the next row or at the end; an exception leaves the
        generator ended. */
    method Pull() returns (thrown: Option<nat>)
      requires Inv() && gen.Some?
      modifies this`gen, this`pendingAdvance
      ensures gen.Some? && !pendingAdvance
      ensures (gen.value, thrown) == PullGen(old(gen.value), old(pendingAdvance))
    {
      thrown := None;
      if pendingAdvance {
        pendingAdvance := false;
        var (g, t) := Next(gen.value);
        gen, thrown := Some(g), t;
      }
      if thrown.None? {
        var (g, t) := Valid(gen.value);
        gen, thrown := Some(g), t;
      }
    }

    /** The ONE cursor. */
    method FetchNumeric() returns (r: Fetched)
      requires Inv()
      modifies this
      ensures Inv() && Look() == AfterFetch(old(Look())) && r == FetchAnswer(old(Look()))
    {
      if gen.Some? {
        r := FetchStreamed();
      } else {
        if cursor < |rows| {
          OneFewer(rows, cursor);
        }
        r := if cursor < |rows| then Got(rows[cursor]) else NoMore;
        cursor := cursor + 1;
      }
    }

    /** The branch of the cursor that pulls one row from an open stream. */
    method FetchStreamed() returns (r: Fetched)
      requires Inv() && gen.Some?
      modifies this
      ensures Inv() && Look() == AfterFetch(old(Look())) && r == FetchAnswer(old(Look()))
    {
      PullLeads(gen.value, pendingAdvance, affected);
      var thrown := Pull();
      var g := gen.value;
      if thrown.Some? {
        return Threw(thrown.value);
      }
      if !g.state.At? {
        affected := CountAfter(g, affected);
        gen := None;
        return NoMore;
      }
      RowIsNext(g, affected);
      pendingAdvance := true;
      r := Got(g.producer.rows[g.state.pos]);
    }

    /** Drain the rest of the stream into memory; the row count it cost, or the exception. */
    method Materialize() returns (cost: nat, thrown: Option<nat>)
      requires Inv()
      modifies this
      ensures Inv() && Look() == AfterDrain(old(Look()))
      ensures thrown.Some? <==> DrainThrows(old(Look()))
      ensures thrown.Some? ==> thrown.value == old(Look()).ending.value.code
      ensures cost == DrainCost(old(Look()))
    {
      if gen.None? {
        return 0, None;
      }
      PullLeads(gen.value, pendingAdvance, affected);
      thrown := Pull();
      if thrown.Some? {
        return 0, thrown;
      }
      cost, thrown := KeepRest();
    }

    /** The drain loop and what follows it, from a generator that has been pulled. */
    method KeepRest() returns (cost: nat, thrown: Option<nat>)
      requires gen.Some? && !gen.value.state.Unstarted? && !pendingAdvance && rows == [] && cursor == 0
      requires gen.value.state.At? ==> GenOk(gen.value, true)
      modifies this
      ensures Inv()
      ensures old(gen.value.state.Ended?) ==>
                Look() == View([], None, CountAfter(old(gen.value), old(affected))) && thrown.None? && cost == 0
      ensures old(gen.value.state.At?) ==>
                var v := GenView(old(gen.value), false, old(affected));
                && Look() == AfterDrain(v) && cost == DrainCost(v)
                && (thrown.Some? <==> DrainThrows(v))
                && (thrown.Some? ==> thrown.value == v.ending.value.code)
    {
      if gen.value.state.At? {
        DrainLeads(gen.value, affected);
      }
      var g, rest, t := DrainGenerator(gen.value);
      gen := Some(g);
      if t.Some? {
        return 0, t;
      }
      affected := CountAfter(g, affected);
      rows, cursor, gen := rest, 0, None;
      assert rows[0..] == rows;
      return |rest|, None;
    }

    /** The terminal's count; on an open stream, drain first. */
    method RowCount() returns (r: Option<int>)
      requires Inv()
      modifies this
      ensures Inv() && Look() == AfterDrain(old(Look())) && r == CountAnswer(old(Look()))
    {
      if gen.Some? {
        var cost, thrown := Materialize();
        if thrown.Some? {
          return None;
        }
      }
      r := Some(affected);
    }

    /** The first cell of every remaining row, one per row whatever the cells hold. */
    method FetchFirstColumn() returns (r: Option<seq<Cell>>)
      requires Inv()
      modifies this
      ensures Inv() && Look() == Settled(old(Look()).(rows := []))
      ensures r == if DrainThrows(old(Look())) then None else Some(FirstCells(old(Look()).rows))
      ensures r.Some? ==>
                var rows := old(Look()).rows;
                |r.value| == |rows| && forall i :: 0 <= i < |rows| && rows[i] != [] ==> r.value[i] == rows[i][0]
    {
      ghost var before := Look();
      ghost var k := 0;
      var column: seq<Cell> := [];
      while true
        invariant Inv() && 0 <= k <= |before.rows|
        invariant Look() == before.(rows := before.rows[k..])
        invariant column == FirstCells(before.rows[..k])
        decreases |before.rows| - k
      {
        var row := FetchNumeric();
        match row
        case Threw(_) => return None;
        case NoMore =>
          assert before.rows[..k] == before.rows;
          return Some(column);
        case Got(cells) =>
          OneFewer(before.rows, k);
          OneMoreCell(before.rows, k);
          column := column + [FirstCell(cells)];
          k := k + 1;
      }
    }

    /** Abandon the stream and drop every row; the count already delivered survives. A `close()` that
        throws leaves the same state behind. */
    method Free(closeThrows: Option<nat>) returns (thrown: Option<nat>)
      requires Inv()
      modifies this
      ensures Inv() && Look() == Freed(old(Look())) && gen.None?
      ensures thrown == if old(gen).Some? then closeThrows else None
    {
      thrown := None;
      if gen.Some? && closeThrows.Some? {
        gen, rows, cursor := None, [], 0;
        return closeThrows;
      }
      gen, pendingAdvance, rows, cursor := None, false, [], 0;
    }
  }

  lemma OneMoreCell(rows: seq<Row>, k: nat)
    requires k < |rows|
    ensures FirstCells(rows[..k + 1]) == FirstCells(rows[..k]) + [FirstCell(rows[k])]
  {
  }

  function CountAnswer(v: View): Option<int> {
    if DrainThrows(v) then None else Some(Settled(v).affected)
  }

  function FirstCell(row: Row): Cell {
    if row == [] then CNull else row[0]
  }

  function FirstCells(rows: seq<Row>): (cells: seq<Cell>)
    ensures |cells| == |rows| && forall i :: 0 <= i < |rows| ==> cells[i] == FirstCell(rows[i])
  {
    seq(|rows|, i requires 0 <= i < |rows| => FirstCell(rows[i]))
  }
}
