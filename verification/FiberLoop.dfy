/** The cooperative scheduler: run tasks as Fibers and resume each when what it waits for is there.

    A Fiber is the list of waiters it awaits, one after the other, and how it ends. Readiness is an
    arbitrary function of the waiter, of how far every Fiber has come (a waiter may wait for another
    Fiber's stream to close) and of a clock that reads and running Fibers advance. Only for termination is
    it assumed that, however far the Fibers have come, some unfinished one is ready from some moment on.
 */
module FiberLoop {
  import opened Wrappers

  datatype End = Returns(value: int) | Throws(code: int) | SuspendsForeign

  datatype Fiber = Fiber(awaits: seq<nat>, end: End)

  datatype Failure = TaskThrew(code: int) | NotAFerroAwait

  datatype Entry = Entry(key: nat, waiter: nat)

  datatype Event =
    // The Fiber, which of its awaits it was suspended on, how far every Fiber had come, and when.
    | Resumed(key: nat, await: nat, pos: seq<nat>, at: nat)
    | Read(waiters: seq<Entry>, pos: seq<nat>, at: nat)

  /** How far every Fiber had come, and when. */
  datatype Moment = Moment(pos: seq<nat>, at: nat)

  function FailureOf(end: End): Option<Failure> {
    match end
    case Returns(_) => None
    case Throws(code) => Some(TaskThrew(code))
    case SuspendsForeign => Some(NotAFerroAwait)
  }

  /** What the tasks come to, in task order: the earliest failing task's error, or all the results. The
      schedule has no part in it. */
  function Verdict(tasks: seq<Fiber>): Result<seq<int>, Failure> {
    if tasks == [] then Ok([])
    else
      match FailureOf(tasks[0].end)
      case Some(failure) => Err(failure)
      case None =>
        match Verdict(tasks[1..])
        case Err(failure) => Err(failure)
        case Ok(values) => Ok([tasks[0].end.value] + values)
  }

  /** The awaits the Fibers still have to pass. */
  function Left(tasks: seq<Fiber>, pos: seq<nat>): nat
    requires |pos| == |tasks|
  {
    if tasks == [] then 0
    else (if pos[0] < |tasks[0].awaits| then |tasks[0].awaits| - pos[0] else 0) + Left(tasks[1..], pos[1..])
  }

  lemma {:induction false} LeftDrops(tasks: seq<Fiber>, pos: seq<nat>, k: nat, p: nat)
    requires |pos| == |tasks| && k < |tasks| && pos[k] <= p <= |tasks[k].awaits|
    ensures Left(tasks, pos[k := p]) == Left(tasks, pos) - (p - pos[k])
    decreases |tasks|
  {
    if k > 0 {
      LeftDrops(tasks[1..], pos[1..], k - 1, p);
      assert pos[k := p][1..] == pos[1..][k - 1 := p];
    } else {
      assert pos[k := p][1..] == pos[1..];
    }
  }

  /** Some Fiber still has an await to pass. */
  ghost predicate IsUnfinished(tasks: seq<Fiber>, pos: seq<nat>)
    requires |pos| == |tasks|
  {
    exists k :: 0 <= k < |tasks| && pos[k] < |tasks[k].awaits|
  }

  predicate Listed(waiting: seq<Entry>, key: nat) {
    exists i :: 0 <= i < |waiting| && waiting[i].key == key
  }

  /** `unset($waiting[$key])`. */
  function Without(waiting: seq<Entry>, key: nat): (rest: seq<Entry>)
    ensures forall e :: e in rest <==> e in waiting && e.key != key
    ensures |rest| <= |waiting|
  {
    if waiting == [] then []
    else if waiting[0].key == key then Without(waiting[1..], key)
    else [waiting[0]] + Without(waiting[1..], key)
  }

  /** No task waits twice. */
  predicate OneEntryEach(waiting: seq<Entry>) {
    forall i, j :: 0 <= i < j < |waiting| ==> waiting[i].key != waiting[j].key
  }

  lemma {:induction false} WithoutKeepsOneEach(waiting: seq<Entry>, key: nat)
    requires OneEntryEach(waiting)
    ensures OneEntryEach(Without(waiting, key))
    decreases |waiting|
  {
    if waiting != [] {
      WithoutKeepsOneEach(waiting[1..], key);
      var rest := Without(waiting[1..], key);
      forall i | 0 <= i < |rest| ensures rest[i].key != waiting[0].key {
        assert rest[i] in waiting[1..];
      }
    }
  }

  /** Each Fiber's resumptions go through its awaits in order. */
  predicate ResumesInOrder(trace: seq<Event>) {
    forall i, j :: 0 <= i < j < |trace| && trace[i].Resumed? && trace[j].Resumed? && trace[i].key == trace[j].key ==>
      trace[i].await < trace[j].await
  }

  lemma OneMoreResume(trace: seq<Event>, event: Event)
    requires ResumesInOrder(trace) && event.Resumed?
    requires forall i :: 0 <= i < |trace| && trace[i].Resumed? && trace[i].key == event.key ==>
               trace[i].await < event.await
    ensures ResumesInOrder(trace + [event])
  {
  }

  /** At this moment Fiber `k` stood at its await `a`, and that was ready. */
  predicate Stood(fiber: Fiber, k: nat, ready: (nat, seq<nat>, nat) -> bool, a: nat, m: Moment)
    requires a < |fiber.awaits|
  {
    k < |m.pos| && m.pos[k] == a && ready(fiber.awaits[a], m.pos, m.at)
  }

  /** The first `p` awaits of Fiber `k` were passed at these moments, each of them ready then. */
  predicate Covered(fiber: Fiber, k: nat, ready: (nat, seq<nat>, nat) -> bool, p: nat, ms: seq<Moment>) {
    |ms| == p <= |fiber.awaits| && forall a :: 0 <= a < p ==> Stood(fiber, k, ready, a, ms[a])
  }

  /** Every await that a Fiber is past was ready when the Fiber passed it. */
  predicate PassedWhenReady(
    tasks: seq<Fiber>, ready: (nat, seq<nat>, nat) -> bool, pos: seq<nat>, passed: seq<seq<Moment>>)
  {
    && |pos| == |passed| == |tasks|
    && forall k :: 0 <= k < |tasks| ==> Covered(tasks[k], k, ready, pos[k], passed[k])
  }

  class Loop {
    const tasks: seq<Fiber>
    const ready: (nat, seq<nat>, nat) -> bool
    const work: (nat, nat) -> nat
    const idle: nat -> nat
    var started: nat
    var pos: seq<nat>
    var waiting: seq<Entry>
    var results: map<nat, int>
    var errors: map<nat, Failure>
    var clock: nat
    ghost var trace: seq<Event>
    ghost var passed: seq<seq<Moment>>

    /** A started task is in exactly one of waiting, results and errors. */
    ghost predicate Placed(k: nat)
      reads this
    {
      && (Listed(waiting, k) ==> k !in results && k !in errors)
      && (k in results ==> k !in errors)
      && (Listed(waiting, k) || k in results || k in errors)
    }

    ghost predicate Unplaced(k: nat)
      reads this
    {
      !Listed(waiting, k) && k !in results && k !in errors
    }

    /** A Fiber was resumed only with the waiter of the very await it was suspended on ready, and each
        await once, in order; the sockets were read only when no waiting Fiber's waiter was ready. */
    ghost predicate TraceIsFair()
      reads this
    {
      && (forall i :: 0 <= i < |trace| ==> EventIsFair(trace[i]))
      && (forall i :: 0 <= i < |trace| && trace[i].Resumed? ==>
            trace[i].key < |pos| && trace[i].await < pos[trace[i].key])
      && ResumesInOrder(trace)
    }

    predicate EventIsFair(event: Event)
      reads this
    {
      match event
      case Resumed(key, await, pos, at) =>
        && key < |tasks| && |pos| == |tasks| && pos[key] == await
        && await < |tasks[key].awaits| && ready(tasks[key].awaits[await], pos, at)
      case Read(waiters, pos, at) => waiters != [] && forall e :: e in waiters ==> !ready(e.waiter, pos, at)
    }

    /** The Fiber has passed every await. */
    predicate IsThrough(k: nat)
      reads this
    {
      k < |tasks| && k < |pos| && pos[k] == |tasks[k].awaits|
    }

    /** Everything but the placement of the tasks. */
    ghost predicate Sound()
      reads this
    {
      && started <= |tasks| == |pos|
      && (forall k :: 0 <= k < |tasks| ==> pos[k] <= |tasks[k].awaits|)
      && PassedWhenReady(tasks, ready, pos, passed)
      && OneEntryEach(waiting)
      && (forall e :: e in waiting ==>
            e.key < started && pos[e.key] < |tasks[e.key].awaits| && e.waiter == tasks[e.key].awaits[pos[e.key]])
      && (forall k :: k in results ==> k < started && IsThrough(k) && tasks[k].end == Returns(results[k]))
      && (forall k :: k in errors ==> k < started && IsThrough(k) && FailureOf(tasks[k].end) == Some(errors[k]))
      && TraceIsFair()
    }

    ghost predicate Valid()
      reads this
    {
      Sound() && forall k :: 0 <= k < started ==> Placed(k)
    }

    constructor (tasks: seq<Fiber>, ready: (nat, seq<nat>, nat) -> bool, work: (nat, nat) -> nat, idle: nat -> nat)
      ensures Valid() && this.tasks == tasks && this.ready == ready && this.work == work && this.idle == idle
      ensures started == 0 && waiting == []
    {
      this.tasks, this.ready, this.work, this.idle := tasks, ready, work, idle;
      started, waiting, results, errors, clock := 0, [], map[], map[], 0;
      pos := seq(|tasks|, _ => 0);
      trace := [];
      passed := seq(|tasks|, _ => []);
    }

    /** Run Fiber `k` past every await that is ready when it gets there, and no other. */
    method RunFiber(k: nat) returns (p: nat, t: nat, ghost how: seq<Moment>)
      requires Sound() && k < started
      ensures pos[k] <= p <= |tasks[k].awaits| && t >= clock
      ensures Covered(tasks[k], k, ready, p, how)
      ensures p < |tasks[k].awaits| ==> !ready(tasks[k].awaits[p], pos[k := p], t)
      ensures pos[k] < |tasks[k].awaits| && ready(tasks[k].awaits[pos[k]], pos, clock) ==> pos[k] < p
    {
      var awaits := tasks[k].awaits;
      p, t, how := pos[k], clock, passed[k];
      assert pos[k := p] == pos;
      while p < |awaits| && ready(awaits[p], pos[k := p], t)
        invariant pos[k] <= p <= |awaits| && t >= clock
        invariant p == pos[k] ==> t == clock
        invariant Covered(tasks[k], k, ready, p, how)
      {
        how := how + [Moment(pos[k := p], t)];
        p := p + 1;
        t := t + work(k, p);
      }
    }

    ghost predicate OnlyUnplaced(k: nat)
      reads this
    {
      Sound() && k < started && Unplaced(k) && forall j :: 0 <= j < started && j != k ==> Placed(j)
    }

    method Suspend(k: nat)
      requires OnlyUnplaced(k) && pos[k] < |tasks[k].awaits|
      modifies this`waiting
      ensures Valid() && waiting == old(waiting) + [Entry(k, tasks[k].awaits[pos[k]])]
    {
      var e := Entry(k, tasks[k].awaits[pos[k]]);
      AppendListed(waiting, e);
      assert forall i :: 0 <= i < |waiting| ==> Listed(waiting, waiting[i].key);
      waiting := waiting + [e];
      forall j | 0 <= j < started ensures Placed(j) {
        assert j != k ==> old(Placed(j));
        assert j == k ==> old(Unplaced(k));
      }
    }

    method Finish(k: nat)
      requires OnlyUnplaced(k) && IsThrough(k)
      modifies this`results, this`errors
      ensures Valid()
    {
      match tasks[k].end {
        case Returns(value) => results := results[k := value];
        case Throws(code) => errors := errors[k := TaskThrew(code)];
        case SuspendsForeign => errors := errors[k := NotAFerroAwait];
      }
      forall j | 0 <= j < started ensures Placed(j) {
        assert j != k ==> old(Placed(j));
        assert j == k ==> old(Unplaced(k));
      }
    }

    /** Run Fiber `k` to its next suspension or its end, and file it where it belongs. */
    method Advance(k: nat)
      requires OnlyUnplaced(k)
      modifies this`pos, this`passed, this`waiting, this`results, this`errors, this`clock
      ensures Valid()
      ensures |pos| == |old(pos)| && forall j :: 0 <= j < |pos| && j != k ==> pos[j] == old(pos[j])
      ensures old(pos[k]) <= pos[k] && clock >= old(clock)
      ensures old(pos[k]) < |tasks[k].awaits| && ready(tasks[k].awaits[old(pos[k])], old(pos), old(clock)) ==>
                old(pos[k]) < pos[k]
      ensures forall e :: e in old(waiting) ==> e in waiting
    {
      var p, t, how := RunFiber(k);
      MoveTo(k, p, t, how);
      if p < |tasks[k].awaits| {
        Suspend(k);
      } else {
        Finish(k);
      }
    }

    /** The running Fiber has come to its await `p` at time `t`. */
    method MoveTo(k: nat, p: nat, t: nat, ghost how: seq<Moment>)
      requires OnlyUnplaced(k) && pos[k] <= p && t >= clock && Covered(tasks[k], k, ready, p, how)
      modifies this`pos, this`passed, this`clock
      ensures OnlyUnplaced(k) && pos == old(pos)[k := p] && clock == t
    {
      assert forall i :: 0 <= i < |waiting| ==> Listed(waiting, waiting[i].key);
      pos, clock := pos[k := p], t;
      passed := passed[k := how];
      forall j | 0 <= j < started && j != k ensures Placed(j) {
        assert old(Placed(j));
      }
      assert old(Unplaced(k));
    }

    /** One pass over the Fibers that were waiting when it began. */
    method Pass() returns (resumed: bool)
      requires Valid()
      modifies this`pos, this`passed, this`waiting, this`results, this`errors, this`clock, this`trace
      ensures Valid() && clock >= old(clock)
      ensures resumed ==> Left(tasks, pos) < Left(tasks, old(pos))
      ensures !resumed ==> pos == old(pos) && waiting == old(waiting) && clock == old(clock)
      ensures !resumed ==> forall e :: e in waiting ==> !ready(e.waiter, pos, clock)
    {
      var snapshot := waiting;
      resumed := false;
      var i := 0;
      while i < |snapshot|
        invariant 0 <= i <= |snapshot| && Valid() && clock >= old(clock)
        invariant OneEntryEach(snapshot)
        invariant forall j :: i <= j < |snapshot| ==> snapshot[j] in waiting
        invariant resumed ==> Left(tasks, pos) < Left(tasks, old(pos))
        invariant !resumed ==> pos == old(pos) && waiting == snapshot && clock == old(clock)
        invariant !resumed ==> forall j :: 0 <= j < i ==> !ready(snapshot[j].waiter, pos, clock)
      {
        var e := snapshot[i];
        if ready(e.waiter, pos, clock) {
          ResumeEntry(e);
          resumed := true;
        }
        i := i + 1;
      }
    }

    /** `unset($waiting[$key])`. */
    method Unlist(k: nat)
      requires Valid() && Listed(waiting, k)
      modifies this`waiting
      ensures OnlyUnplaced(k) && waiting == Without(old(waiting), k)
    {
      assert forall i :: 0 <= i < |waiting| ==> waiting[i] in waiting;
      assert k < started && Placed(k);
      WithoutKeepsOneEach(waiting, k);
      WithoutListed(waiting, k);
      waiting := Without(waiting, k);
      assert old(Placed(k));
      forall j | 0 <= j < started && j != k ensures Placed(j) {
        assert old(Placed(j));
      }
    }

    /** The resumption of a Fiber enters the trace. */
    ghost method LogResume(event: Event)
      requires Valid() && event.Resumed? && EventIsFair(event) && event.key < |pos| && event.await < pos[event.key]
      requires forall i :: 0 <= i < |trace| && trace[i].Resumed? && trace[i].key == event.key ==>
                 trace[i].await < event.await
      modifies this`trace
      ensures Valid() && trace == old(trace) + [event]
    {
      OneMoreResume(trace, event);
      trace := trace + [event];
      forall j | 0 <= j < started ensures Placed(j) {
        assert old(Placed(j));
      }
    }

    /** Take a ready Fiber off the waiting list and resume it. */
    method ResumeEntry(e: Entry)
      requires Valid() && e in waiting && ready(e.waiter, pos, clock)
      modifies this`pos, this`passed, this`waiting, this`results, this`errors, this`clock, this`trace
      ensures Valid() && clock >= old(clock)
      ensures Left(tasks, pos) < Left(tasks, old(pos))
      ensures forall e' :: e' in old(waiting) && e'.key != e.key ==> e' in waiting
    {
      var k := e.key;
      ghost var event := Resumed(k, pos[k], pos, clock);
      assert EventIsFair(event) && Listed(waiting, k);
      Unlist(k);
      Advance(k);
      assert pos == old(pos)[k := pos[k]];
      LeftDrops(tasks, old(pos), k, pos[k]);
      LogResume(event);
    }

    /** Read the sessions of the waiting Fibers: time passes. */
    method ReadAny()
      requires Valid() && waiting != [] && forall e :: e in waiting ==> !ready(e.waiter, pos, clock)
      modifies this`clock, this`trace
      ensures Valid() && clock > old(clock)
      ensures trace == old(trace) + [Read(waiting, pos, old(clock))]
    {
      trace := trace + [Read(waiting, pos, clock)];
      clock := clock + 1 + idle(clock);
      forall k | 0 <= k < started ensures Placed(k) {
        assert old(Placed(k));
      }
    }

    method StartAll()
      requires Valid() && started == 0 && waiting == []
      modifies this
      ensures Valid() && started == |tasks|
    {
      while started < |tasks|
        invariant Valid() && started <= |tasks|
        decreases |tasks| - started
      {
        var k := started;
        FreshIsUnplaced(k);
        label Before:
        started := started + 1;
        assert old@Before(Unplaced(k));
        forall j | 0 <= j < started && j != k ensures Placed(j) {
          assert old@Before(Placed(j));
        }
        Advance(k);
      }
    }

    lemma FreshIsUnplaced(k: nat)
      requires Sound() && k == started
      ensures Unplaced(k)
    {
      assert forall i :: 0 <= i < |waiting| ==> waiting[i] in waiting;
    }

    /** Some Fiber that is not through awaits a waiter that is ready. */
    ghost predicate SomeReady(p: seq<nat>, t: nat)
      requires |p| == |tasks|
    {
      exists k :: 0 <= k < |tasks| && p[k] < |tasks[k].awaits| && ready(tasks[k].awaits[p[k]], p, t)
    }

    /** However far the Fibers have come, unless all are through one of them is ready from some moment on. */
    ghost predicate AlwaysProgress(due: seq<nat> -> nat)
    {
      forall p: seq<nat>, t: nat :: |p| == |tasks| && IsUnfinished(tasks, p) && t >= due(p) ==> SomeReady(p, t)
    }

    /** When someone waits, nobody who waits is ready and all tasks are started, nobody is ready at all. */
    lemma NobodyReady()
      requires Valid() && started == |tasks| && waiting != []
      requires forall e :: e in waiting ==> !ready(e.waiter, pos, clock)
      ensures IsUnfinished(tasks, pos) && !SomeReady(pos, clock)
    {
      assert waiting[0] in waiting;
      assert pos[waiting[0].key] < |tasks[waiting[0].key].awaits|;
      forall k | 0 <= k < |tasks| && pos[k] < |tasks[k].awaits|
        ensures !ready(tasks[k].awaits[pos[k]], pos, clock)
      {
        assert Placed(k) && !IsThrough(k);
        var i :| 0 <= i < |waiting| && waiting[i].key == k;
        assert waiting[i] in waiting;
      }
    }

    /** `drive`: runs every task to its end and answers in task order. */
    method Drive(ghost due: seq<nat> -> nat) returns (r: Result<seq<int>, Failure>)
      requires Valid() && started == 0 && waiting == []
      requires AlwaysProgress(due)
      modifies this
      ensures Valid() && waiting == [] && started == |tasks|
      ensures forall k :: 0 <= k < |tasks| ==> IsThrough(k)
      ensures r == Verdict(tasks)
    {
      StartAll();
      while waiting != []
        invariant Valid() && started == |tasks| && AlwaysProgress(due)
        decreases Left(tasks, pos), if clock < due(pos) then due(pos) - clock else 0
      {
        var resumed := Pass();
        if !resumed && waiting != [] {
          NobodyReady();
          assert clock < due(pos);
          ReadAny();
        }
      }
      forall k | 0 <= k < |tasks| ensures IsThrough(k) {
        assert Placed(k);
      }
      r := Collect();
    }

    /** The earliest failing task's error, or every result in task order. */
    method Collect() returns (r: Result<seq<int>, Failure>)
      requires Valid() && waiting == [] && started == |tasks|
      ensures r == Verdict(tasks)
    {
      forall k | 0 <= k < |tasks| ensures k in results <==> k !in errors {
        assert Placed(k);
      }
      for k := 0 to |tasks|
        invariant forall j :: 0 <= j < k ==> j !in errors
      {
        if k in errors {
          FirstFailure(tasks, k);
          return Err(errors[k]);
        }
      }
      var ordered: seq<int> := [];
      for k := 0 to |tasks|
        invariant |ordered| == k && forall j :: 0 <= j < k ==> ordered[j] == results[j]
      {
        ordered := ordered + [results[k]];
      }
      AllReturn(tasks, ordered);
      r := Ok(ordered);
    }
  }

  lemma AppendListed(waiting: seq<Entry>, e: Entry)
    ensures forall k :: Listed(waiting + [e], k) <==> Listed(waiting, k) || k == e.key
  {
    var all := waiting + [e];
    forall k ensures Listed(all, k) <==> Listed(waiting, k) || k == e.key {
      assert all[|waiting|] == e;
      assert forall i :: 0 <= i < |waiting| ==> all[i] == waiting[i];
    }
  }

  lemma WithoutListed(waiting: seq<Entry>, key: nat)
    ensures forall k :: Listed(Without(waiting, key), k) <==> Listed(waiting, k) && k != key
  {
    var rest := Without(waiting, key);
    forall k ensures Listed(rest, k) <==> Listed(waiting, k) && k != key {
      if i :| 0 <= i < |rest| && rest[i].key == k {
        assert rest[i] in waiting;
      }
      if Listed(waiting, k) && k != key {
        var i :| 0 <= i < |waiting| && waiting[i].key == k;
        assert waiting[i] in rest;
      }
    }
  }

  /** The error of the first task that does not return is the verdict: what it threw, or that it suspended
      with something foreign. */
  lemma {:induction false} FirstFailure(tasks: seq<Fiber>, k: nat)
    requires k < |tasks| && !tasks[k].end.Returns? && forall j :: 0 <= j < k ==> tasks[j].end.Returns?
    ensures Verdict(tasks)
         == Err(if tasks[k].end.Throws? then TaskThrew(tasks[k].end.code) else NotAFerroAwait)
    decreases |tasks|
  {
    if k > 0 {
      assert tasks[0].end.Returns?;
      forall j | 0 <= j < k - 1 ensures tasks[1..][j].end.Returns? {
        assert tasks[1..][j] == tasks[j + 1];
      }
      FirstFailure(tasks[1..], k - 1);
    }
  }

  lemma {:induction false} AllReturn(tasks: seq<Fiber>, values: seq<int>)
    requires |values| == |tasks| && forall j :: 0 <= j < |tasks| ==> tasks[j].end == Returns(values[j])
    ensures Verdict(tasks) == Ok(values)
    decreases |tasks|
  {
    if tasks != [] {
      AllReturn(tasks[1..], values[1..]);
      assert values == [values[0]] + values[1..];
    }
  }
}
