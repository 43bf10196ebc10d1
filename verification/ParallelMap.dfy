/** The bounded fan-out of a search across contexts (`bounded_parallel_map` in
    `src/api.rs`): jobs start in index order under a semaphore, finish in any order,
    and are joined in any order. Which of the enabled steps comes next is left open,
    so what is proved holds under every schedule. */
module ParallelMap {
  import opened Common

  /** How a job ends: with a value, or with a panic caught at its boundary. */
  datatype Outcome<R> = Value(value: R) | Panic(payload: string)

  datatype Answer<R> = AllValues(values: seq<R>) | PanickedJob(index: nat, payload: string)

  datatype Event = Started(index: nat) | Finished(index: nat)

  /** Jobs started and not finished. */
  function InFlight(trace: seq<Event>): int {
    if trace == [] then 0
    else InFlight(trace[..|trace| - 1]) + if trace[|trace| - 1].Started? then 1 else -1
  }

  /** Never more than `permits` jobs in flight, from the first event on. */
  ghost predicate Bounded(trace: seq<Event>, permits: nat) {
    forall n | 0 <= n <= |trace| :: 0 <= InFlight(trace[..n]) <= permits
  }

  /** The trace starts the jobs below `next` in order, each once, and finishes those
      of `done` once, after their start. */
  ghost predicate Ran(trace: seq<Event>, next: nat, done: set<nat>) {
    if trace == [] then next == 0 && done == {}
    else
      var init := trace[..|trace| - 1];
      match trace[|trace| - 1]
      case Started(i) => next == i + 1 && Ran(init, i, done)
      case Finished(i) => i < next && i in done && Ran(init, next, done - {i})
  }

  /** The values in index order, or the first index whose job panics. */
  ghost predicate Answers<R>(result: Answer<R>, count: nat, job: nat -> Outcome<R>) {
    match result
    case AllValues(values) => |values| == count && forall i | 0 <= i < count :: job(i) == Value(values[i])
    case PanickedJob(index, payload) => index < count && job(index) == Panic(payload) && forall i: nat | i < index :: job(i).Value?
  }

  /** There is one answer: it does not depend on the schedule. */
  lemma {:induction false} OneAnswer<R>(a: Answer<R>, b: Answer<R>, count: nat, job: nat -> Outcome<R>)
    requires Answers(a, count, job) && Answers(b, count, job)
    ensures a == b
  {
    if a.AllValues? && b.AllValues? {
      forall i | 0 <= i < count ensures a.values[i] == b.values[i] {
        assert job(i) == Value(a.values[i]) && job(i) == Value(b.values[i]);
      }
    }
  }

  ghost function Below(count: nat): (s: set<nat>)
    ensures forall i: nat :: i in s <==> i < count
  {
    if count == 0 then {} else Below(count - 1) + {count - 1}
  }

  lemma {:induction false} BoundedMore(trace: seq<Event>, e: Event, permits: nat)
    requires Bounded(trace, permits) && 0 <= InFlight(trace + [e]) <= permits
    ensures Bounded(trace + [e], permits)
  {
    var more := trace + [e];
    forall n | 0 <= n <= |more| ensures 0 <= InFlight(more[..n]) <= permits {
      if n == |more| {
        assert more[..n] == more;
      } else {
        assert more[..n] == trace[..n];
      }
    }
  }

  /** What the running system is: the next index to start, the jobs in flight, the
      jobs that have ended but are not yet joined, and the trace so far. */
  datatype Pool = Pool(next: nat, running: set<nat>, ended: set<nat>, trace: seq<Event>)

  ghost predicate Sound(p: Pool, joined: set<nat>, count: nat, permits: nat) {
    && p.next <= count && p.running !! p.ended && p.running !! joined && p.ended !! joined
    && (forall i: nat :: i < p.next <==> i in p.running || i in p.ended || i in joined)
    && Ran(p.trace, p.next, p.ended + joined) && Bounded(p.trace, permits)
    && InFlight(p.trace) == |p.running| <= permits
  }

  lemma {:induction false} Appended(trace: seq<Event>, e: Event)
    ensures (trace + [e])[..|trace|] == trace
    ensures InFlight(trace + [e]) == InFlight(trace) + if e.Started? then 1 else -1
  {
    assert (trace + [e])[..|trace + [e]| - 1] == trace;
  }

  /** Takes a permit and spawns the next job. */
  method Spawn(p: Pool, ghost joined: set<nat>, ghost count: nat, ghost permits: nat) returns (q: Pool)
    requires Sound(p, joined, count, permits) && p.next < count && |p.running| < permits
    ensures Sound(q, joined, count, permits) && q.next == p.next + 1 && |q.running| == |p.running| + 1
  {
    hide InFlight, Bounded;
    assert p.next !in p.running && p.next !in p.ended && p.next !in joined;
    q := Pool(p.next + 1, p.running + {p.next}, p.ended, p.trace + [Started(p.next)]);
    Appended(p.trace, Started(p.next));
    BoundedMore(p.trace, Started(p.next), permits);
  }

  /** Some job in flight ends, giving its permit back. */
  method End(p: Pool, ghost joined: set<nat>, ghost count: nat, ghost permits: nat) returns (q: Pool)
    requires Sound(p, joined, count, permits) && p.running != {}
    ensures Sound(q, joined, count, permits) && q.next == p.next
    ensures |q.running| == |p.running| - 1 && |q.ended| == |p.ended| + 1
  {
    hide InFlight, Bounded;
    var i :| i in p.running;
    q := Pool(p.next, p.running - {i}, p.ended + {i}, p.trace + [Finished(i)]);
    Appended(p.trace, Finished(i));
    assert p.ended + {i} + joined - {i} == p.ended + joined;
    BoundedMore(p.trace, Finished(i), permits);
  }

  /** Starts every job, waiting for a permit when none is free; jobs may end at any
      moment. */
  method SpawnAll(count: nat, permits: nat) returns (p: Pool)
    requires permits > 0
    ensures Sound(p, {}, count, permits) && p.next == count
  {
    p := Pool(0, {}, {}, []);
    while p.next < count
      invariant Sound(p, {}, count, permits)
      decreases count - p.next, |p.running|
    {
      if
      case |p.running| < permits => p := Spawn(p, {}, count, permits);
      case p.running != {} => p := End(p, {}, count, permits);
    }
  }

  /** Joins ended jobs in any order, jobs in flight ending meanwhile, until none is
      left, and slots each outcome under its index. */
  method JoinAll<R>(given: Pool, slots: array<Option<Outcome<R>>>, ghost permits: nat, job: nat -> Outcome<R>)
    returns (ghost trace: seq<Event>)
    requires Sound(given, {}, slots.Length, permits) && given.next == slots.Length
    modifies slots
    ensures forall i | 0 <= i < slots.Length :: slots[i] == Some(job(i))
    ensures Bounded(trace, permits) && Ran(trace, slots.Length, Below(slots.Length))
  {
    var p := given;
    ghost var joined: set<nat> := {};
    hide Sound, Ran, Bounded, InFlight;
    while p.running != {} || p.ended != {}
      invariant Sound(p, joined, slots.Length, permits) && p.next == slots.Length
      invariant forall i | i in joined :: i < slots.Length && slots[i] == Some(job(i))
      decreases 2 * |p.running| + |p.ended|
    {
      if
      case p.running != {} =>
        p := End(p, joined, slots.Length, permits);
      case p.ended != {} =>
        var i :| i in p.ended;
        Joined(p, joined, slots.Length, permits, i);
        p, joined := p.(ended := p.ended - {i}), joined + {i};
        slots[i] := Some(job(i));
    }
    trace := p.trace;
    AllJoined(p, joined, slots.Length, permits);
  }

  lemma {:induction false} AllJoined(p: Pool, joined: set<nat>, count: nat, permits: nat)
    requires Sound(p, joined, count, permits) && p.next == count && p.running == {} && p.ended == {}
    ensures forall i | 0 <= i < count :: i in joined
    ensures Bounded(p.trace, permits) && Ran(p.trace, count, Below(count))
  {
    hide Ran, Bounded, InFlight;
    assert p.ended + joined == Below(count);
  }

  lemma {:induction false} Joined(p: Pool, joined: set<nat>, count: nat, permits: nat, i: nat)
    requires Sound(p, joined, count, permits) && i in p.ended
    ensures Sound(p.(ended := p.ended - {i}), joined + {i}, count, permits) && i < count
  {
    hide Ran, Bounded, InFlight;
    assert p.ended - {i} + (joined + {i}) == p.ended + joined;
  }

  /** Runs every job once, at most `permits` of them at a time (between one and all),
      and answers with their values in index order or the smallest panicking index. */
  method BoundedParallelMap<R>(count: nat, permits: nat, job: nat -> Outcome<R>) returns (result: Answer<R>, ghost trace: seq<Event>)
    ensures Answers(result, count, job)
    ensures Ran(trace, count, Below(count)) && Bounded(trace, Max(1, Min(permits, count)))
  {
    hide Ran, Bounded;
    if count == 0 {
      NothingRan();
      return AllValues([]), [];
    }
    var allowed := Max(1, Min(permits, count));
    var pool := SpawnAll(count, allowed);
    var slots := new Option<Outcome<R>>[count](_ => None);
    trace := JoinAll(pool, slots, allowed, job);
    var results: seq<R> := [];
    for index := 0 to count
      invariant |results| == index && forall i | 0 <= i < index :: job(i) == Value(results[i])
    {
      assert slots[index] == Some(job(index));
      match slots[index].value {
        case Value(value) => results := results + [value];
        case Panic(payload) => return PanickedJob(index, payload), trace;
      }
    }
    result := AllValues(results);
  }

  lemma {:induction false} NothingRan()
    ensures Ran([], 0, Below(0)) && Bounded([], 1)
  {
    assert forall n | 0 <= n <= 0 :: InFlight([][..n]) == 0;
  }

  // ------------------------------------------------------- what a trace of this kind is

  /** In a complete trace every job starts once and finishes once. */
  lemma {:induction false} RanOnce(trace: seq<Event>, next: nat, done: set<nat>)
    requires Ran(trace, next, done)
    ensures forall i: nat :: multiset(trace)[Started(i)] == if i < next then 1 else 0
    ensures forall i: nat :: multiset(trace)[Finished(i)] == if i in done then 1 else 0
  {
    if trace != [] {
      var n := |trace| - 1;
      var last := trace[n];
      assert trace == trace[..n] + [last];
      match last {
        case Started(i) => RanOnce(trace[..n], i, done);
        case Finished(i) => RanOnce(trace[..n], next, done - {i});
      }
    }
  }

  /** A job finishes only after it started. */
  lemma {:induction false} StartedFirst(trace: seq<Event>, next: nat, done: set<nat>, k: nat)
    requires Ran(trace, next, done) && k < |trace| && trace[k].Finished?
    ensures Started(trace[k].index) in trace[..k]
  {
    var n := |trace| - 1;
    if k < n {
      assert trace[..n][..k] == trace[..k];
      match trace[n] {
        case Started(i) => StartedFirst(trace[..n], i, done, k);
        case Finished(i) => StartedFirst(trace[..n], next, done - {i}, k);
      }
    } else {
      RanOnce(trace[..n], next, done - {trace[k].index});
      assert multiset(trace[..n])[Started(trace[k].index)] == 1;
    }
  }
}
