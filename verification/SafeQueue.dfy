/** The blocking queue between the encoders and the sending thread (safe_queue.h, the pthread
    branch with a release callback), as steps between acquisitions of its mutex. */
module SafeQueue {
  import opened Bytes

  /** An item that has left the queue, handed to a consumer or to the release callback. */
  datatype Gone<T> = Popped(item: T) | Cleared(item: T)

  /** The queue and the history of what went through it. */
  datatype Core<T> = Core(q: seq<T>, work: int, accepted: seq<T>, gone: seq<Gone<T>>, refused: seq<T>)

  function PushedTo<T>(c: Core<T>, x: T): Core<T> {
    if c.work != 0 then c.(q := c.q + [x], accepted := c.accepted + [x])
    else c.(refused := c.refused + [x])
  }

  function ClearedAll<T>(q: seq<T>): (g: seq<Gone<T>>)
    ensures |g| == |q|
  {
    seq(|q|, i requires 0 <= i < |q| => Cleared(q[i]))
  }

  function ClearedFrom<T>(c: Core<T>): Core<T> {
    c.(q := [], gone := c.gone + ClearedAll(c.q))
  }

  /** pop finds its loop condition true. */
  predicate MustWait<T(==)>(c: Core<T>) { c.work != 0 && c.q == [] }

  function PoppedFrom<T(==)>(c: Core<T>): Core<T> {
    if c.q == [] then c else c.(q := c.q[1..], gone := c.gone + [Popped(c.q[0])])
  }

  class Queue<T(==)> {
    var q: seq<T>
    var work: int
    ghost var accepted: seq<T>
    ghost var gone: seq<Gone<T>>
    ghost var refused: seq<T>

    ghost function Contents(): Core<T>
      reads this
    {
      Core(q, work, accepted, gone, refused)
    }

    constructor ()
      ensures Contents() == Core([], 0, [], [], [])
    {
      q, work, accepted, gone, refused := [], 0, [], [], [];
    }

    method Push(value: T) returns (signal: bool)
      modifies this
      ensures Contents() == PushedTo(old(Contents()), value) && signal == (old(work) != 0)
    {
      signal := false;
      if work != 0 {
        q := q + [value];
        accepted := accepted + [value];
        signal := true;
      } else {
        Release(value, true);
      }
    }

    /** The release callback. */
    ghost method Release(value: T, wasRefused: bool)
      modifies this`gone, this`refused
      ensures if wasRefused then refused == old(refused) + [value] && gone == old(gone)
              else gone == old(gone) + [Cleared(value)] && refused == old(refused)
    {
      if wasRefused {
        refused := refused + [value];
      } else {
        gone := gone + [Cleared(value)];
      }
    }

    /** What pop does each time it holds the mutex: it waits again, or returns. */
    method TryPop() returns (wait: bool, ret: int, value: Option<T>)
      modifies this
      ensures wait == MustWait(old(Contents()))
      ensures Contents() == if wait then old(Contents()) else PoppedFrom(old(Contents()))
      ensures !wait ==> value == (if old(q) == [] then None else Some(old(q)[0])) && ret == if value.Some? then 1 else 0
    {
      wait, ret, value := work != 0 && q == [], 0, None;
      if wait {
        return;
      }
      if q != [] {
        value, ret := Some(q[0]), 1;
        gone := gone + [Popped(q[0])];
        q := q[1..];
      }
    }

    method SetWork(work: int)
      modifies this`work
      ensures Contents() == old(Contents()).(work := work)
    {
      this.work := work;
    }

    method Clear()
      modifies this
      ensures Contents() == ClearedFrom(old(Contents()))
    {
      var size := |q|;
      for i := 0 to size
        invariant q == old(q)[i..] && gone == old(gone) + ClearedAll(old(q))[..i]
        invariant work == old(work) && accepted == old(accepted) && refused == old(refused)
      {
        var value := q[0];
        Release(value, false);
        q := q[1..];
      }
    }
  }

  // ---- Schedules ----

  /** A consumer outside pop, blocked in pthread_cond_wait, or signalled and about to hold the
      mutex again. */
  datatype Phase = Outside | Waiting | Woken

  datatype State<T> = State(core: Core<T>, consumers: seq<Phase>)

  /** A step holds the mutex from its beginning to its end. A signal names the consumer it
      wakes if one waits. */
  datatype Step<T> =
    | Push(value: T, wakes: nat)
    | SetWork(work: int, wakes: nat)
    | Clear
    | Pop(consumer: nat)
    | Spurious(consumer: nat)

  predicate AnyWaiting(cs: seq<Phase>) {
    exists i :: 0 <= i < |cs| && cs[i] == Waiting
  }

  predicate CanSignal(cs: seq<Phase>, c: nat) {
    AnyWaiting(cs) ==> c < |cs| && cs[c] == Waiting
  }

  function Signalled(cs: seq<Phase>, c: nat): (r: seq<Phase>)
    requires CanSignal(cs, c)
    ensures |r| == |cs|
  {
    if AnyWaiting(cs) then cs[c := Woken] else cs
  }

  predicate Enabled<T>(s: State<T>, step: Step<T>) {
    match step
    case Push(_, c) => CanSignal(s.consumers, c)
    case SetWork(_, c) => CanSignal(s.consumers, c)
    case Clear => true
    case Pop(c) => c < |s.consumers| && s.consumers[c] != Waiting
    case Spurious(c) => c < |s.consumers| && s.consumers[c] == Waiting
  }

  function Next<T(==)>(s: State<T>, step: Step<T>): (n: State<T>)
    requires Enabled(s, step)
    ensures |n.consumers| == |s.consumers|
  {
    match step
    case Push(x, c) => State(PushedTo(s.core, x), if s.core.work != 0 then Signalled(s.consumers, c) else s.consumers)
    case SetWork(w, c) => State(s.core.(work := w), Signalled(s.consumers, c))
    case Clear => s.(core := ClearedFrom(s.core))
    case Pop(c) =>
      if MustWait(s.core) then s.(consumers := s.consumers[c := Waiting])
      else State(PoppedFrom(s.core), s.consumers[c := Outside])
    case Spurious(c) => s.(consumers := s.consumers[c := Woken])
  }

  predicate Start<T(==)>(s: State<T>) {
    s.core == Core([], 0, [], [], []) && forall i :: 0 <= i < |s.consumers| ==> s.consumers[i] == Outside
  }

  /** A schedule: every step enabled when its turn comes. */
  predicate Schedule<T(==)>(s: State<T>, steps: seq<Step<T>>)
    decreases |steps|
  {
    steps == [] || (Enabled(s, steps[0]) && Schedule(Next(s, steps[0]), steps[1..]))
  }

  function After<T(==)>(s: State<T>, steps: seq<Step<T>>): (r: State<T>)
    requires Schedule(s, steps)
    ensures |r.consumers| == |s.consumers|
    decreases |steps|
  {
    if steps == [] then s else After(Next(s, steps[0]), steps[1..])
  }

  function Items<T>(g: seq<Gone<T>>): (r: seq<T>)
    ensures |r| == |g|
  {
    seq(|g|, i requires 0 <= i < |g| => g[i].item)
  }

  /** First in, first out, nothing lost and nothing twice. */
  predicate Fifo<T(==)>(c: Core<T>) {
    c.accepted == Items(c.gone) + c.q
  }

  function CountWoken(cs: seq<Phase>): nat {
    if cs == [] then 0 else (if cs[0] == Woken then 1 else 0) + CountWoken(cs[1..])
  }

  /** While a consumer waits, every queued item has a signalled consumer coming for it. */
  predicate NoneStranded<T>(s: State<T>) {
    AnyWaiting(s.consumers) ==> |s.core.q| <= CountWoken(s.consumers)
  }

  /** A single consumer waits only for an empty queue that is still at work. */
  predicate SingleAwake<T(==)>(s: State<T>) {
    |s.consumers| == 1 && s.consumers[0] == Waiting ==> s.core.q == [] && s.core.work != 0
  }

  predicate Invariant<T(==)>(s: State<T>) {
    Fifo(s.core) && NoneStranded(s) && SingleAwake(s)
  }

  lemma {:induction false} CountUpdate(cs: seq<Phase>, c: nat, p: Phase)
    requires c < |cs|
    ensures CountWoken(cs[c := p]) == CountWoken(cs) - (if cs[c] == Woken then 1 else 0) + (if p == Woken then 1 else 0)
  {
    if c == 0 {
      assert cs[0 := p][1..] == cs[1..];
    } else {
      CountUpdate(cs[1..], c - 1, p);
      assert cs[c := p][1..] == cs[1..][c - 1 := p];
    }
  }

  lemma {:induction false} CountPositive(cs: seq<Phase>, c: nat)
    requires c < |cs| && cs[c] == Woken
    ensures CountWoken(cs) >= 1
  {
    if c > 0 {
      CountPositive(cs[1..], c - 1);
    }
  }

  lemma FifoKept<T>(s: State<T>, step: Step<T>)
    requires Enabled(s, step) && Fifo(s.core)
    ensures Fifo(Next(s, step).core)
  {
    var c := s.core;
    match step {
      case Push(x, _) => Assoc(Items(c.gone), c.q, [x]);
      case SetWork(_, _) =>
      case Spurious(_) =>
      case Clear =>
        assert Items(c.gone + ClearedAll(c.q)) == Items(c.gone) + c.q;
      case Pop(_) =>
        if c.q != [] {
          assert Items(c.gone + [Popped(c.q[0])]) == Items(c.gone) + [c.q[0]];
          Assoc(Items(c.gone), [c.q[0]], c.q[1..]);
          assert [c.q[0]] + c.q[1..] == c.q;
        }
    }
  }

  lemma StrandedKept<T>(s: State<T>, step: Step<T>)
    requires Enabled(s, step) && NoneStranded(s)
    ensures NoneStranded(Next(s, step))
  {
    var cs := s.consumers;
    match step {
      case Push(_, c) => if AnyWaiting(cs) { CountUpdate(cs, c, Woken); }
      case SetWork(_, c) => if AnyWaiting(cs) { CountUpdate(cs, c, Woken); }
      case Spurious(c) => CountUpdate(cs, c, Woken);
      case Clear =>
      case Pop(c) =>
        CountUpdate(cs, c, Outside);
        if !MustWait(s.core) && AnyWaiting(cs[c := Outside]) {
          var i :| 0 <= i < |cs| && cs[c := Outside][i] == Waiting;
          assert cs[i] == Waiting;
        }
    }
  }

  lemma SingleKept<T>(s: State<T>, step: Step<T>)
    requires Enabled(s, step) && SingleAwake(s)
    ensures SingleAwake(Next(s, step))
  {
  }

  /** For every number of consumers and every schedule, spurious wake-ups included. */
  lemma {:induction false} ScheduleKeeps<T>(s: State<T>, steps: seq<Step<T>>)
    requires Invariant(s) && Schedule(s, steps)
    ensures Invariant(After(s, steps))
    decreases |steps|
  {
    hide Fifo, NoneStranded, SingleAwake, Next, Enabled;
    if steps != [] {
      FifoKept(s, steps[0]);
      StrandedKept(s, steps[0]);
      SingleKept(s, steps[0]);
      ScheduleKeeps(Next(s, steps[0]), steps[1..]);
    }
  }

  lemma FromTheStart<T>(s: State<T>, steps: seq<Step<T>>)
    requires Start(s) && Schedule(s, steps)
    ensures Invariant(After(s, steps))
  {
    ScheduleKeeps(s, steps);
  }

  /** The items that a schedule pushes while the queue is at work, or while it is not. */
  function Offered<T>(steps: seq<Step<T>>, work: int, atWork: bool): seq<T> {
    if steps == [] then []
    else
      match steps[0]
      case Push(x, _) => (if (work != 0) == atWork then [x] else []) + Offered(steps[1..], work, atWork)
      case SetWork(w, _) => Offered(steps[1..], w, atWork)
      case _ => Offered(steps[1..], work, atWork)
  }

  /** Every item pushed at work is accepted and every other one released, each once and in order. */
  lemma {:induction false} AcceptedOrRefused<T>(s: State<T>, steps: seq<Step<T>>)
    requires Schedule(s, steps)
    ensures After(s, steps).core.accepted == s.core.accepted + Offered(steps, s.core.work, true)
    ensures After(s, steps).core.refused == s.core.refused + Offered(steps, s.core.work, false)
    decreases |steps|
  {
    hide Enabled, Signalled;
    if steps != [] {
      AcceptedOrRefused(Next(s, steps[0]), steps[1..]);
    }
  }

  /** The one signal of setWork(0) reaches everyone exactly when at most one consumer waits. */
  lemma StopReachesAll<T>(s: State<T>, c: nat)
    requires Enabled(s, SetWork(0, c))
    ensures !AnyWaiting(Next(s, SetWork(0, c)).consumers) <==>
            (forall i, j :: 0 <= i < j < |s.consumers| ==> s.consumers[i] != Waiting || s.consumers[j] != Waiting)
  {
    var cs := s.consumers;
    var now := Next(s, SetWork(0, c)).consumers;
    if AnyWaiting(cs) {
      assert forall i :: 0 <= i < |cs| && i != c ==> now[i] == cs[i];
    }
  }

  function EmptyQueue(work: int, consumers: seq<Phase>): State<int> {
    State(Core([], work, [], [], []), consumers)
  }

  /** With two consumers the queue can be told to stop and one of them waits on. */
  lemma TwoConsumers()
    ensures var s := EmptyQueue(0, [Outside, Outside]);
            var steps: seq<Step<int>> := [SetWork(1, 0), Pop(0), Pop(1), SetWork(0, 0)];
            Start(s) && Schedule(s, steps) && After(s, steps) == EmptyQueue(0, [Woken, Waiting])
  {
    var s0, s1, s2 := EmptyQueue(0, [Outside, Outside]), EmptyQueue(1, [Outside, Outside]),
      EmptyQueue(1, [Waiting, Outside]);
    var s3, s4 := EmptyQueue(1, [Waiting, Waiting]), EmptyQueue(0, [Woken, Waiting]);
    assert s3.consumers[0] == Waiting;
    OneMore(s3, SetWork(0, 0), [], s4, s4);
    OneMore(s2, Pop(1), [SetWork(0, 0)], s3, s4);
    OneMore(s1, Pop(0), [Pop(1), SetWork(0, 0)], s2, s4);
    OneMore(s0, SetWork(1, 0), [Pop(0), Pop(1), SetWork(0, 0)], s1, s4);
  }

  lemma OneMore(s: State<int>, step: Step<int>, steps: seq<Step<int>>, next: State<int>, end: State<int>)
    requires Enabled(s, step) && Next(s, step) == next && Schedule(next, steps) && After(next, steps) == end
    ensures Schedule(s, [step] + steps) && After(s, [step] + steps) == end
  {
    assert ([step] + steps)[1..] == steps;
  }
}
