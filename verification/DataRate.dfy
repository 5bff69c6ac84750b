/** The bit rate of a layer over a recent window (media/src/stream.rs). Times are in nanoseconds. */
module DataRates {
  import opened Bytes

  const SECOND: nat := 1_000_000_000
  const MAX_DURATION: nat := 5 * SECOND
  const MIN_DURATION: nat := SECOND / 2

  datatype Sample = Sample(time: nat, size: nat)

  /** Samples, newest first. */
  type History = seq<Sample>

  ghost predicate Sorted(h: History) {
    forall i, j :: 0 <= i < j < |h| ==> h[i].time >= h[j].time
  }

  function Sum(h: History): nat {
    if h == [] then 0 else Sum(h[..|h| - 1]) + h[|h| - 1].size
  }

  /** What is left when old samples are dropped from the back. */
  function Kept(h: History, deadline: int): History {
    if h == [] || h[|h| - 1].time >= deadline then h else Kept(h[..|h| - 1], deadline)
  }

  /** The samples that are not older than the deadline. */
  function Within(h: History, deadline: int): History {
    if h == [] then []
    else (if h[0].time >= deadline then [h[0]] else []) + Within(h[1..], deadline)
  }

  /** Bits per second over the samples up to `now`, unless they span too short a time. */
  function RateOf(h: History, now: nat): Option<nat> {
    if h == [] || now < h[|h| - 1].time + MIN_DURATION then None
    else Some(Sum(h) * SECOND / (now - h[|h| - 1].time))
  }

  datatype State = State(history: History, rate: Option<nat>)

  function Updated(s: State, now: nat): State {
    var h := Kept(s.history, now - MAX_DURATION);
    State(h, RateOf(h, now))
  }

  class DataRateTracker {
    var history: History
    var accumulatedSize: nat
    var rate: Option<nat>

    ghost function Value(): State
      reads this
    {
      State(history, rate)
    }

    ghost predicate Valid()
      reads this
    {
      accumulatedSize == Sum(history)
    }

    constructor ()
      ensures Valid() && Value() == State([], None)
    {
      history, accumulatedSize, rate := [], 0, None;
    }

    method Push(size: nat, time: nat)
      requires Valid()
      modifies this
      ensures Valid() && Value() == old(Value()).(history := [Sample(time, size)] + old(history))
    {
      SumWithNew(Sample(time, size), history);
      history := [Sample(time, size)] + history;
      accumulatedSize := accumulatedSize + size;
    }

    method Update(now: nat)
      requires Valid()
      modifies this
      ensures Valid() && Value() == Updated(old(Value()), now)
    {
      hide Sum, Kept;
      var n := CountFresh(now - MAX_DURATION);
      DropRemoved(n);
      var duration := 0;
      if history != [] && now > history[|history| - 1].time {
        duration := now - history[|history| - 1].time;
      }
      rate := if duration >= MIN_DURATION then Some(accumulatedSize * SECOND / duration) else None;
    }

    /** The number of samples in front of the old ones at the back. */
    method CountFresh(deadline: int) returns (n: nat)
      ensures n <= |history| && history[..n] == Kept(history, deadline)
    {
      n := |history|;
      assert history[..n] == history;
      while n > 0 && history[n - 1].time < deadline
        invariant 0 <= n <= |history|
        invariant Kept(history[..n], deadline) == Kept(history, deadline)
      {
        assert history[..n][..n - 1] == history[..n - 1];
        n := n - 1;
      }
    }

    /** The samples from `n` on leave the history, and their sizes the total. */
    method DropRemoved(n: nat)
      requires Valid() && n <= |history|
      modifies this`history, this`accumulatedSize
      ensures Valid() && history == old(history)[..n]
    {
      hide Sum;
      ghost var all := history;
      var removed := history[n..];
      history := history[..n];
      var i := |removed|;
      assert all[..n + i] == all;
      while i > 0
        invariant 0 <= i <= |removed|
        invariant history == all[..n] && accumulatedSize == Sum(all[..n + i])
      {
        i := i - 1;
        SumOfPrefix(all, n + i);
        accumulatedSize := accumulatedSize - removed[i].size;
      }
    }
  }

  lemma SumOfPrefix(h: History, n: nat)
    requires n < |h|
    ensures Sum(h[..n + 1]) == Sum(h[..n]) + h[n].size
  {
    assert h[..n + 1][..n] == h[..n];
  }

  lemma {:induction false} SumWithNew(x: Sample, h: History)
    ensures Sum([x] + h) == x.size + Sum(h)
    decreases |h|
  {
    if h == [] {
      assert [x][..0] == [];
    } else {
      SumWithNew(x, h[..|h| - 1]);
      assert ([x] + h)[..|h|] == [x] + h[..|h| - 1];
    }
  }

  // ----- whole runs -----

  datatype Op = Push(size: nat, time: nat) | Update(now: nat)

  function At(op: Op): nat {
    match op
    case Push(_, time) => time
    case Update(now) => now
  }

  function Step(s: State, op: Op): State {
    match op
    case Push(size, time) => s.(history := [Sample(time, size)] + s.history)
    case Update(now) => Updated(s, now)
  }

  function Run(ops: seq<Op>): State {
    if ops == [] then State([], None) else Step(Run(ops[..|ops| - 1]), ops[|ops| - 1])
  }

  /** Everything ever pushed, newest first. */
  function Log(ops: seq<Op>): History {
    if ops == [] then []
    else
      var (before, op) := (ops[..|ops| - 1], ops[|ops| - 1]);
      (if op.Push? then [Sample(op.time, op.size)] else []) + Log(before)
  }

  /** The clock never goes back. */
  ghost predicate Monotonic(ops: seq<Op>) {
    forall i, j :: 0 <= i < j < |ops| ==> At(ops[i]) <= At(ops[j])
  }

  /** The deadline of the last update. */
  function Deadline(ops: seq<Op>): int {
    if ops == [] then 0 - MAX_DURATION
    else if ops[|ops| - 1].Update? then ops[|ops| - 1].now - MAX_DURATION
    else Deadline(ops[..|ops| - 1])
  }

  /** Dropping from the back finds every old sample when they are in order. */
  lemma {:induction false} KeptIsWithin(h: History, deadline: int)
    requires Sorted(h)
    ensures Kept(h, deadline) == Within(h, deadline)
    decreases |h|
  {
    if h != [] {
      if h[|h| - 1].time >= deadline {
        AllWithin(h, deadline);
      } else {
        KeptIsWithin(h[..|h| - 1], deadline);
        WithinWithoutOld(h, deadline);
      }
    }
  }

  lemma {:induction false} AllWithin(h: History, deadline: int)
    requires forall i :: 0 <= i < |h| ==> h[i].time >= deadline
    ensures Within(h, deadline) == h
  {
    if h != [] {
      AllWithin(h[1..], deadline);
    }
  }

  lemma {:induction false} WithinWithoutOld(h: History, deadline: int)
    requires h != [] && h[|h| - 1].time < deadline
    ensures Within(h, deadline) == Within(h[..|h| - 1], deadline)
  {
    if |h| > 1 {
      WithinWithoutOld(h[1..], deadline);
      assert h[1..][..|h| - 2] == h[..|h| - 1][1..];
    }
  }

  /** Of two deadlines the later one decides. */
  lemma {:induction false} WithinTwice(h: History, d: int, e: int)
    requires d <= e
    ensures Within(Within(h, d), e) == Within(h, e)
  {
    if h != [] {
      WithinTwice(h[1..], d, e);
      if h[0].time >= d {
        var rest := Within(h[1..], d);
        assert ([h[0]] + rest)[1..] == rest;
      } else {
        assert [] + Within(h[1..], d) == Within(h[1..], d);
      }
    }
  }

  lemma {:induction false} WithinSorted(h: History, deadline: int)
    requires Sorted(h)
    ensures Sorted(Within(h, deadline))
    ensures forall i :: 0 <= i < |Within(h, deadline)| ==> Within(h, deadline)[i].time <= h[0].time
  {
    if h != [] {
      WithinSorted(h[1..], deadline);
    }
  }

  lemma {:induction false} LogSorted(ops: seq<Op>)
    requires Monotonic(ops)
    ensures Sorted(Log(ops))
    ensures forall i :: 0 <= i < |Log(ops)| ==> Log(ops)[i].time <= At(ops[|ops| - 1])
  {
    if ops != [] {
      var before := ops[..|ops| - 1];
      LogSorted(before);
      if before != [] {
        assert At(before[|before| - 1]) <= At(ops[|ops| - 1]);
      }
    }
  }

  /** Over every run on a clock that never goes back, the history is exactly the samples of the five
      seconds up to the last update and all since, newest first. */
  lemma {:induction false} HistoryIsWindow(ops: seq<Op>)
    requires Monotonic(ops)
    ensures Run(ops).history == Within(Log(ops), Deadline(ops))
  {
    hide RateOf, Within, Kept;
    if ops == [] {
      NothingWithin(Deadline(ops));
    } else {
      var (before, op) := (ops[..|ops| - 1], ops[|ops| - 1]);
      HistoryIsWindow(before);
      LogSorted(before);
      DeadlineBound(before);
      match op {
        case Push(size, time) =>
          NewestWithin(Sample(time, size), Log(before), Deadline(before));
        case Update(now) =>
          assert Log(ops) == Log(before);
          WithinSorted(Log(before), Deadline(before));
          KeptIsWithin(Within(Log(before), Deadline(before)), now - MAX_DURATION);
          WithinTwice(Log(before), Deadline(before), now - MAX_DURATION);
          assert Run(ops).history == Kept(Run(before).history, now - MAX_DURATION);
      }
    }
  }

  lemma NothingWithin(deadline: int)
    ensures Within([], deadline) == []
  {
  }

  lemma NewestWithin(x: Sample, h: History, deadline: int)
    requires x.time >= deadline
    ensures Within([x] + h, deadline) == [x] + Within(h, deadline)
  {
    assert ([x] + h)[1..] == h;
  }

  lemma {:induction false} DeadlineBound(ops: seq<Op>)
    requires Monotonic(ops)
    ensures Deadline(ops) <= (if ops == [] then 0 else At(ops[|ops| - 1])) - MAX_DURATION
  {
    if ops != [] {
      DeadlineBound(ops[..|ops| - 1]);
    }
  }

  /** The rate an update gives: the bits of the last five seconds over the time since the oldest of
      them; none if that is less than half a second. */
  lemma RateIsWindowed(ops: seq<Op>, now: nat)
    requires Monotonic(ops + [Update(now)])
    ensures Run(ops + [Update(now)]).rate == RateOf(Within(Log(ops), now - MAX_DURATION), now)
  {
    hide RateOf, Within, Kept;
    var all := ops + [Update(now)];
    assert all[..|ops|] == ops;
    HistoryIsWindow(all);
    assert Log(all) == Log(ops);
  }

  /** That rate in numbers, over every run: none without a sample of the last five seconds or with less
      than half a second since the oldest of them, and otherwise the largest whole number of bits per
      second that does not exceed their average. */
  lemma RateExactly(ops: seq<Op>, now: nat)
    requires Monotonic(ops + [Update(now)])
    ensures var (recent, rate) := (Within(Log(ops), now - 5_000_000_000), Run(ops + [Update(now)]).rate);
            if recent == [] || now - recent[|recent| - 1].time < 500_000_000 then rate.None?
            else
              var nanoseconds := now - recent[|recent| - 1].time;
              && rate.Some?
              && rate.value * nanoseconds <= Sum(recent) * 1_000_000_000 < (rate.value + 1) * nanoseconds
  {
    hide Run, Within, Sum, Log, Monotonic;
    RateIsWindowed(ops, now);
    var recent := Within(Log(ops), now - 5_000_000_000);
    if recent != [] && now - recent[|recent| - 1].time >= 500_000_000 {
      Quotient(Sum(recent) * 1_000_000_000, now - recent[|recent| - 1].time);
    }
  }

  lemma Quotient(a: nat, b: nat)
    requires b > 0
    ensures a / b * b <= a < (a / b + 1) * b
  {
    assert a == a / b * b + a % b;
    assert (a / b + 1) * b == a / b * b + b;
  }

  /** The samples within a deadline, one by one. */
  lemma {:induction false} WithinExactly(h: History, deadline: int, x: Sample)
    ensures multiset(Within(h, deadline))[x] == if x.time >= deadline then multiset(h)[x] else 0
  {
    if h != [] {
      WithinExactly(h[1..], deadline, x);
      assert h == [h[0]] + h[1..];
    }
  }
}
