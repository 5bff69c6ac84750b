/** The audio jitter buffer of media/src/buffer.rs: decoded chunks wait in order of their extended
    sequence numbers and leave re-sliced to a fixed length. Decoding, resampling and the sound
    detector are not part of the model: `Add` is given their results. */
module JitterBuffer {
  import opened Bytes
  import opened Rollover

  const MIN_SIZE := 2
  const MAX_SIZE := 10
  const ABUNDANT_SIZE := 2
  const ABUNDANT_TIMES := 500
  const ROC_LIMIT := 0x1_0000_0000_0000_0000

  type Sample = int
  type Pcm = seq<Sample>

  // ----- the ordered queue -----

  /** Items with their numbers, the largest number in front; the next one out is at the back. */
  type Queue<I> = seq<(I, nat)>

  ghost predicate Ordered<I>(q: Queue<I>) {
    forall i, j :: 0 <= i < j < |q| ==> q[i].1 >= q[j].1
  }

  /** In front of the first item with a smaller number. */
  function Pushed<I>(q: Queue<I>, item: I, n: nat): (r: Queue<I>)
    ensures |r| == |q| + 1
  {
    if q == [] then [(item, n)]
    else if n > q[0].1 then [(item, n)] + q
    else [q[0]] + Pushed(q[1..], item, n)
  }

  class SeqQueue<I> {
    var queue: Queue<I>

    constructor ()
      ensures queue == []
    {
      queue := [];
    }

    method Push(item: I, n: nat)
      modifies this
      ensures queue == Pushed(old(queue), item, n)
    {
      var i := 0;
      while i < |queue| && n <= queue[i].1
        invariant 0 <= i <= |queue|
        invariant queue[..i] + Pushed(queue[i..], item, n) == Pushed(queue, item, n)
      {
        assert queue[i..][1..] == queue[i + 1..];
        assert queue[..i + 1] == queue[..i] + [queue[i]];
        i := i + 1;
      }
      queue := queue[..i] + [(item, n)] + queue[i..];
    }

    method Pop() returns (r: Option<(I, nat)>)
      modifies this
      ensures r.None? <==> old(queue) == []
      ensures r.None? ==> queue == []
      ensures r.Some? ==> old(queue) == queue + [r.value]
    {
      if queue == [] {
        return None;
      }
      var n := |queue| - 1;
      r := Some(queue[n]);
      queue := queue[..n];
    }
  }

  lemma {:induction false} PushAdds<I>(q: Queue<I>, item: I, n: nat)
    ensures multiset(Pushed(q, item, n)) == multiset(q) + multiset{(item, n)}
  {
    if q != [] {
      PushAdds(q[1..], item, n);
      assert q == [q[0]] + q[1..];
    }
  }

  lemma {:induction false} PushBounded<I>(q: Queue<I>, item: I, n: nat, bound: nat)
    requires n <= bound && forall i :: 0 <= i < |q| ==> q[i].1 <= bound
    ensures forall i :: 0 <= i < |q| + 1 ==> Pushed(q, item, n)[i].1 <= bound
  {
    if q != [] && n <= q[0].1 {
      PushBounded(q[1..], item, n, bound);
    }
  }

  lemma {:induction false} PushKeepsOrder<I>(q: Queue<I>, item: I, n: nat)
    requires Ordered(q)
    ensures Ordered(Pushed(q, item, n))
  {
    if q != [] && n <= q[0].1 {
      PushKeepsOrder(q[1..], item, n);
      PushBounded(q[1..], item, n, q[0].1);
    }
  }

  /** An item with the smallest number goes to the back. */
  lemma {:induction false} PushSmallest<I>(q: Queue<I>, item: I, n: nat)
    requires forall i :: 0 <= i < |q| ==> q[i].1 >= n
    ensures Pushed(q, item, n) == q + [(item, n)]
  {
    if q != [] {
      PushSmallest(q[1..], item, n);
    }
  }

  // ----- extended sequence numbers -----

  /** The number a packet with this index is queued under. */
  function Extended(index: nat): nat { Low(index) + MAX_SEQUENCE_NUMBER * Epoch(index) }

  /** Later packets never get smaller numbers, and two get the same one exactly when the second
      follows the first across a wrap. */
  lemma ExtendedOrder(i: nat, j: nat)
    requires i < j
    ensures Extended(i) <= Extended(j)
    ensures Extended(i) == Extended(j) <==> j == i + 1 && Low(i) == MAX_SEQUENCE_NUMBER
  {
    assert i == Epoch(i) * 0x1_0000 + Low(i) && j == Epoch(j) * 0x1_0000 + Low(j);
  }

  /** A packet that arrives right after its predecessor is queued to leave after it, except across a
      wrap, where it leaves first. */
  lemma QueuedBehindUnlessWrap<I>(q: Queue<I>, item: I, index: nat)
    requires q != [] && q[0].1 == Extended(index) && item != q[0].0
    ensures Pushed(q, item, Extended(index + 1)) == [(item, Extended(index + 1))] + q
            <==> Low(index) != MAX_SEQUENCE_NUMBER
  {
    ExtendedOrder(index, index + 1);
    var r := [(item, Extended(index + 1))] + q;
    assert r[0] != q[0];
  }

  // ----- the buffer -----

  datatype Buffered = Buffered(
    pcms: Queue<Pcm>,
    payloads: Queue<Buffer>,
    size: nat,
    filled: bool,
    abundantTimes: nat,
    roc: RocState,
    pcmLen: nat,
    transcode: bool)

  function Start(pcmLen: nat, transcode: bool): Buffered {
    Buffered([], [], MIN_SIZE, false, 0, UNSTARTED, pcmLen, transcode)
  }

  ghost predicate IsValid(b: Buffered) {
    && Ordered(b.pcms)
    && (forall i :: 0 <= i < |b.pcms| ==> b.pcms[i].0 != [])
    && MIN_SIZE <= b.size <= MAX_SIZE
    && (b.filled ==> b.pcms != [])
    && b.roc.roc < ROC_LIMIT
  }

  /** A decoded packet; `None` when decoding failed. */
  function Added(b: Buffered, seqnum: U16, payload: Buffer, pcm: Option<Pcm>, hadSound: bool): Buffered
    requires b.roc.roc < ROC_LIMIT
  {
    var c := b.(roc := Update(b.roc, 0, seqnum, ROC_LIMIT));
    if !Accepts(b, pcm, hadSound) then c
    else
      var n := seqnum + MAX_SEQUENCE_NUMBER * c.roc.roc;
      var d := if !b.transcode && |pcm.value| == b.pcmLen then c.(payloads := Pushed(c.payloads, payload, n)) else c;
      var e := d.(pcms := Pushed(d.pcms, pcm.value, n));
      e.(filled := e.filled || |e.pcms| >= e.size)
  }

  /** Decoded to something, and not silence on top of an already long queue. */
  predicate Accepts(b: Buffered, pcm: Option<Pcm>, hadSound: bool) {
    pcm.Some? && pcm.value != [] && (hadSound || (|b.pcms| <= MAX_SIZE && |b.pcms| <= b.size + 1))
  }

  /** Chunks taken off the queue until there are `len` samples; a remainder goes back. */
  function Drain(q: Queue<Pcm>, pcm: Pcm, len: nat): (r: (Pcm, Queue<Pcm>))
    requires |pcm| < len
    decreases |q|
  {
    if q == [] then (pcm, [])
    else
      var (rest, (p, n)) := (q[..|q| - 1], q[|q| - 1]);
      if |p| + |pcm| == len then (pcm + p, rest)
      else if |p| + |pcm| > len then (pcm + p[..len - |pcm|], Pushed(rest, p[len - |pcm|..], n))
      else Drain(rest, pcm + p, len)
  }

  function Silence(n: nat): (z: Pcm)
    ensures |z| == n && forall i :: 0 <= i < n ==> z[i] == 0
  {
    seq(n, _ => 0)
  }

  /** The target size after a read that left `n` chunks. */
  function Adapted(b: Buffered, n: nat): Buffered {
    if n == 0 then b.(filled := false, size := if b.size < MAX_SIZE then b.size + 1 else b.size)
    else if n >= ABUNDANT_SIZE then
      if b.size <= MIN_SIZE then b
      else if b.abundantTimes + 1 > ABUNDANT_TIMES then b.(size := b.size - 1, abundantTimes := 0)
      else b.(abundantTimes := b.abundantTimes + 1)
    else b.(abundantTimes := 0)
  }

  /** A slice made up to its full length; none if there is nothing in it. */
  function Padded(pcm: Pcm, len: nat): Option<Pcm> {
    if pcm == [] then None else Some(if |pcm| < len then pcm + Silence(len - |pcm|) else pcm)
  }

  /** The read: the buffer after it, the next payload, and the next `pcmLen` samples. */
  function Taken(b: Buffered): (r: (Buffered, Option<Buffer>, Option<Pcm>))
    requires b.pcmLen > 0
  {
    if !b.filled then (b, None, None)
    else
      var (pcm, rest) := Drain(b.pcms, [], b.pcmLen);
      var n := |b.payloads|;
      var payload := if n == 0 then None else Some(b.payloads[n - 1].0);
      var left := if n == 0 then [] else b.payloads[..n - 1];
      (Adapted(b.(pcms := rest, payloads := left), |rest|), payload, Padded(pcm, b.pcmLen))
  }

  /** The samples in the order they will leave. */
  function Samples(q: Queue<Pcm>): Pcm {
    if q == [] then [] else q[|q| - 1].0 + Samples(q[..|q| - 1])
  }

  ghost predicate NonEmptyChunks(q: Queue<Pcm>) {
    forall i :: 0 <= i < |q| ==> q[i].0 != []
  }

  /** The first samples of `q` behind `pcm`, up to `len` in all, are in `out`, the others in `rest`. */
  ghost predicate PrefixTaken(q: Queue<Pcm>, pcm: Pcm, len: nat, out: Pcm, rest: Queue<Pcm>)
    requires |pcm| < len
  {
    var k := Min(len - |pcm|, |Samples(q)|);
    && out == pcm + Samples(q)[..k] && Samples(rest) == Samples(q)[k..]
    && Ordered(rest) && NonEmptyChunks(rest)
    && (rest == [] <==> k == |Samples(q)|)
  }

  /** Draining takes the first samples of the queue and leaves the others, whatever the chunks. */
  lemma {:induction false} DrainTakesPrefix(q: Queue<Pcm>, pcm: Pcm, len: nat)
    requires |pcm| < len && Ordered(q) && NonEmptyChunks(q)
    ensures PrefixTaken(q, pcm, len, Drain(q, pcm, len).0, Drain(q, pcm, len).1)
    decreases |q|
  {
    if q == [] {
      assert pcm + [] == pcm;
    } else {
      hide PrefixTaken, Samples, Min;
      var (rest, (p, n)) := (q[..|q| - 1], q[|q| - 1]);
      if |p| + |pcm| == len {
        LastChunkFits(rest, p, n, pcm, len);
      } else if |p| + |pcm| > len {
        LastChunkSplit(rest, p, n, pcm, len);
      } else {
        DrainTakesPrefix(rest, pcm + p, len);
        LastChunkTaken(rest, p, n, pcm, len, Drain(q, pcm, len).0, Drain(q, pcm, len).1);
      }
      assert q == rest + [(p, n)];
    }
  }

  lemma SamplesFromLast(rest: Queue<Pcm>, p: Pcm, n: nat)
    ensures Samples(rest + [(p, n)]) == p + Samples(rest)
  {
    assert (rest + [(p, n)])[..|rest|] == rest;
  }

  lemma LastChunkFits(rest: Queue<Pcm>, p: Pcm, n: nat, pcm: Pcm, len: nat)
    requires |pcm| < len == |p| + |pcm| && Ordered(rest) && NonEmptyChunks(rest)
    ensures PrefixTaken(rest + [(p, n)], pcm, len, pcm + p, rest)
  {
    hide Samples, Ordered, NonEmptyChunks;
    SamplesFromLast(rest, p, n);
    SamplesEmptyIff(rest);
  }

  lemma LastChunkSplit(rest: Queue<Pcm>, p: Pcm, n: nat, pcm: Pcm, len: nat)
    requires |pcm| < len < |p| + |pcm| && Ordered(rest + [(p, n)]) && NonEmptyChunks(rest)
    ensures PrefixTaken(rest + [(p, n)], pcm, len, pcm + p[..len - |pcm|], Pushed(rest, p[len - |pcm|..], n))
  {
    hide Samples, Ordered, NonEmptyChunks, Pushed;
    var k := len - |pcm|;
    SamplesFromLast(rest, p, n);
    SamplesFromLast(rest, p[k..], n);
    RemainderGoesBack(rest, p, n, k);
  }

  lemma RemainderGoesBack(rest: Queue<Pcm>, p: Pcm, n: nat, k: nat)
    requires k < |p| && Ordered(rest + [(p, n)]) && NonEmptyChunks(rest)
    ensures var r := rest + [(p[k..], n)];
            Pushed(rest, p[k..], n) == r && Ordered(r) && NonEmptyChunks(r)
  {
    hide Pushed, Ordered, NonEmptyChunks;
    OrderedToEnd(rest, (p, n), (p[k..], n));
    PushSmallest(rest, p[k..], n);
    NonEmptyToEnd(rest, (p[k..], n));
  }

  /** At the end of an ordered queue only the number matters. */
  lemma OrderedToEnd<I>(rest: Queue<I>, x: (I, nat), y: (I, nat))
    requires Ordered(rest + [x]) && x.1 == y.1
    ensures Ordered(rest + [y])
    ensures forall i :: 0 <= i < |rest| ==> rest[i].1 >= x.1
  {
    var (q, r) := (rest + [x], rest + [y]);
    assert forall i :: 0 <= i < |q| ==> q[i].1 == r[i].1;
    forall i | 0 <= i < |rest|
      ensures rest[i].1 >= x.1
    {
      assert q[i].1 >= q[|rest|].1;
    }
  }

  lemma NonEmptyToEnd(rest: Queue<Pcm>, x: (Pcm, nat))
    requires NonEmptyChunks(rest) && x.0 != []
    ensures NonEmptyChunks(rest + [x])
  {
  }

  lemma LastChunkTaken(front: Queue<Pcm>, p: Pcm, n: nat, pcm: Pcm, len: nat, out: Pcm, rest: Queue<Pcm>)
    requires |p| + |pcm| < len && PrefixTaken(front, pcm + p, len, out, rest)
    ensures PrefixTaken(front + [(p, n)], pcm, len, out, rest)
  {
    hide Samples, Ordered, NonEmptyChunks;
    SamplesFromLast(front, p, n);
    var (all, k) := (p + Samples(front), Min(len - |pcm + p|, |Samples(front)|));
    assert all[..|p| + k] == p + Samples(front)[..k];
    assert all[|p| + k..] == Samples(front)[k..];
  }

  lemma {:induction false} SamplesEmptyIff(q: Queue<Pcm>)
    requires NonEmptyChunks(q)
    ensures Samples(q) == [] <==> q == []
  {
  }

  /** A read from a filled buffer gives exactly `pcmLen` samples: the first ones of the queue, made up
      with silence only when the queue runs out; the rest of the queue stays, in order. */
  lemma ReadsSlice(b: Buffered)
    requires IsValid(b) && b.filled && b.pcmLen > 0
    ensures var (c, _, out) := Taken(b);
            var (all, k) := (Samples(b.pcms), Min(b.pcmLen, |Samples(b.pcms)|));
            && k > 0
            && out == Some(all[..k] + Silence(b.pcmLen - k))
            && Samples(c.pcms) == all[k..]
            && (c.filled <==> k < |all|)
            && (k < b.pcmLen ==> c.pcms == [])
            && IsValid(c)
  {
    hide Drain, Samples, Min, Ordered, NonEmptyChunks;
    var (pcm, rest) := Drain(b.pcms, [], b.pcmLen);
    var k := Min(b.pcmLen, |Samples(b.pcms)|);
    ChunksOf(b);
    DrainTakesPrefix(b.pcms, [], b.pcmLen);
    SamplesEmptyIff(b.pcms);
    MinBounds(b.pcmLen, |Samples(b.pcms)|);
    assert pcm == Samples(b.pcms)[..k];
    assert k == b.pcmLen ==> pcm + Silence(0) == pcm;
    DrainedIsValid(b, rest);
  }

  lemma MinBounds(a: nat, b: nat)
    ensures Min(a, b) <= a && Min(a, b) <= b && (Min(a, b) == 0 <==> a == 0 || b == 0)
    ensures Min(a, b) < a ==> Min(a, b) == b
  {
  }

  lemma ChunksOf(b: Buffered)
    requires IsValid(b)
    ensures Ordered(b.pcms) && NonEmptyChunks(b.pcms)
  {
  }

  lemma DrainedIsValid(b: Buffered, rest: Queue<Pcm>)
    requires IsValid(b) && Ordered(rest) && NonEmptyChunks(rest)
    ensures forall payloads :: IsValid(Adapted(b.(pcms := rest, payloads := payloads), |rest|))
  {
  }

  lemma NothingTaken(b: Buffered)
    requires b.pcmLen > 0
    ensures !b.filled ==> Taken(b) == (b, None, None)
  {
  }

  lemma TakenIs(b: Buffered, pcm: Pcm, rest: Queue<Pcm>, front: Option<(Buffer, nat)>, left: Queue<Buffer>)
    requires b.pcmLen > 0 && b.filled && (pcm, rest) == Drain(b.pcms, [], b.pcmLen)
    requires b.payloads == if front.Some? then left + [front.value] else []
    requires front.None? ==> left == []
    ensures Taken(b)
         == (Adapted(b.(pcms := rest, payloads := left), |rest|),
             if front.Some? then Some(front.value.0) else None,
             Padded(pcm, b.pcmLen))
  {
    hide Drain, Adapted, Padded;
  }

  class RtpBufferState {
    const pcms: SeqQueue<Pcm>
    const payloads: SeqQueue<Buffer>
    var size: nat
    var filled: bool
    var abundantTimes: nat
    var roc: RocState
    const pcmLen: nat
    const transcode: bool

    ghost function State(): Buffered
      reads this, pcms, payloads
    {
      Buffered(pcms.queue, payloads.queue, size, filled, abundantTimes, roc, pcmLen, transcode)
    }

    ghost predicate Valid()
      reads this, pcms, payloads
    {
      pcms as object != payloads && IsValid(State())
    }

    constructor (pcmLen: nat, transcode: bool)
      ensures Valid() && State() == Start(pcmLen, transcode)
      ensures fresh(pcms) && fresh(payloads)
    {
      pcms := new SeqQueue();
      payloads := new SeqQueue();
      size, filled, abundantTimes, roc := MIN_SIZE, false, 0, UNSTARTED;
      this.pcmLen, this.transcode := pcmLen, transcode;
    }

    method UpdateRoc(seqnum: U16)
      requires roc.roc < ROC_LIMIT
      modifies this`roc
      ensures roc == Update(old(roc), 0, seqnum, ROC_LIMIT)
    {
      var n: int := roc.roc;
      if !roc.processed {
        n := 0;
      } else if seqnum == 0 {
        if roc.lastSeq > MAX_ROC_DISORDER {
          n := Wrap(n + 1, ROC_LIMIT);
        }
      } else if roc.lastSeq < MAX_ROC_DISORDER && seqnum > MAX_SEQUENCE_NUMBER - MAX_ROC_DISORDER {
        n := Wrap(n - 1, ROC_LIMIT);
      } else if seqnum < MAX_ROC_DISORDER && roc.lastSeq > MAX_SEQUENCE_NUMBER - MAX_ROC_DISORDER {
        n := Wrap(n + 1, ROC_LIMIT);
      }
      roc := RocState(n, true, seqnum);
    }

    method Add(seqnum: U16, payload: Buffer, pcm: Option<Pcm>, hadSound: bool)
      requires Valid()
      modifies this, pcms, payloads
      ensures Valid() && State() == Added(old(State()), seqnum, payload, pcm, hadSound)
    {
      AddedIsValid(State(), seqnum, payload, pcm, hadSound);
      hide IsValid, Update;
      UpdateRoc(seqnum);
      if pcm.None? {
        return;
      }
      if pcm.value == [] {
        return;
      }
      var n := seqnum + MAX_SEQUENCE_NUMBER * roc.roc;
      var len := |pcms.queue|;
      if (len > MAX_SIZE || len > size + 1) && !hadSound {
        return;
      }
      if !transcode && |pcm.value| == pcmLen {
        payloads.Push(payload, n);
      }
      pcms.Push(pcm.value, n);
      if !filled && |pcms.queue| >= size {
        filled := true;
      }
    }

    /** The reading loop: chunks come off the queue until the slice is full; a remainder goes back. */
    method Fill() returns (pcm: Pcm)
      requires pcmLen > 0
      modifies pcms
      ensures (pcm, pcms.queue) == Drain(old(pcms.queue), [], pcmLen)
    {
      pcm := [];
      while true
        invariant |pcm| < pcmLen
        invariant Drain(pcms.queue, pcm, pcmLen) == Drain(old(pcms.queue), [], pcmLen)
        decreases |pcms.queue|
      {
        ghost var before := pcms.queue;
        var next := pcms.Pop();
        if next.None? {
          return;
        }
        var (p, n) := next.value;
        assert before[..|before| - 1] == pcms.queue && before[|before| - 1] == (p, n);
        if |p| + |pcm| == pcmLen {
          pcm := pcm + p;
          return;
        }
        if |p| + |pcm| > pcmLen {
          pcms.Push(p[pcmLen - |pcm|..], n);
          pcm := pcm + p[..pcmLen - |pcm|];
          return;
        }
        pcm := pcm + p;
      }
    }

    /** Adapt the target size to the `n` chunks a read has left. */
    method Adapt(n: nat)
      modifies this`filled, this`size, this`abundantTimes
      ensures State() == Adapted(old(State()), n)
    {
      if n == 0 {
        filled := false;
        if size < MAX_SIZE {
          size := size + 1;
        }
      } else if n >= ABUNDANT_SIZE {
        if size > MIN_SIZE {
          abundantTimes := abundantTimes + 1;
          if abundantTimes > ABUNDANT_TIMES {
            size := size - 1;
            abundantTimes := 0;
          }
        }
      } else if abundantTimes > 0 {
        abundantTimes := 0;
      }
    }

    method Get() returns (payload: Option<Buffer>, out: Option<Pcm>)
      requires Valid() && pcmLen > 0
      modifies this, pcms, payloads
      ensures Valid() && (State(), payload, out) == Taken(old(State()))
    {
      hide IsValid, Drain, Adapted, Taken, Samples;
      ghost var before := State();
      TakenSamples(before);
      NothingTaken(before);
      if !filled {
        return None, None;
      }
      var pcm := Fill();
      if pcm == [] {
        out := None;
      } else if |pcm| < pcmLen {
        out := Some(pcm + Silence(pcmLen - |pcm|));
      } else {
        out := Some(pcm);
      }
      var left := |pcms.queue|;
      var first := payloads.Pop();
      payload := if first.None? then None else Some(first.value.0);
      TakenIs(before, pcm, pcms.queue, first, payloads.queue);
      Adapt(left);
    }
  }

  lemma AddedIsValid(b: Buffered, seqnum: U16, payload: Buffer, pcm: Option<Pcm>, hadSound: bool)
    requires IsValid(b)
    ensures IsValid(Added(b, seqnum, payload, pcm, hadSound))
  {
    hide Update;
    if Accepts(b, pcm, hadSound) {
      var n := seqnum + MAX_SEQUENCE_NUMBER * Update(b.roc, 0, seqnum, ROC_LIMIT).roc;
      PushKeepsOrder(b.pcms, pcm.value, n);
      PushKeepsChunks(b.pcms, pcm.value, n);
    }
  }

  lemma {:induction false} PushKeepsChunks(q: Queue<Pcm>, p: Pcm, n: nat)
    requires NonEmptyChunks(q) && p != []
    ensures NonEmptyChunks(Pushed(q, p, n))
  {
    if q != [] {
      PushKeepsChunks(q[1..], p, n);
    }
  }

  // ----- whole runs -----

  datatype Event = Packet(seqnum: U16, payload: Buffer, pcm: Option<Pcm>, hadSound: bool) | Read

  function Step(b: Buffered, e: Event): (c: Buffered)
    requires b.pcmLen > 0 && b.roc.roc < ROC_LIMIT
    ensures c.pcmLen == b.pcmLen && c.roc.roc < ROC_LIMIT
  {
    match e
    case Packet(seqnum, payload, pcm, hadSound) => Added(b, seqnum, payload, pcm, hadSound)
    case Read => Taken(b).0
  }

  /** The samples an event lets in. */
  function Entering(b: Buffered, e: Event): Pcm {
    if e.Packet? && Accepts(b, e.pcm, e.hadSound) then e.pcm.value else []
  }

  /** The samples an event gives out, without the silence that fills up a short slice. */
  function Leaving(b: Buffered, e: Event): Pcm {
    if e.Read? && b.filled then Samples(b.pcms)[..Min(b.pcmLen, |Samples(b.pcms)|)] else []
  }

  function Run(pcmLen: nat, transcode: bool, es: seq<Event>): (b: Buffered)
    requires pcmLen > 0
    ensures b.pcmLen == pcmLen && b.roc.roc < ROC_LIMIT
  {
    if es == [] then Start(pcmLen, transcode) else Step(Run(pcmLen, transcode, es[..|es| - 1]), es[|es| - 1])
  }

  /** All samples let in over a run. */
  function Intake(pcmLen: nat, transcode: bool, es: seq<Event>): Pcm
    requires pcmLen > 0
  {
    if es == [] then []
    else
      var before := es[..|es| - 1];
      Intake(pcmLen, transcode, before) + Entering(Run(pcmLen, transcode, before), es[|es| - 1])
  }

  /** All samples given out over a run. */
  function Output(pcmLen: nat, transcode: bool, es: seq<Event>): Pcm
    requires pcmLen > 0
  {
    if es == [] then []
    else
      var before := es[..|es| - 1];
      Output(pcmLen, transcode, before) + Leaving(Run(pcmLen, transcode, before), es[|es| - 1])
  }

  lemma {:induction false} SamplesBehind(x: (Pcm, nat), q: Queue<Pcm>)
    ensures Samples([x] + q) == Samples(q) + x.0
    decreases |q|
  {
    if q == [] {
      assert [x] + q == [x] && [x][..0] == [];
    } else {
      var rest := q[..|q| - 1];
      assert ([x] + q)[..|q|] == [x] + rest;
      SamplesBehind(x, rest);
    }
  }

  /** Queuing a chunk adds its samples. */
  lemma {:induction false} SamplesAfterPush(q: Queue<Pcm>, p: Pcm, n: nat)
    ensures multiset(Samples(Pushed(q, p, n))) == multiset(Samples(q)) + multiset(p)
    decreases |q|
  {
    if q == [] {
      SamplesBehind((p, n), []);
    } else if n > q[0].1 {
      SamplesBehind((p, n), q);
    } else {
      SamplesAfterPush(q[1..], p, n);
      SamplesBehind(q[0], Pushed(q[1..], p, n));
      assert q == [q[0]] + q[1..];
      SamplesBehind(q[0], q[1..]);
    }
  }

  lemma TakenSamples(b: Buffered)
    requires IsValid(b) && b.pcmLen > 0
    ensures IsValid(Taken(b).0)
    ensures var all := Samples(b.pcms);
            Samples(Taken(b).0.pcms) == if b.filled then all[Min(b.pcmLen, |all|)..] else all
  {
    if b.filled {
      ReadsSlice(b);
    }
  }

  lemma RocIsBelow(b: Buffered)
    requires IsValid(b)
    ensures b.roc.roc < ROC_LIMIT
  {
  }

  /** One event: what enters and what was queued is what leaves and what stays queued. */
  lemma StepConserves(b: Buffered, e: Event)
    requires IsValid(b) && b.pcmLen > 0
    ensures IsValid(Step(b, e))
    ensures multiset(Entering(b, e)) + multiset(Samples(b.pcms))
         == multiset(Leaving(b, e)) + multiset(Samples(Step(b, e).pcms))
  {
    hide IsValid, Samples, Update, Min, Adapted;
    match e {
      case Packet(seqnum, payload, pcm, hadSound) =>
        AddedIsValid(b, seqnum, payload, pcm, hadSound);
        RocIsBelow(b);
        if Accepts(b, pcm, hadSound) {
          SamplesAfterPush(b.pcms, pcm.value, seqnum + MAX_SEQUENCE_NUMBER * Update(b.roc, 0, seqnum, ROC_LIMIT).roc);
        }
      case Read =>
        TakenSamples(b);
        MinBounds(b.pcmLen, |Samples(b.pcms)|);
        var (all, k) := (Samples(b.pcms), Min(b.pcmLen, |Samples(b.pcms)|));
        assert all == all[..k] + all[k..];
    }
  }

  /** Books that balance before an event and over it balance after it. */
  lemma Balance<T>(intake: seq<T>, entering: seq<T>, output: seq<T>, leaving: seq<T>, before: seq<T>, after: seq<T>)
    requires multiset(intake) == multiset(output) + multiset(before)
    requires multiset(entering) + multiset(before) == multiset(leaving) + multiset(after)
    ensures multiset(intake + entering) == multiset(output + leaving) + multiset(after)
  {
    calc {
      multiset(intake + entering);
      multiset(output) + multiset(before) + multiset(entering);
      multiset(output) + (multiset(entering) + multiset(before));
      multiset(output) + (multiset(leaving) + multiset(after));
      multiset(output + leaving) + multiset(after);
    }
  }

  /** Over every run: the buffer stays valid (a filled one is never empty, the target size stays
      between 2 and 10) and no sample is lost or made up: what came in is what went out and what is
      still queued. */
  lemma {:induction false} SamplesAreConserved(pcmLen: nat, transcode: bool, es: seq<Event>)
    requires pcmLen > 0
    ensures var b := Run(pcmLen, transcode, es);
            && IsValid(b)
            && multiset(Intake(pcmLen, transcode, es))
               == multiset(Output(pcmLen, transcode, es)) + multiset(Samples(b.pcms))
  {
    hide Step, Entering, Leaving;
    if es != [] {
      var (before, e) := (es[..|es| - 1], es[|es| - 1]);
      var b := Run(pcmLen, transcode, before);
      SamplesAreConserved(pcmLen, transcode, before);
      StepConserves(b, e);
      Balance(Intake(pcmLen, transcode, before), Entering(b, e), Output(pcmLen, transcode, before), Leaving(b, e),
              Samples(b.pcms), Samples(Step(b, e).pcms));
    }
  }
}
