/** Whole streams through the audio jitter buffer of media/src/buffer.rs: what a stream that arrives
    in order comes out as, and what the order of arrival matters. */
module JitterStreams {
  import opened Bytes
  import opened Rollover
  import opened JitterBuffer

  // ----- streams in order -----

  /** The index of the last packet of a run, when event `k` brings the packet with index `idx[k]`. */
  function LastIndex(es: seq<Event>, idx: seq<nat>): Option<nat>
    requires |idx| == |es|
  {
    if es == [] then None
    else
      var n := |es| - 1;
      if es[n].Packet? then Some(idx[n]) else LastIndex(es[..n], idx[..n])
  }

  /** A packet that may come next in order: none more than 100 ahead of the one before. */
  predicate Follows(last: Option<nat>, index: nat) {
    match last
    case None => Epoch(index) == 0
    case Some(i) => i < index <= i + MAX_ROC_DISORDER
  }

  /** Packets come in order. */
  ghost predicate InOrder(es: seq<Event>, idx: seq<nat>)
    requires |idx| == |es|
  {
    es == []
    || var n := |es| - 1;
       && InOrder(es[..n], idx[..n])
       && (es[n].Packet? ==>
             && Low(idx[n]) == es[n].seqnum && Epoch(idx[n]) < ROC_LIMIT
             && Follows(LastIndex(es[..n], idx[..n]), idx[n]))
  }

  ghost predicate Bounded(q: Queue<Pcm>, bound: nat) {
    forall k :: 0 <= k < |q| ==> q[k].1 <= bound
  }

  /** The counter is right and nothing queued is numbered past the last packet. */
  ghost predicate Caught(b: Buffered, last: Option<nat>) {
    match last
    case None => b.roc == UNSTARTED && b.pcms == []
    case Some(i) => b.roc == At(i) && Epoch(i) < ROC_LIMIT && Bounded(b.pcms, Extended(i))
  }

  /** How many chunks in front of the queue carry the number `n` already. */
  function Tied(q: Queue<Pcm>, n: nat): (t: nat)
    ensures t <= |q|
    ensures t == 0 <==> q == [] || q[0].1 != n
  {
    if q == [] || q[0].1 != n then 0 else 1 + Tied(q[1..], n)
  }

  lemma CaughtUpdate(b: Buffered, last: Option<nat>, index: nat)
    requires Caught(b, last) && b.roc.roc < ROC_LIMIT && Epoch(index) < ROC_LIMIT && Follows(last, index)
    ensures Update(b.roc, 0, Low(index), ROC_LIMIT) == At(index)
    ensures Bounded(b.pcms, Extended(index))
    ensures Tied(b.pcms, Extended(index)) > 0 ==>
              last.Some? && index == last.value + 1 && Low(last.value) == MAX_SEQUENCE_NUMBER
  {
    if last.Some? {
      StepExact(last.value, index, 0, ROC_LIMIT);
      ExtendedOrder(last.value, index);
    }
  }

  lemma {:induction false} DrainBounded(q: Queue<Pcm>, pcm: Pcm, len: nat, bound: nat)
    requires |pcm| < len && Bounded(q, bound)
    ensures Bounded(Drain(q, pcm, len).1, bound)
    decreases |q|
  {
    if q != [] {
      var (rest, (p, n)) := (q[..|q| - 1], q[|q| - 1]);
      assert Bounded(rest, bound);
      if |p| + |pcm| > len {
        PushBounded(rest, p[len - |pcm|..], n, bound);
      } else if |p| + |pcm| < len {
        DrainBounded(rest, pcm + p, len, bound);
      }
    }
  }

  /** A chunk with the largest number goes behind those that carry it already, in front of all others. */
  lemma {:induction false} PushedBehindTied(q: Queue<Pcm>, item: Pcm, n: nat)
    requires Bounded(q, n)
    ensures Pushed(q, item, n) == q[..Tied(q, n)] + [(item, n)] + q[Tied(q, n)..]
  {
    if q != [] && q[0].1 == n {
      PushedBehindTied(q[1..], item, n);
      assert q == [q[0]] + q[1..];
    }
  }

  lemma {:induction false} SamplesConcat(a: Queue<Pcm>, b: Queue<Pcm>)
    ensures Samples(a + b) == Samples(b) + Samples(a)
    decreases |b|
  {
    if b == [] {
      assert a + b == a;
    } else {
      SamplesConcat(a, b[..|b| - 1]);
      assert (a + b)[..|a + b| - 1] == a + b[..|b| - 1];
    }
  }

  /** The samples a new chunk goes out before. */
  function Overtaken(b: Buffered, e: Event, index: nat): Pcm {
    if e.Packet? && Accepts(b, e.pcm, e.hadSound) then Samples(b.pcms[..Tied(b.pcms, Extended(index))]) else []
  }

  /** The samples it goes out after. */
  function Preceding(b: Buffered, e: Event, index: nat): Pcm {
    if e.Packet? && Accepts(b, e.pcm, e.hadSound) then Samples(b.pcms[Tied(b.pcms, Extended(index))..])
    else Samples(b.pcms)
  }

  /** A packet in order goes behind everything queued but the chunks tied with it. */
  lemma PacketInOrder(b: Buffered, last: Option<nat>, e: Event, index: nat)
    requires IsValid(b) && Caught(b, last) && e.Packet? && e.seqnum == Low(index) && Epoch(index) < ROC_LIMIT
    requires Follows(last, index)
    ensures var c := Added(b, e.seqnum, e.payload, e.pcm, e.hadSound);
            && Caught(c, Some(index))
            && Samples(b.pcms) == Preceding(b, e, index) + Overtaken(b, e, index)
            && Samples(c.pcms) == Preceding(b, e, index) + Entering(b, e) + Overtaken(b, e, index)
  {
    hide Update, Samples, Extended, Tied, Bounded, IsValid;
    RocIsBelow(b);
    CaughtUpdate(b, last, index);
    ExtendedIs(index);
    if Accepts(b, e.pcm, e.hadSound) {
      PushInOrder(b.pcms, e.pcm.value, Extended(index));
    } else {
      assert Samples(b.pcms) + [] + [] == Samples(b.pcms) && Samples(b.pcms) + [] == Samples(b.pcms);
    }
  }

  lemma PushInOrder(q: Queue<Pcm>, item: Pcm, n: nat)
    requires Bounded(q, n)
    ensures Bounded(Pushed(q, item, n), n)
    ensures var (tied, rest) := (Samples(q[..Tied(q, n)]), Samples(q[Tied(q, n)..]));
            Samples(q) == rest + tied && Samples(Pushed(q, item, n)) == rest + item + tied
  {
    hide Samples, Tied, Pushed;
    var t := Tied(q, n);
    var (front, rest, x) := (q[..t], q[t..], (item, n));
    assert q == front + rest;
    SamplesConcat(front, rest);
    PushedBehindTied(q, item, n);
    SamplesConcat(front + [x], rest);
    SamplesConcat(front, [x]);
    SamplesOfOne(x);
    PushBounded(q, item, n, n);
    assert Samples(rest) + (item + Samples(front)) == Samples(rest) + item + Samples(front);
  }

  lemma SamplesOfOne(x: (Pcm, nat))
    ensures Samples([x]) == x.0
  {
    assert [x][..0] == [];
  }

  lemma ExtendedIs(index: nat)
    ensures Extended(index) == Low(index) + MAX_SEQUENCE_NUMBER * At(index).roc
  {
  }

  lemma ReadInOrder(b: Buffered, last: Option<nat>)
    requires IsValid(b) && Caught(b, last) && b.pcmLen > 0
    ensures Caught(Taken(b).0, last)
    ensures Samples(b.pcms) == Leaving(b, Read) + Samples(Taken(b).0.pcms)
  {
    hide Drain, Samples, Update, Extended;
    TakenSamples(b);
    MinBounds(b.pcmLen, |Samples(b.pcms)|);
    if b.filled {
      assert last.Some?;
      DrainBounded(b.pcms, [], b.pcmLen, Extended(last.value));
      var rest := Drain(b.pcms, [], b.pcmLen).1;
      assert Taken(b).0.pcms == rest && Taken(b).0.roc == b.roc;
    } else {
      assert [] + Samples(b.pcms) == Samples(b.pcms);
    }
  }

  /** All the samples of a run in the order they went out or will. */
  function Stream(pcmLen: nat, transcode: bool, es: seq<Event>): Pcm
    requires pcmLen > 0
  {
    Output(pcmLen, transcode, es) + Samples(Run(pcmLen, transcode, es).pcms)
  }

  /** Over every run with its packets in order the counter stays right. */
  lemma {:induction false} InOrderCaught(pcmLen: nat, transcode: bool, es: seq<Event>, idx: seq<nat>)
    requires pcmLen > 0 && |idx| == |es| && InOrder(es, idx)
    ensures Caught(Run(pcmLen, transcode, es), LastIndex(es, idx))
  {
    hide Caught, Added, Taken, Follows;
    if es == [] {
      NothingYet(pcmLen, transcode);
    } else {
      var n := |es| - 1;
      InOrderCaught(pcmLen, transcode, es[..n], idx[..n]);
      SamplesAreConserved(pcmLen, transcode, es[..n]);
      match es[n] {
        case Packet(_, _, _, _) =>
          PacketInOrder(Run(pcmLen, transcode, es[..n]), LastIndex(es[..n], idx[..n]), es[n], idx[n]);
        case Read => ReadInOrder(Run(pcmLen, transcode, es[..n]), LastIndex(es[..n], idx[..n]));
      }
    }
  }

  /** After every run with its packets in order, a read keeps the stream, and the next packet's
      samples go into it right before those of the chunks tied with it. That is at its end unless the
      packet is the 0 right after a 65535 still queued; with some overtaken, the stream is as if the
      packet had gone to the end exactly when it does not matter which of the two comes first. */
  lemma StreamGrows(pcmLen: nat, transcode: bool, es: seq<Event>, idx: seq<nat>, e: Event, index: nat)
    requires pcmLen > 0 && |idx| == |es| && InOrder(es + [e], idx + [index])
    ensures var b := Run(pcmLen, transcode, es);
            var (p, tied, was) := (Entering(b, e), Overtaken(b, e, index), Stream(pcmLen, transcode, es));
            var now := Stream(pcmLen, transcode, es + [e]);
            && |tied| <= |was| && was[|was| - |tied|..] == tied
            && now == was[..|was| - |tied|] + p + tied
            && (now == was + p <==> p + tied == tied + p)
            && (tied != [] ==> LastIndex(es, idx) == Some(index - 1) && Low(index) == 0)
  {
    hide *;
    InOrderFront(es, idx, e, index);
    var b := Run(pcmLen, transcode, es);
    InOrderCaught(pcmLen, transcode, es, idx);
    SamplesAreConserved(pcmLen, transcode, es);
    StreamAfter(pcmLen, transcode, es, e);
    StepInOrder(b, LastIndex(es, idx), e, index);
    var out := Output(pcmLen, transcode, es);
    InsertedBefore(out, Leaving(b, e), Preceding(b, e, index), Entering(b, e), Overtaken(b, e, index),
                   Samples(b.pcms), Samples(Step(b, e).pcms));
  }

  lemma StreamAfter(pcmLen: nat, transcode: bool, es: seq<Event>, e: Event)
    requires pcmLen > 0
    ensures var b := Run(pcmLen, transcode, es);
            && Stream(pcmLen, transcode, es) == Output(pcmLen, transcode, es) + Samples(b.pcms)
            && Stream(pcmLen, transcode, es + [e])
               == Output(pcmLen, transcode, es) + Leaving(b, e) + Samples(Step(b, e).pcms)
  {
    hide Step, Leaving, Samples;
    assert (es + [e])[..|es|] == es;
  }

  /** One event in order: what leaves and what stays is what was there, with the new samples put in. */
  lemma StepInOrder(b: Buffered, last: Option<nat>, e: Event, index: nat)
    requires IsValid(b) && Caught(b, last) && b.pcmLen > 0
    requires e.Packet? ==> e.seqnum == Low(index) && Epoch(index) < ROC_LIMIT && Follows(last, index)
    ensures b.roc.roc < ROC_LIMIT
    ensures Samples(b.pcms) == Preceding(b, e, index) + Overtaken(b, e, index)
    ensures Leaving(b, e) + Samples(Step(b, e).pcms) == Preceding(b, e, index) + Entering(b, e) + Overtaken(b, e, index)
    ensures Overtaken(b, e, index) != [] ==> last == Some(index - 1) && Low(index) == 0
  {
    hide Caught, Added, Taken, Samples, Accepts, Follows, IsValid, Tied;
    RocIsBelow(b);
    match e {
      case Packet(_, _, _, _) =>
        PacketInOrder(b, last, e, index);
        NothingLeaves(b, e);
        TiedOnlyAtWrap(b, last, e, index);
        assert [] + Samples(Step(b, e).pcms) == Samples(Step(b, e).pcms);
      case Read =>
        ReadInOrder(b, last);
        NothingEnters(b);
        assert Samples(b.pcms) + [] == Samples(b.pcms) && Samples(b.pcms) + [] + [] == Samples(b.pcms);
    }
  }

  lemma InsertedBefore(out: Pcm, leaving: Pcm, preceding: Pcm, p: Pcm, tied: Pcm, before: Pcm, after: Pcm)
    requires before == preceding + tied && leaving + after == preceding + p + tied
    ensures var (was, now) := (out + before, out + leaving + after);
            && |tied| <= |was| && was[|was| - |tied|..] == tied
            && now == was[..|was| - |tied|] + p + tied
            && (now == was + p <==> p + tied == tied + p)
  {
    var (was, now) := (out + before, out + leaving + after);
    var x := out + preceding;
    assert was == x + tied && was[..|was| - |tied|] == x;
    assert now == out + (leaving + after) && now == x + p + tied;
    Commutes(x, p, tied);
  }

  lemma InOrderFront(es: seq<Event>, idx: seq<nat>, e: Event, index: nat)
    requires |idx| == |es| && InOrder(es + [e], idx + [index])
    ensures InOrder(es, idx)
    ensures e.Packet? ==> e.seqnum == Low(index) && Epoch(index) < ROC_LIMIT && Follows(LastIndex(es, idx), index)
  {
    assert (es + [e])[..|es|] == es && (idx + [index])[..|es|] == idx;
  }

  lemma TiedOnlyAtWrap(b: Buffered, last: Option<nat>, e: Event, index: nat)
    requires IsValid(b) && Caught(b, last) && e.Packet? && Epoch(index) < ROC_LIMIT && Follows(last, index)
    ensures Overtaken(b, e, index) != [] ==> last.Some? && index == last.value + 1 && Low(index) == 0
  {
    CaughtUpdate(b, last, index);
  }

  lemma Commutes(x: Pcm, p: Pcm, t: Pcm)
    ensures x + p + t == x + t + p <==> p + t == t + p
  {
    assert (x + p + t)[|x|..] == p + t && (x + t + p)[|x|..] == t + p;
    assert x + p + t == x + (p + t) && x + t + p == x + (t + p);
  }

  /** No accepted packet finds its own number on the chunk in front of the queue. */
  ghost predicate NeverTied(pcmLen: nat, transcode: bool, es: seq<Event>, idx: seq<nat>)
    requires pcmLen > 0 && |idx| == |es|
  {
    forall n :: 0 <= n < |es| && es[n].Packet? ==>
      var b := Run(pcmLen, transcode, es[..n]);
      Accepts(b, es[n].pcm, es[n].hadSound) ==> b.pcms == [] || b.pcms[0].1 != Extended(idx[n])
  }

  /** Over every run with its packets in order and none tied, wraps or not, the samples given out are
      exactly the samples let in, in the same order, up to those still queued. */
  lemma {:induction false} InOrderStreamIsExact(pcmLen: nat, transcode: bool, es: seq<Event>, idx: seq<nat>)
    requires pcmLen > 0 && |idx| == |es| && InOrder(es, idx) && NeverTied(pcmLen, transcode, es, idx)
    ensures Intake(pcmLen, transcode, es) == Output(pcmLen, transcode, es) + Samples(Run(pcmLen, transcode, es).pcms)
  {
    hide Entering, Run, Samples;
    if es == [] {
      NothingYet(pcmLen, transcode);
    } else {
      var n := |es| - 1;
      var (before, front) := (es[..n], idx[..n]);
      assert es == before + [es[n]] && idx == front + [idx[n]];
      NeverTiedFront(pcmLen, transcode, es, idx);
      InOrderFront(before, front, es[n], idx[n]);
      InOrderStreamIsExact(pcmLen, transcode, before, front);
      StreamGrows(pcmLen, transcode, before, front, es[n], idx[n]);
      var was := Stream(pcmLen, transcode, before);
      assert was[..|was|] == was && was + Entering(Run(pcmLen, transcode, before), es[n]) + []
          == was + Entering(Run(pcmLen, transcode, before), es[n]);
    }
  }

  lemma NeverTiedFront(pcmLen: nat, transcode: bool, es: seq<Event>, idx: seq<nat>)
    requires pcmLen > 0 && |idx| == |es| && es != [] && NeverTied(pcmLen, transcode, es, idx)
    ensures var n := |es| - 1;
            && NeverTied(pcmLen, transcode, es[..n], idx[..n])
            && Overtaken(Run(pcmLen, transcode, es[..n]), es[n], idx[n]) == []
  {
    hide Run, Accepts, Extended;
    var n := |es| - 1;
    forall m | 0 <= m < n
      ensures es[..n][m] == es[m] && es[..n][..m] == es[..m]
    {
    }
    var b := Run(pcmLen, transcode, es[..n]);
    assert b.pcms[..0] == [] && Samples([]) == [];
  }

  lemma NothingYet(pcmLen: nat, transcode: bool)
    requires pcmLen > 0
    ensures Caught(Start(pcmLen, transcode), None)
    ensures Run(pcmLen, transcode, []) == Start(pcmLen, transcode) && Samples(Start(pcmLen, transcode).pcms) == []
  {
  }

  lemma NothingLeaves(b: Buffered, e: Event)
    requires e.Packet?
    ensures Leaving(b, e) == []
  {
  }

  lemma NothingEnters(b: Buffered)
    ensures Entering(b, Read) == [] && Overtaken(b, Read, 0) == []
  {
  }

  // ----- streams out of order -----

  type Chunk = (Pcm, nat)

  function PushAll(q: Queue<Pcm>, items: seq<Chunk>): Queue<Pcm>
    decreases |items|
  {
    if items == [] then q else PushAll(Pushed(q, items[0].0, items[0].1), items[1..])
  }

  /** One number never stands for two different chunks. */
  ghost predicate Named(items: multiset<Chunk>) {
    forall x, y :: x in items && y in items && x.1 == y.1 ==> x == y
  }

  lemma {:induction false} PushAllKeeps(q: Queue<Pcm>, items: seq<Chunk>)
    requires Ordered(q)
    ensures Ordered(PushAll(q, items))
    ensures multiset(PushAll(q, items)) == multiset(q) + multiset(items)
    decreases |items|
  {
    hide Pushed, Ordered;
    if items != [] {
      var (item, n) := items[0];
      PushKeepsOrder(q, item, n);
      PushAdds(q, item, n);
      PushAllKeeps(Pushed(q, item, n), items[1..]);
      assert items == [items[0]] + items[1..];
    }
  }

  lemma HeadIsLargest(a: Queue<Pcm>, b: Queue<Pcm>)
    requires a != [] && Ordered(a) && Ordered(b) && multiset(a) == multiset(b) && Named(multiset(a))
    ensures b != [] && a[0] == b[0]
  {
    assert a[0] in multiset(a);
    assert b[0] in multiset(b);
    assert a[0] in b && b[0] in a;
  }

  /** There is one ordered queue of given chunks. */
  lemma {:induction false} OrderIsUnique(a: Queue<Pcm>, b: Queue<Pcm>)
    requires Ordered(a) && Ordered(b) && multiset(a) == multiset(b) && Named(multiset(a))
    ensures a == b
    decreases |a|
  {
    if a == [] {
      assert multiset(b) == multiset([]);
      assert |multiset(b)| == |b|;
    } else {
      HeadIsLargest(a, b);
      TailOf(a);
      TailOf(b);
      OrderIsUnique(a[1..], b[1..]);
    }
  }

  lemma TailOf(a: Queue<Pcm>)
    requires a != [] && Ordered(a)
    ensures Ordered(a[1..]) && multiset(a[1..]) == multiset(a) - multiset{a[0]}
  {
    assert a == [a[0]] + a[1..];
  }

  /** The queue does not depend on the order in which chunks are put in. */
  lemma ArrivalOrderIrrelevant(q: Queue<Pcm>, a: seq<Chunk>, b: seq<Chunk>)
    requires Ordered(q) && multiset(a) == multiset(b) && Named(multiset(q) + multiset(a))
    ensures PushAll(q, a) == PushAll(q, b)
  {
    hide Ordered, PushAll;
    PushAllKeeps(q, a);
    PushAllKeeps(q, b);
    OrderIsUnique(PushAll(q, a), PushAll(q, b));
  }

  /** The samples of chunks one after the other. */
  function Flatten(items: seq<Chunk>): Pcm {
    if items == [] then [] else items[0].0 + Flatten(items[1..])
  }

  ghost predicate Increasing(items: seq<Chunk>) {
    forall i, j :: 0 <= i < j < |items| ==> items[i].1 < items[j].1
  }

  function Reversed(items: seq<Chunk>): (r: Queue<Pcm>)
    ensures |r| == |items| && forall i :: 0 <= i < |r| ==> r[i] == items[|items| - 1 - i]
  {
    if items == [] then [] else Reversed(items[1..]) + [items[0]]
  }

  lemma {:induction false} ReversedKeeps(items: seq<Chunk>)
    ensures multiset(Reversed(items)) == multiset(items)
    ensures Samples(Reversed(items)) == Flatten(items)
  {
    if items != [] {
      ReversedKeeps(items[1..]);
      assert items == [items[0]] + items[1..];
      SamplesConcat(Reversed(items[1..]), [items[0]]);
      SamplesOfOne(items[0]);
    }
  }

  lemma IncreasingIsNamed(items: seq<Chunk>)
    requires Increasing(items)
    ensures Named(multiset(items)) && Ordered(Reversed(items))
  {
    forall x, y | x in multiset(items) && y in multiset(items) && x.1 == y.1
      ensures x == y
    {
      var i :| 0 <= i < |items| && items[i] == x;
      var j :| 0 <= j < |items| && items[j] == y;
    }
  }

  /** Chunks that have arrived in any order leave, with those queued before, in the order of their numbers. */
  lemma LeaveInOrder(q: Queue<Pcm>, items: seq<Chunk>, arrived: seq<Chunk>)
    requires Ordered(q) && Increasing(items) && multiset(q) + multiset(arrived) == multiset(items)
    ensures Samples(PushAll(q, arrived)) == Flatten(items)
  {
    hide Ordered, PushAll, Named, Samples, Increasing;
    IncreasingIsNamed(items);
    ReversedKeeps(items);
    PushAllKeeps(q, arrived);
    OrderIsUnique(Reversed(items), PushAll(q, arrived));
  }

  /** A packet with its index; `None` when decoding failed. */
  datatype Arrival = Arrival(index: nat, payload: Buffer, pcm: Option<Pcm>, hadSound: bool)

  /** The buffer after packets that arrive with no read between them. */
  ghost function Arrive(b: Buffered, ps: seq<Arrival>): Buffered
    requires IsValid(b)
    decreases |ps|
  {
    if ps == [] then b
    else
      AddedIsValid(b, Low(ps[0].index), ps[0].payload, ps[0].pcm, ps[0].hadSound);
      Arrive(Added(b, Low(ps[0].index), ps[0].payload, ps[0].pcm, ps[0].hadSound), ps[1..])
  }

  /** The chunks let in, each under the extended number of its own index. */
  ghost function LetIn(b: Buffered, ps: seq<Arrival>): seq<Chunk>
    requires IsValid(b)
    decreases |ps|
  {
    if ps == [] then []
    else
      AddedIsValid(b, Low(ps[0].index), ps[0].payload, ps[0].pcm, ps[0].hadSound);
      (if Accepts(b, ps[0].pcm, ps[0].hadSound) then [(ps[0].pcm.value, Extended(ps[0].index))] else [])
      + LetIn(Added(b, Low(ps[0].index), ps[0].payload, ps[0].pcm, ps[0].hadSound), ps[1..])
  }

  /** Each packet is within 100 of the one before, the first within 100 of `last`, or unwrapped. */
  predicate Near(last: Option<nat>, ps: seq<Arrival>)
    decreases |ps|
  {
    ps != [] ==>
      && Epoch(ps[0].index) < ROC_LIMIT
      && (match last
          case None => Epoch(ps[0].index) == 0
          case Some(i) => Epoch(i) < ROC_LIMIT && Distance(i, ps[0].index) <= MAX_ROC_DISORDER)
      && Near(Some(ps[0].index), ps[1..])
  }

  function StateAt(last: Option<nat>): RocState {
    match last
    case None => UNSTARTED
    case Some(i) => At(i)
  }

  /** Packets out of order by no more than 100 are queued as the chunks they are. */
  lemma {:induction false} ArrivalsAreQueued(b: Buffered, last: Option<nat>, ps: seq<Arrival>)
    requires IsValid(b) && b.roc == StateAt(last) && Near(last, ps)
    ensures Arrive(b, ps).pcms == PushAll(b.pcms, LetIn(b, ps))
    decreases |ps|
  {
    hide IsValid, Update, Extended, Pushed;
    if ps != [] {
      var p := ps[0];
      AddedIsValid(b, Low(p.index), p.payload, p.pcm, p.hadSound);
      RocIsBelow(b);
      NearStep(last, p.index);
      ExtendedIs(p.index);
      var c := Added(b, Low(p.index), p.payload, p.pcm, p.hadSound);
      var rest := LetIn(c, ps[1..]);
      ArrivalsAreQueued(c, Some(p.index), ps[1..]);
      if Accepts(b, p.pcm, p.hadSound) {
        assert ([(p.pcm.value, Extended(p.index))] + rest)[1..] == rest;
      } else {
        assert [] + rest == rest;
      }
    }
  }

  lemma NearStep(last: Option<nat>, index: nat)
    requires Epoch(index) < ROC_LIMIT
    requires match last
             case None => Epoch(index) == 0
             case Some(i) => Epoch(i) < ROC_LIMIT && Distance(i, index) <= MAX_ROC_DISORDER
    ensures StateAt(last).roc < ROC_LIMIT
    ensures Update(StateAt(last), 0, Low(index), ROC_LIMIT) == At(index)
  {
    if last.Some? {
      StepExact(last.value, index, 0, ROC_LIMIT);
    }
  }

  /** Reordering is undone: between two reads, packets that let in the same chunks leave the same
      queue, in whatever order within 100 they arrive, when no number stands for two chunks. */
  lemma ReorderingIsUndone(b: Buffered, last: Option<nat>, ps: seq<Arrival>, qs: seq<Arrival>)
    requires IsValid(b) && b.roc == StateAt(last) && Near(last, ps) && Near(last, qs)
    requires multiset(LetIn(b, ps)) == multiset(LetIn(b, qs))
    requires Named(multiset(b.pcms) + multiset(LetIn(b, ps)))
    ensures Arrive(b, ps).pcms == Arrive(b, qs).pcms
  {
    hide Arrive, LetIn, Near, Named, IsValid;
    ArrivalsAreQueued(b, last, ps);
    ArrivalsAreQueued(b, last, qs);
    ChunksOf(b);
    ArrivalOrderIrrelevant(b.pcms, LetIn(b, ps), LetIn(b, qs));
  }

  /** And they leave, with what was queued, in the order of their numbers, however they arrived. */
  lemma ReorderedLeaveInOrder(b: Buffered, last: Option<nat>, ps: seq<Arrival>, items: seq<Chunk>)
    requires IsValid(b) && b.roc == StateAt(last) && Near(last, ps)
    requires Increasing(items) && multiset(b.pcms) + multiset(LetIn(b, ps)) == multiset(items)
    ensures Samples(Arrive(b, ps).pcms) == Flatten(items)
  {
    hide Arrive, LetIn, Near, IsValid, Samples, Flatten;
    ArrivalsAreQueued(b, last, ps);
    ChunksOf(b);
    LeaveInOrder(b.pcms, items, LetIn(b, ps));
  }

  // ----- whole runs out of order -----

  /** The number every queued sample was let in under, in the order the samples will leave. */
  function Numbers(q: Queue<Pcm>): (ns: seq<nat>)
    ensures |ns| == |Samples(q)|
  {
    if q == [] then []
    else Repeated(q[|q| - 1].1, |q[|q| - 1].0|) + Numbers(q[..|q| - 1])
  }

  function Repeated(n: nat, times: nat): (r: seq<nat>)
    ensures |r| == times && forall i :: 0 <= i < times ==> r[i] == n
  {
    seq(times, _ => n)
  }

  /** The number a packet is queued under. */
  function NumberOf(b: Buffered, e: Event): nat
    requires b.roc.roc < ROC_LIMIT
  {
    if e.Packet? then e.seqnum + MAX_SEQUENCE_NUMBER * Update(b.roc, 0, e.seqnum, ROC_LIMIT).roc else 0
  }

  /** The numbers of the samples an event gives out. */
  function NumbersLeaving(b: Buffered, e: Event): (ns: seq<nat>)
    ensures |ns| == |Leaving(b, e)|
  {
    if e.Read? && b.filled then Numbers(b.pcms)[..Min(b.pcmLen, |Samples(b.pcms)|)] else []
  }

  /** The numbers of all samples given out over a run, one for each. */
  function NumbersOut(pcmLen: nat, transcode: bool, es: seq<Event>): (ns: seq<nat>)
    requires pcmLen > 0
    ensures |ns| == |Output(pcmLen, transcode, es)|
  {
    if es == [] then []
    else
      var before := es[..|es| - 1];
      NumbersOut(pcmLen, transcode, before) + NumbersLeaving(Run(pcmLen, transcode, before), es[|es| - 1])
  }

  ghost predicate Rising(ns: seq<nat>) {
    forall i, j :: 0 <= i < j < |ns| ==> ns[i] <= ns[j]
  }

  /** A packet is let in although a sample with a larger number has left. */
  predicate Late(pcmLen: nat, transcode: bool, before: seq<Event>, e: Event)
    requires pcmLen > 0
  {
    var (b, out) := (Run(pcmLen, transcode, before), NumbersOut(pcmLen, transcode, before));
    e.Packet? && Accepts(b, e.pcm, e.hadSound) && out != [] && NumberOf(b, e) < out[|out| - 1]
  }

  predicate NeverLate(pcmLen: nat, transcode: bool, es: seq<Event>)
    requires pcmLen > 0
  {
    es == []
    || (NeverLate(pcmLen, transcode, es[..|es| - 1]) && !Late(pcmLen, transcode, es[..|es| - 1], es[|es| - 1]))
  }

  lemma NumbersFromLast(rest: Queue<Pcm>, p: Pcm, n: nat)
    ensures Numbers(rest + [(p, n)]) == Repeated(n, |p|) + Numbers(rest)
  {
    assert (rest + [(p, n)])[..|rest|] == rest;
  }

  lemma DropRepeated(n: nat, times: nat, k: nat, rest: seq<nat>)
    requires k <= times + |rest|
    ensures (Repeated(n, times) + rest)[k..] == if k <= times then Repeated(n, times - k) + rest else rest[k - times..]
    ensures Repeated(n, 0) + rest == rest
  {
  }

  /** Re-slicing takes the numbers off the front, like the samples. */
  lemma {:induction false} DrainTakesNumbers(q: Queue<Pcm>, pcm: Pcm, len: nat)
    requires |pcm| < len && Ordered(q) && NonEmptyChunks(q)
    ensures Numbers(Drain(q, pcm, len).1) == Numbers(q)[Min(len - |pcm|, |Samples(q)|)..]
    decreases |q|
  {
    if q != [] {
      hide Samples, Numbers, Ordered, NonEmptyChunks, Pushed, Repeated;
      var (rest, (p, n)) := (q[..|q| - 1], q[|q| - 1]);
      assert q == rest + [(p, n)];
      FrontOfQueue(rest, (p, n));
      if |p| + |pcm| > len {
        RemainderGoesBack(rest, p, n, len - |pcm|);
        NumbersCut(rest, p, n, len - |pcm|);
        SamplesFromLast(rest, p, n);
      } else if |p| + |pcm| == len {
        NumbersBehind(rest, p, n, 0);
        SamplesFromLast(rest, p, n);
      } else {
        DrainTakesNumbers(rest, pcm + p, len);
        NumbersBehind(rest, p, n, Min(len - |pcm + p|, |Samples(rest)|));
        SamplesFromLast(rest, p, n);
      }
    }
  }

  lemma NumbersCut(rest: Queue<Pcm>, p: Pcm, n: nat, k: nat)
    requires k <= |p|
    ensures Numbers(rest + [(p[k..], n)]) == Numbers(rest + [(p, n)])[k..]
  {
    hide Numbers, Samples, Repeated;
    NumbersFromLast(rest, p, n);
    NumbersFromLast(rest, p[k..], n);
    DropRepeated(n, |p|, k, Numbers(rest));
  }

  lemma NumbersBehind(rest: Queue<Pcm>, p: Pcm, n: nat, k: nat)
    requires k <= |Samples(rest)|
    ensures |Numbers(rest + [(p, n)])| >= |p| + k
    ensures Numbers(rest + [(p, n)])[|p| + k..] == Numbers(rest)[k..]
  {
    hide Numbers, Samples, Repeated;
    NumbersFromLast(rest, p, n);
    DropRepeated(n, |p|, |p| + k, Numbers(rest));
  }

  lemma FrontOfQueue(rest: Queue<Pcm>, x: Chunk)
    requires Ordered(rest + [x]) && NonEmptyChunks(rest + [x])
    ensures Ordered(rest) && NonEmptyChunks(rest)
  {
    var q := rest + [x];
    assert forall i :: 0 <= i < |rest| ==> q[i] == rest[i];
  }

  ghost predicate Holds(q: Queue<Pcm>, n: nat) { exists i :: 0 <= i < |q| && q[i].1 == n }

  lemma HoldsFromLast(q: Queue<Pcm>, n: nat)
    ensures Holds(q, n) <==> q != [] && (q[|q| - 1].1 == n || Holds(q[..|q| - 1], n))
  {
    if q != [] {
      var rest := q[..|q| - 1];
      assert forall i :: 0 <= i < |rest| ==> rest[i] == q[i];
      if i :| 0 <= i < |q| && q[i].1 == n {
        assert i < |rest| ==> rest[i].1 == n;
      }
      if i :| 0 <= i < |rest| && rest[i].1 == n {
        assert q[i].1 == n;
      }
    }
  }

  lemma InRepeated(n: nat, times: nat, m: nat)
    ensures m in Repeated(n, times) <==> times > 0 && m == n
  {
    if times > 0 {
      assert Repeated(n, times)[0] == n;
    }
  }

  lemma {:induction false} NumbersAreQueued(q: Queue<Pcm>, n: nat)
    requires NonEmptyChunks(q)
    ensures n in Numbers(q) <==> Holds(q, n)
  {
    hide Holds, Repeated;
    HoldsFromLast(q, n);
    if q != [] {
      var (rest, last) := (q[..|q| - 1], q[|q| - 1]);
      NumbersAreQueued(rest, n);
      InRepeated(last.1, |last.0|, n);
    }
  }

  /** A queue in order gives its samples out in order. */
  lemma {:induction false} QueueRises(q: Queue<Pcm>)
    requires Ordered(q) && NonEmptyChunks(q)
    ensures Rising(Numbers(q))
  {
    if q != [] {
      var (rest, last) := (q[..|q| - 1], q[|q| - 1]);
      QueueRises(rest);
      forall j | 0 <= j < |Numbers(rest)|
        ensures last.1 <= Numbers(rest)[j]
      {
        NumbersAreQueued(rest, Numbers(rest)[j]);
        assert Numbers(rest)[j] in Numbers(rest);
      }
      RisingConcat(Repeated(last.1, |last.0|), Numbers(rest));
    }
  }

  /** One run of numbers behind another rises exactly when both do and none of the second is below the first. */
  lemma RisingConcat(a: seq<nat>, b: seq<nat>)
    ensures Rising(a + b) <==> Rising(a) && Rising(b) && forall i, j :: 0 <= i < |a| && 0 <= j < |b| ==> a[i] <= b[j]
  {
    var c := a + b;
    if Rising(c) {
      assert forall i :: 0 <= i < |a| ==> a[i] == c[i];
      assert forall j :: 0 <= j < |b| ==> b[j] == c[|a| + j];
    }
  }

  /** The numbers of all the samples of a run in the order they went out or will. */
  function NumberStream(pcmLen: nat, transcode: bool, es: seq<Event>): seq<nat>
    requires pcmLen > 0
  {
    NumbersOut(pcmLen, transcode, es) + Numbers(Run(pcmLen, transcode, es).pcms)
  }

  /** A chunk put into the queue keeps what has left before all that is queued exactly when its number
      is not below the last that has left. */
  lemma PushKeepsRising(out: seq<nat>, q: Queue<Pcm>, item: Pcm, n: nat)
    requires Ordered(q) && NonEmptyChunks(q) && item != []
    ensures Rising(out + Numbers(Pushed(q, item, n)))
       <==> Rising(out + Numbers(q)) && (out == [] || out[|out| - 1] <= n)
  {
    hide Numbers, Rising, NonEmptyChunks, Ordered, Pushed;
    var r := Pushed(q, item, n);
    PushKeepsOrder(q, item, n);
    PushKeepsChunks(q, item, n);
    QueueRises(q);
    QueueRises(r);
    RisingConcat(out, Numbers(q));
    RisingConcat(out, Numbers(r));
    forall m
      ensures m in Numbers(r) <==> m in Numbers(q) || m == n
    {
      PushedNumber(q, item, n, m);
    }
    AboveAll(out, Numbers(q));
    AboveAll(out, Numbers(r));
    if Rising(out) && out != [] {
      var last := out[|out| - 1];
      assert (forall m :: m in Numbers(r) ==> last <= m)
        <==> (forall m :: m in Numbers(q) ==> last <= m) && last <= n by {
        assert n in Numbers(r);
      }
    }
  }

  lemma PushedNumber(q: Queue<Pcm>, item: Pcm, n: nat, m: nat)
    requires NonEmptyChunks(q) && item != []
    ensures m in Numbers(Pushed(q, item, n)) <==> m in Numbers(q) || m == n
  {
    hide Numbers, NonEmptyChunks, Pushed;
    var r := Pushed(q, item, n);
    PushKeepsChunks(q, item, n);
    PushAdds(q, item, n);
    NumbersAreQueued(q, m);
    NumbersAreQueued(r, m);
    forall x: Chunk
      ensures x in r <==> x in q || x == (item, n)
    {
      assert x in r <==> x in multiset(r);
      assert x in q <==> x in multiset(q);
    }
    if i :| 0 <= i < |r| && r[i].1 == m {
      assert r[i] in r;
    }
    if i :| 0 <= i < |q| && q[i].1 == m {
      assert q[i] in r;
    }
    assert (item, n) in r;
  }

  /** When the numbers that have left rise, the last of them decides. */
  lemma AboveAll(a: seq<nat>, b: seq<nat>)
    ensures Rising(a) ==>
      ((forall i, j :: 0 <= i < |a| && 0 <= j < |b| ==> a[i] <= b[j])
       <==> a == [] || forall m :: m in b ==> a[|a| - 1] <= m)
  {
    if Rising(a) && a != [] && forall m :: m in b ==> a[|a| - 1] <= m {
      forall i, j | 0 <= i < |a| && 0 <= j < |b|
        ensures a[i] <= b[j]
      {
        assert b[j] in b;
        assert i < |a| - 1 ==> a[i] <= a[|a| - 1];
      }
    }
  }

  lemma ReadKeepsNumbers(b: Buffered)
    requires IsValid(b) && b.pcmLen > 0
    ensures NumbersLeaving(b, Read) + Numbers(Taken(b).0.pcms) == Numbers(b.pcms)
  {
    hide Drain, Samples, Numbers, Min, Ordered, NonEmptyChunks;
    if b.filled {
      ChunksOf(b);
      DrainTakesNumbers(b.pcms, [], b.pcmLen);
      MinBounds(b.pcmLen, |Samples(b.pcms)|);
    } else {
      assert [] + Numbers(b.pcms) == Numbers(b.pcms);
    }
  }

  lemma PacketStep(pcmLen: nat, transcode: bool, es: seq<Event>)
    requires pcmLen > 0 && es != [] && es[|es| - 1].Packet?
    ensures var (before, e) := (es[..|es| - 1], es[|es| - 1]);
            Rising(NumberStream(pcmLen, transcode, es))
            <==> Rising(NumberStream(pcmLen, transcode, before)) && !Late(pcmLen, transcode, before, e)
  {
    hide Run, Rising, Numbers, NumbersLeaving, IsValid, Accepts, NonEmptyChunks, Ordered, Pushed, NumberOf;
    var (before, e) := (es[..|es| - 1], es[|es| - 1]);
    var (b, out) := (Run(pcmLen, transcode, before), NumbersOut(pcmLen, transcode, before));
    SamplesAreConserved(pcmLen, transcode, before);
    StepOfRun(pcmLen, transcode, es);
    NoNumbersLeave(b, e);
    assert out + [] == out;
    if Accepts(b, e.pcm, e.hadSound) {
      ChunksOf(b);
      AcceptedHasSamples(b, e);
      PushKeepsRising(out, b.pcms, e.pcm.value, NumberOf(b, e));
    }
  }

  lemma ReadStep(pcmLen: nat, transcode: bool, es: seq<Event>)
    requires pcmLen > 0 && es != [] && es[|es| - 1].Read?
    ensures NumberStream(pcmLen, transcode, es) == NumberStream(pcmLen, transcode, es[..|es| - 1])
  {
    hide Run, Numbers, NumbersLeaving, IsValid, Taken;
    var before := es[..|es| - 1];
    var (b, out) := (Run(pcmLen, transcode, before), NumbersOut(pcmLen, transcode, before));
    SamplesAreConserved(pcmLen, transcode, before);
    StepOfRun(pcmLen, transcode, es);
    ReadKeepsNumbers(b);
    ConcatAssociates(out, NumbersLeaving(b, Read), Numbers(Taken(b).0.pcms));
  }

  lemma ConcatAssociates(a: seq<nat>, b: seq<nat>, c: seq<nat>)
    ensures a + b + c == a + (b + c)
  {
  }

  /** Over every run, reads and losses included, all samples leave, and will leave, in the order of
      their numbers exactly when no packet is let in after a sample with a larger number has left. */
  lemma {:induction false} InOrderUnlessLate(pcmLen: nat, transcode: bool, es: seq<Event>)
    requires pcmLen > 0
    ensures Rising(NumberStream(pcmLen, transcode, es)) <==> NeverLate(pcmLen, transcode, es)
  {
    hide Rising, NumberStream;
    if es == [] {
      NoNumbers(pcmLen, transcode);
    } else {
      hide Late;
      InOrderUnlessLate(pcmLen, transcode, es[..|es| - 1]);
      match es[|es| - 1] {
        case Packet(_, _, _, _) => PacketStep(pcmLen, transcode, es);
        case Read =>
          ReadStep(pcmLen, transcode, es);
          ReadIsNotLate(pcmLen, transcode, es[..|es| - 1]);
      }
    }
  }

  lemma ReadIsNotLate(pcmLen: nat, transcode: bool, before: seq<Event>)
    requires pcmLen > 0
    ensures !Late(pcmLen, transcode, before, Read)
  {
  }

  /** Event `k` of a run, if it brings a packet, brings the one with index `idx[k]`, within 100 of the last. */
  ghost predicate Tracked(es: seq<Event>, idx: seq<nat>)
    requires |idx| == |es|
  {
    es == []
    || var n := |es| - 1;
       && Tracked(es[..n], idx[..n])
       && (es[n].Packet? ==>
             && Low(idx[n]) == es[n].seqnum && Epoch(idx[n]) < ROC_LIMIT
             && match LastIndex(es[..n], idx[..n])
                case None => Epoch(idx[n]) == 0
                case Some(last) => Epoch(last) < ROC_LIMIT && Distance(last, idx[n]) <= MAX_ROC_DISORDER)
  }

  /** In such a run every packet is queued under the extended number of its true index. */
  lemma {:induction false} NumbersAreExtended(pcmLen: nat, transcode: bool, es: seq<Event>, idx: seq<nat>)
    requires pcmLen > 0 && |idx| == |es| && Tracked(es, idx)
    ensures Run(pcmLen, transcode, es).roc == StateAt(LastIndex(es, idx))
    ensures es != [] && es[|es| - 1].Packet? ==>
              NumberOf(Run(pcmLen, transcode, es[..|es| - 1]), es[|es| - 1]) == Extended(idx[|es| - 1])
  {
    hide Update, Taken, Accepts, Extended, Pushed;
    if es != [] {
      var n := |es| - 1;
      NumbersAreExtended(pcmLen, transcode, es[..n], idx[..n]);
      if es[n].Packet? {
        NearStep(LastIndex(es[..n], idx[..n]), idx[n]);
        ExtendedIs(idx[n]);
      } else {
        ReadKeepsRoc(Run(pcmLen, transcode, es[..n]));
      }
    }
  }

  lemma ReadKeepsRoc(b: Buffered)
    requires b.pcmLen > 0
    ensures Taken(b).0.roc == b.roc
  {
    hide Drain;
  }

  lemma NoNumbers(pcmLen: nat, transcode: bool)
    requires pcmLen > 0
    ensures NumberStream(pcmLen, transcode, []) == [] && Rising([])
  {
  }

  lemma NoNumbersLeave(b: Buffered, e: Event)
    requires e.Packet?
    ensures NumbersLeaving(b, e) == []
  {
  }

  lemma AcceptedHasSamples(b: Buffered, e: Event)
    requires e.Packet? && Accepts(b, e.pcm, e.hadSound)
    ensures e.pcm.Some? && e.pcm.value != []
  {
  }

  lemma StepOfRun(pcmLen: nat, transcode: bool, es: seq<Event>)
    requires pcmLen > 0 && es != []
    ensures var b := Run(pcmLen, transcode, es[..|es| - 1]);
            var c := Run(pcmLen, transcode, es);
            match es[|es| - 1]
            case Packet(seqnum, payload, pcm, hadSound) =>
              c.pcms == if Accepts(b, pcm, hadSound) then Pushed(b.pcms, pcm.value, NumberOf(b, es[|es| - 1]))
                        else b.pcms
            case Read => b.pcmLen > 0 && c == Taken(b).0
  {
    hide Update, Pushed, Taken, Accepts;
  }
}
