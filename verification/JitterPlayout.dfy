/** When the audio jitter buffer of media/src/buffer.rs plays: what it lets in, when a read gives
    samples, and the target size it fills up to, told from the events and the queue lengths of a run. */
module JitterPlayouts {
  import opened Bytes
  import opened Rollover
  import opened JitterBuffer

  /** How many chunks are queued after a run. */
  function Chunks(pcmLen: nat, transcode: bool, es: seq<Event>): nat
    requires pcmLen > 0
  {
    |Run(pcmLen, transcode, es).pcms|
  }

  /** The last event of a run takes the last chunk. */
  ghost predicate RunsDry(pcmLen: nat, transcode: bool, es: seq<Event>)
    requires pcmLen > 0
  {
    es != [] && Chunks(pcmLen, transcode, es[..|es| - 1]) > 0 && Chunks(pcmLen, transcode, es) == 0
  }

  /** After the first `k` events the queue held as many chunks as the target size, and it has not run
      dry since. */
  ghost predicate PlayingFrom(pcmLen: nat, transcode: bool, es: seq<Event>, k: nat)
    requires pcmLen > 0 && k <= |es|
    decreases |es|, 1, 0
  {
    && Chunks(pcmLen, transcode, es[..k]) >= Target(pcmLen, transcode, es[..k])
    && forall j :: k < j <= |es| ==> !RunsDry(pcmLen, transcode, es[..j])
  }

  /** Since the queue last ran dry it has held as many chunks as the target size then in force. */
  ghost predicate Playing(pcmLen: nat, transcode: bool, es: seq<Event>)
    requires pcmLen > 0
    decreases |es|, 1
  {
    exists k :: 0 <= k <= |es| && PlayingFrom(pcmLen, transcode, es, k)
  }

  /** The target size: 2 at first, one more whenever the queue runs dry, up to 10, and one less, down
      to 2, at the 501st read in a row that leaves at least two chunks. */
  ghost function Target(pcmLen: nat, transcode: bool, es: seq<Event>): nat
    requires pcmLen > 0
    decreases |es|, 0
  {
    if es == [] then 2
    else
      var before := es[..|es| - 1];
      var size := Target(pcmLen, transcode, before);
      if RunsDry(pcmLen, transcode, es) then (if size < 10 then size + 1 else 10)
      else if Abundant(pcmLen, transcode, es) && Streak(pcmLen, transcode, before) == 500 then size - 1
      else size
  }

  /** The last event is a read while playing that leaves at least two chunks, above the least target. */
  ghost predicate Abundant(pcmLen: nat, transcode: bool, es: seq<Event>)
    requires pcmLen > 0 && es != []
    decreases |es|, 0, 0
  {
    var before := es[..|es| - 1];
    && es[|es| - 1].Read? && Playing(pcmLen, transcode, before)
    && Chunks(pcmLen, transcode, es) >= 2 && Target(pcmLen, transcode, before) > 2
  }

  /** How many abundant reads there have been since the last read that left one chunk, or that made
      the target smaller. */
  ghost function Streak(pcmLen: nat, transcode: bool, es: seq<Event>): nat
    requires pcmLen > 0
    decreases |es|, 0
  {
    if es == [] then 0
    else
      var before := es[..|es| - 1];
      var streak := Streak(pcmLen, transcode, before);
      if Abundant(pcmLen, transcode, es) then (if streak == 500 then 0 else streak + 1)
      else if es[|es| - 1].Read? && Playing(pcmLen, transcode, before) && Chunks(pcmLen, transcode, es) == 1 then 0
      else streak
  }

  lemma PlayingFromStep(pcmLen: nat, transcode: bool, es: seq<Event>, k: nat)
    requires pcmLen > 0 && k < |es|
    ensures PlayingFrom(pcmLen, transcode, es, k)
       <==> PlayingFrom(pcmLen, transcode, es[..|es| - 1], k) && !RunsDry(pcmLen, transcode, es)
  {
    hide RunsDry, Chunks, Target;
    var before := es[..|es| - 1];
    assert before[..k] == es[..k] && es[..|es|] == es;
    assert forall j :: k < j <= |before| ==> before[..j] == es[..j];
  }

  lemma PlayingStep(pcmLen: nat, transcode: bool, es: seq<Event>)
    requires pcmLen > 0 && es != []
    ensures Playing(pcmLen, transcode, es)
       <==> || Chunks(pcmLen, transcode, es) >= Target(pcmLen, transcode, es)
            || (Playing(pcmLen, transcode, es[..|es| - 1]) && !RunsDry(pcmLen, transcode, es))
  {
    var before := es[..|es| - 1];
    PlayingNow(pcmLen, transcode, es);
    if Playing(pcmLen, transcode, es) {
      var k := PlayingSince(pcmLen, transcode, es);
      if k < |es| {
        PlayingFromStep(pcmLen, transcode, es, k);
      }
    }
    if Playing(pcmLen, transcode, before) && !RunsDry(pcmLen, transcode, es) {
      var k := PlayingSince(pcmLen, transcode, before);
      PlayingFromStep(pcmLen, transcode, es, k);
    }
  }

  lemma PlayingSince(pcmLen: nat, transcode: bool, es: seq<Event>) returns (k: nat)
    requires pcmLen > 0 && Playing(pcmLen, transcode, es)
    ensures k <= |es| && PlayingFrom(pcmLen, transcode, es, k)
  {
    k :| 0 <= k <= |es| && PlayingFrom(pcmLen, transcode, es, k);
  }

  lemma PlayingNow(pcmLen: nat, transcode: bool, es: seq<Event>)
    requires pcmLen > 0
    ensures PlayingFrom(pcmLen, transcode, es, |es|)
       <==> Chunks(pcmLen, transcode, es) >= Target(pcmLen, transcode, es)
  {
    hide RunsDry, Chunks, Target;
    assert es[..|es|] == es;
  }

  /** What a buffer remembers of its run. */
  ghost predicate Remembers(b: Buffered, playing: bool, size: nat, streak: nat) {
    && IsValid(b)
    && b.filled == playing && b.size == size && b.abundantTimes == streak
    && (|b.pcms| >= b.size ==> b.filled)
    && b.abundantTimes <= 500
  }

  /** A packet of which something is decoded is let in unless it is silent and the queue is long. */
  predicate LetIn(e: Event, chunks: nat, size: nat) {
    && e.Packet? && e.pcm.Some? && e.pcm.value != []
    && (e.hadSound || (chunks <= 10 && chunks <= size + 1))
  }

  lemma PacketAdds(b: Buffered, e: Event)
    requires IsValid(b) && b.pcmLen > 0 && b.roc.roc < ROC_LIMIT && e.Packet?
    ensures var (c, entered) := (Step(b, e), LetIn(e, |b.pcms|, b.size));
            && IsValid(c)
            && |c.pcms| == |b.pcms| + (if entered then 1 else 0)
            && Entering(b, e) == (if entered then e.pcm.value else [])
            && c.filled == (b.filled || (entered && |c.pcms| >= b.size))
            && c.size == b.size && c.abundantTimes == b.abundantTimes
  {
    hide IsValid, Update, Pushed;
    AddedIsValid(b, e.seqnum, e.payload, e.pcm, e.hadSound);
  }

  lemma ReadAdapts(b: Buffered)
    requires IsValid(b) && b.pcmLen > 0 && b.roc.roc < ROC_LIMIT
    ensures var (c, n) := (Step(b, Read), |Step(b, Read).pcms|);
            if !b.filled then c == b
            else
              var abundant := n >= 2 && b.size > 2;
              && IsValid(c) && b.pcms != []
              && c.filled == (n > 0)
              && c.size == (if n == 0 then if b.size < 10 then b.size + 1 else 10
                            else if abundant && b.abundantTimes >= 500 then b.size - 1 else b.size)
              && c.abundantTimes == (if abundant then if b.abundantTimes >= 500 then 0 else b.abundantTimes + 1
                                     else if n == 1 then 0 else b.abundantTimes)
  {
    hide Drain;
    TakenSamples(b);
  }

  lemma PlaysNothing(pcmLen: nat, transcode: bool)
    requires pcmLen > 0
    ensures Remembers(Run(pcmLen, transcode, []), Playing(pcmLen, transcode, []), Target(pcmLen, transcode, []),
                      Streak(pcmLen, transcode, []))
  {
    var es: seq<Event> := [];
    assert es[..0] == es;
    assert !Playing(pcmLen, transcode, es);
  }

  lemma PlaysOn(pcmLen: nat, transcode: bool, es: seq<Event>)
    requires pcmLen > 0 && es != []
    requires var before := es[..|es| - 1];
             Remembers(Run(pcmLen, transcode, before), Playing(pcmLen, transcode, before),
                       Target(pcmLen, transcode, before), Streak(pcmLen, transcode, before))
    ensures Remembers(Run(pcmLen, transcode, es), Playing(pcmLen, transcode, es),
                      Target(pcmLen, transcode, es), Streak(pcmLen, transcode, es))
  {
    hide Playing, Step, IsValid;
    var (b, e) := (Run(pcmLen, transcode, es[..|es| - 1]), es[|es| - 1]);
    PlayingStep(pcmLen, transcode, es);
    FilledIsQueued(b);
    match e {
      case Packet(_, _, _, _) => PacketAdds(b, e);
      case Read => ReadAdapts(b);
    }
  }

  lemma FilledIsQueued(b: Buffered)
    requires IsValid(b)
    ensures b.filled ==> b.pcms != []
    ensures 2 <= b.size <= 10
  {
  }

  /** Over every run: a read gives samples exactly while the buffer is playing, and the size it fills
      up to is the target. */
  lemma {:induction false} PlaysExactly(pcmLen: nat, transcode: bool, es: seq<Event>)
    requires pcmLen > 0
    ensures Remembers(Run(pcmLen, transcode, es), Playing(pcmLen, transcode, es),
                      Target(pcmLen, transcode, es), Streak(pcmLen, transcode, es))
  {
    hide Run, Playing, Target, Streak, Abundant, RunsDry;
    if es == [] {
      PlaysNothing(pcmLen, transcode);
    } else {
      PlaysExactly(pcmLen, transcode, es[..|es| - 1]);
      PlaysOn(pcmLen, transcode, es);
    }
  }

  /** Over every run: the next read gives a full slice exactly while the buffer is playing. */
  lemma ReadsWhilePlaying(pcmLen: nat, transcode: bool, es: seq<Event>)
    requires pcmLen > 0
    ensures var out := Taken(Run(pcmLen, transcode, es)).2;
            && (out.Some? <==> Playing(pcmLen, transcode, es))
            && (out.Some? ==> |out.value| == pcmLen)
  {
    hide Playing, Target, Streak, Taken, Drain, Samples;
    var b := Run(pcmLen, transcode, es);
    PlaysExactly(pcmLen, transcode, es);
    NothingTaken(b);
    if b.filled {
      ReadsSlice(b);
    }
  }

  /** Over every run: the next packet is queued, samples and all, exactly when something is decoded of
      it and it is not silence on top of a queue of more than 10 chunks or of two more than the target. */
  lemma PacketsLetIn(pcmLen: nat, transcode: bool, es: seq<Event>, e: Event)
    requires pcmLen > 0 && e.Packet?
    ensures var entered := LetIn(e, Chunks(pcmLen, transcode, es), Target(pcmLen, transcode, es));
            && Chunks(pcmLen, transcode, es + [e]) == Chunks(pcmLen, transcode, es) + (if entered then 1 else 0)
            && Intake(pcmLen, transcode, es + [e])
               == Intake(pcmLen, transcode, es) + (if entered then e.pcm.value else [])
  {
    hide Playing, Target, Streak, Step, Entering;
    assert (es + [e])[..|es|] == es;
    PlaysExactly(pcmLen, transcode, es);
    PacketAdds(Run(pcmLen, transcode, es), e);
  }

  // ----- what a read leaves of the queue -----

  /** A read takes whole chunks off the back, and of the last one it touches it leaves the end. */
  ghost predicate CutAt(q: Queue<Pcm>, r: Queue<Pcm>, m: nat, k: nat)
    requires m < |q|
  {
    var (p, n) := q[m];
    0 < k <= |p| && r == q[..m] + (if k < |p| then [(p[k..], n)] else [])
  }

  lemma {:induction false} DrainCuts(q: Queue<Pcm>, pcm: Pcm, len: nat) returns (m: nat, k: nat)
    requires |pcm| < len && q != [] && Ordered(q) && NonEmptyChunks(q)
    ensures m < |q| && CutAt(q, Drain(q, pcm, len).1, m, k)
    decreases |q|
  {
    hide Ordered, NonEmptyChunks, Pushed;
    m := |q| - 1;
    var (rest, (p, n)) := (q[..m], q[m]);
    assert q == rest + [(p, n)];
    LastChunk(rest, p, n);
    if |p| + |pcm| > len {
      k := len - |pcm|;
      RemainderGoesBack(rest, p, n, k);
    } else {
      k := |p|;
      if |p| + |pcm| < len && rest != [] {
        m, k := DrainCuts(rest, pcm + p, len);
        assert rest[..m] == q[..m] && rest[m] == q[m];
      }
    }
    assert rest + [] == rest;
  }

  lemma LastChunk(rest: Queue<Pcm>, p: Pcm, n: nat)
    requires Ordered(rest + [(p, n)]) && NonEmptyChunks(rest + [(p, n)])
    ensures Ordered(rest) && NonEmptyChunks(rest) && p != []
  {
    var q := rest + [(p, n)];
    assert forall i :: 0 <= i < |rest| ==> rest[i] == q[i];
    assert q[|rest|].0 == p;
  }

  // ----- payloads -----

  /** A packet is queued as it came, too, when nothing is transcoded and it holds exactly one slice. */
  function PayloadEntering(pcmLen: nat, transcode: bool, es: seq<Event>, e: Event): seq<Buffer>
    requires pcmLen > 0
  {
    var b := Run(pcmLen, transcode, es);
    if LetIn(e, |b.pcms|, b.size) && !transcode && |e.pcm.value| == pcmLen then [e.payload] else []
  }

  /** The payloads let in over a run. */
  function PayloadsIn(pcmLen: nat, transcode: bool, es: seq<Event>): seq<Buffer>
    requires pcmLen > 0
  {
    if es == [] then []
    else
      var before := es[..|es| - 1];
      PayloadsIn(pcmLen, transcode, before) + PayloadEntering(pcmLen, transcode, before, es[|es| - 1])
  }

  /** A read gives out at most one. */
  function PayloadLeaving(pcmLen: nat, transcode: bool, es: seq<Event>, e: Event): seq<Buffer>
    requires pcmLen > 0
  {
    var payload := if e.Read? then Taken(Run(pcmLen, transcode, es)).1 else None;
    if payload.Some? then [payload.value] else []
  }

  /** The payloads given out over a run. */
  function PayloadsOut(pcmLen: nat, transcode: bool, es: seq<Event>): seq<Buffer>
    requires pcmLen > 0
  {
    if es == [] then []
    else
      var before := es[..|es| - 1];
      PayloadsOut(pcmLen, transcode, before) + PayloadLeaving(pcmLen, transcode, before, es[|es| - 1])
  }

  function Items<I>(q: Queue<I>): (r: seq<I>)
    ensures |r| == |q|
  {
    seq(|q|, i requires 0 <= i < |q| => q[i].0)
  }

  lemma {:induction false} ItemsAfterPush<I>(q: Queue<I>, item: I, n: nat)
    ensures multiset(Items(Pushed(q, item, n))) == multiset(Items(q)) + multiset{item}
  {
    var r := Pushed(q, item, n);
    if q == [] || n > q[0].1 {
      assert Items(r) == [item] + Items(q);
    } else {
      ItemsAfterPush(q[1..], item, n);
      assert Items(r) == [q[0].0] + Items(Pushed(q[1..], item, n));
      assert Items(q) == [q[0].0] + Items(q[1..]);
    }
  }

  /** What one event does to the payloads queued. */
  lemma PayloadsAfter(b: Buffered, e: Event)
    requires b.pcmLen > 0 && b.roc.roc < ROC_LIMIT && Ordered(b.payloads)
    ensures var (q, r) := (b.payloads, Step(b, e).payloads);
            && Ordered(r)
            && match e
               case Packet(_, payload, pcm, _) =>
                 multiset(Items(r)) == multiset(Items(q))
                   + (if LetIn(e, |b.pcms|, b.size) && !b.transcode && |pcm.value| == b.pcmLen
                      then multiset{payload} else multiset{})
               case Read =>
                 match Taken(b).1
                 case None => r == q
                 case Some(payload) => |q| == |r| + 1 && q[..|r|] == r && q[|r|].0 == payload
  {
    hide Drain, Update, Pushed, Items;
    match e {
      case Packet(seqnum, payload, pcm, hadSound) =>
        var n := seqnum + MAX_SEQUENCE_NUMBER * Update(b.roc, 0, seqnum, ROC_LIMIT).roc;
        ItemsAfterPush(b.payloads, payload, n);
        PushKeepsOrder(b.payloads, payload, n);
      case Read =>
    }
  }

  lemma PayloadStep(pcmLen: nat, transcode: bool, es: seq<Event>, e: Event)
    requires pcmLen > 0 && Ordered(Run(pcmLen, transcode, es).payloads)
    ensures var b := Run(pcmLen, transcode, es);
            && Ordered(Step(b, e).payloads)
            && multiset(PayloadEntering(pcmLen, transcode, es, e)) + multiset(Items(b.payloads))
               == multiset(PayloadLeaving(pcmLen, transcode, es, e)) + multiset(Items(Step(b, e).payloads))
  {
    hide Taken, Step, Ordered, Items;
    var b := Run(pcmLen, transcode, es);
    RunKeepsTranscode(pcmLen, transcode, es);
    PayloadsAfter(b, e);
    if e.Read? && Taken(b).1.Some? {
      ItemsFromLast(b.payloads);
    }
  }

  lemma ItemsFromLast<I>(q: Queue<I>)
    requires q != []
    ensures Items(q) == Items(q[..|q| - 1]) + [q[|q| - 1].0]
  {
  }

  lemma {:induction false} RunKeepsTranscode(pcmLen: nat, transcode: bool, es: seq<Event>)
    requires pcmLen > 0
    ensures Run(pcmLen, transcode, es).transcode == transcode
  {
    hide Update, Drain, Pushed;
    if es != [] {
      RunKeepsTranscode(pcmLen, transcode, es[..|es| - 1]);
    }
  }

  /** Over every run: the payloads let in are those given out and those queued, and a read gives out the
      one with the smallest number. */
  lemma {:induction false} PayloadsAreConserved(pcmLen: nat, transcode: bool, es: seq<Event>)
    requires pcmLen > 0
    ensures Ordered(Run(pcmLen, transcode, es).payloads)
    ensures multiset(PayloadsIn(pcmLen, transcode, es))
         == multiset(PayloadsOut(pcmLen, transcode, es)) + multiset(Items(Run(pcmLen, transcode, es).payloads))
  {
    hide Step, PayloadEntering, PayloadLeaving, Items, Ordered;
    if es == [] {
      NoPayloads(pcmLen, transcode);
    } else {
      var (before, e) := (es[..|es| - 1], es[|es| - 1]);
      var b := Run(pcmLen, transcode, before);
      PayloadsAreConserved(pcmLen, transcode, before);
      PayloadStep(pcmLen, transcode, before, e);
      Balance(PayloadsIn(pcmLen, transcode, before), PayloadEntering(pcmLen, transcode, before, e),
              PayloadsOut(pcmLen, transcode, before), PayloadLeaving(pcmLen, transcode, before, e),
              Items(b.payloads), Items(Step(b, e).payloads));
    }
  }

  lemma NoPayloads(pcmLen: nat, transcode: bool)
    ensures var q := Start(pcmLen, transcode).payloads;
            Ordered(q) && Items(q) == []
  {
  }

  // ----- payloads and samples -----

  /** Every packet that decodes decodes to exactly one slice, always the same one. */
  ghost predicate WholeSlices(pcmLen: nat, es: seq<Event>, decode: Buffer -> Pcm) {
    forall i :: 0 <= i < |es| && es[i].Packet? && es[i].pcm.Some? ==>
      es[i].pcm.value == decode(es[i].payload) && |es[i].pcm.value| == pcmLen
  }

  function Decoded(q: Queue<Buffer>, decode: Buffer -> Pcm): (r: Queue<Pcm>)
    ensures |r| == |q|
  {
    seq(|q|, i requires 0 <= i < |q| => (decode(q[i].0), q[i].1))
  }

  lemma {:induction false} PushDecoded(q: Queue<Buffer>, payload: Buffer, n: nat, decode: Buffer -> Pcm)
    ensures Decoded(Pushed(q, payload, n), decode) == Pushed(Decoded(q, decode), decode(payload), n)
  {
    var (r, x) := (Decoded(q, decode), (decode(payload), n));
    if q == [] || n > q[0].1 {
      assert Decoded(Pushed(q, payload, n), decode) == [x] + r;
    } else {
      PushDecoded(q[1..], payload, n, decode);
      assert r[1..] == Decoded(q[1..], decode);
      assert Decoded(Pushed(q, payload, n), decode) == [r[0]] + Decoded(Pushed(q[1..], payload, n), decode);
    }
  }

  /** The chunks queued are the payloads queued, decoded, and each is one slice. */
  ghost predicate Aligned(b: Buffered, decode: Buffer -> Pcm) {
    b.pcms == Decoded(b.payloads, decode) && forall i :: 0 <= i < |b.pcms| ==> |b.pcms[i].0| == b.pcmLen
  }

  lemma {:induction false} PushKeepsSlices(q: Queue<Pcm>, p: Pcm, n: nat, len: nat)
    requires |p| == len && forall i :: 0 <= i < |q| ==> |q[i].0| == len
    ensures forall i :: 0 <= i < |q| + 1 ==> |Pushed(q, p, n)[i].0| == len
  {
    if q != [] && n <= q[0].1 {
      PushKeepsSlices(q[1..], p, n, len);
    }
  }

  lemma AlignedTake(b: Buffered, decode: Buffer -> Pcm)
    requires IsValid(b) && b.pcmLen > 0 && Aligned(b, decode)
    ensures var (c, payload, out) := Taken(b);
            && Aligned(c, decode)
            && out == if payload.Some? then Some(decode(payload.value)) else None
  {
    if b.filled {
      var n := |b.pcms| - 1;
      assert b.pcms[n] == (decode(b.payloads[n].0), b.payloads[n].1);
      assert [] + b.pcms[n].0 == b.pcms[n].0;
      assert Drain(b.pcms, [], b.pcmLen) == (b.pcms[n].0, b.pcms[..n]);
      assert Decoded(b.payloads[..n], decode) == b.pcms[..n];
    }
  }

  lemma AlignedPacket(b: Buffered, e: Event, decode: Buffer -> Pcm)
    requires e.Packet? && Aligned(b, decode) && b.pcmLen > 0 && b.roc.roc < ROC_LIMIT && !b.transcode
    requires e.pcm.Some? ==> e.pcm.value == decode(e.payload) && |e.pcm.value| == b.pcmLen
    ensures Aligned(Step(b, e), decode)
  {
    hide Update, Pushed, Decoded;
    if Accepts(b, e.pcm, e.hadSound) {
      var n := e.seqnum + MAX_SEQUENCE_NUMBER * Update(b.roc, 0, e.seqnum, ROC_LIMIT).roc;
      PushDecoded(b.payloads, e.payload, n, decode);
      PushKeepsSlices(b.pcms, e.pcm.value, n, b.pcmLen);
    }
  }

  /** Over every run without transcoding in which packets hold one slice each: what a read gives as
      samples is what it gives as payload, decoded. */
  lemma {:induction false} PayloadIsSlice(pcmLen: nat, es: seq<Event>, decode: Buffer -> Pcm)
    requires pcmLen > 0 && WholeSlices(pcmLen, es, decode)
    ensures Aligned(Run(pcmLen, false, es), decode)
    ensures var (_, payload, out) := Taken(Run(pcmLen, false, es));
            out == if payload.Some? then Some(decode(payload.value)) else None
  {
    hide Taken, Added, Aligned;
    if es == [] {
      assert Aligned(Start(pcmLen, false), decode) by { NothingAligned(pcmLen, decode); }
    } else {
      var (before, e) := (es[..|es| - 1], es[|es| - 1]);
      PayloadIsSlice(pcmLen, before, decode);
      RunKeepsTranscode(pcmLen, false, before);
      SamplesAreConserved(pcmLen, false, before);
      if e.Packet? {
        AlignedPacket(Run(pcmLen, false, before), e, decode);
      } else {
        AlignedTake(Run(pcmLen, false, before), decode);
      }
    }
    SamplesAreConserved(pcmLen, false, es);
    AlignedTake(Run(pcmLen, false, es), decode);
  }

  lemma NothingAligned(pcmLen: nat, decode: Buffer -> Pcm)
    ensures Aligned(Start(pcmLen, false), decode)
  {
  }
}
