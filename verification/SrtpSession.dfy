/** Both ends of an SRTP session with any number of interleaved streams (media/src/srtp.rs), and what
    a packet that is counted but not authenticated does to the counter. */
module SrtpSessions {
  import opened Bytes
  import opened RtpPackets
  import opened Rollover
  import opened Srtp

  // ----- indices stream by stream -----

  /** The indices of the packets of one stream, in order. */
  function IndicesOf(ws: seq<Wire>, idx: seq<nat>, ssrc: U32): seq<nat>
    requires |idx| == |ws|
  {
    if ws == [] then []
    else (if Ssrc(ws[0]) == ssrc then [idx[0]] else []) + IndicesOf(ws[1..], idx[1..], ssrc)
  }

  /** Every packet carries the low half of its index; within each stream consecutive packets are at
      most 100 apart, and the stored counter fits the first. */
  ghost predicate Trackable(store: map<U32, U32>, ws: seq<Wire>, idx: seq<nat>) {
    && |idx| == |ws|
    && (forall k :: 0 <= k < |ws| ==> Sequence(ws[k]) == Low(idx[k]) && Epoch(idx[k]) < ROC_WIDTH)
    && forall ssrc: U32 ::
         var own := IndicesOf(ws, idx, ssrc);
         Gentle(own) && (own != [] ==> CounterIn(store, ssrc) == Epoch(own[0]))
  }

  lemma {:induction false} IndicesOfConcat(a: seq<Wire>, i: seq<nat>, b: seq<Wire>, j: seq<nat>, ssrc: U32)
    requires |i| == |a| && |j| == |b|
    ensures IndicesOf(a + b, i + j, ssrc) == IndicesOf(a, i, ssrc) + IndicesOf(b, j, ssrc)
    decreases |a|
  {
    if a == [] {
      hide *;
      assert a + b == b && i + j == j;
      NoIndices(ssrc);
    } else {
      hide *;
      IndicesOfConcat(a[1..], i[1..], b, j, ssrc);
      assert (a + b)[1..] == a[1..] + b && (i + j)[1..] == i[1..] + j;
      FirstIndex(a, i, ssrc);
      FirstIndex(a + b, i + j, ssrc);
    }
  }

  lemma NoIndices(ssrc: U32)
    ensures IndicesOf([], [], ssrc) == []
  {
  }

  lemma FirstIndex(ws: seq<Wire>, idx: seq<nat>, ssrc: U32)
    requires |idx| == |ws| && ws != []
    ensures IndicesOf(ws, idx, ssrc)
         == (if Ssrc(ws[0]) == ssrc then [idx[0]] else []) + IndicesOf(ws[1..], idx[1..], ssrc)
  {
    hide Ssrc;
  }

  /** The sequence numbers of a stream are the low halves of its indices. */
  lemma {:induction false} SequencesAreLows(ws: seq<Wire>, idx: seq<nat>, ssrc: U32)
    requires |idx| == |ws|
    requires forall k :: 0 <= k < |ws| ==> Sequence(ws[k]) == Low(idx[k])
    ensures SequencesOf(ws, ssrc) == Lows(IndicesOf(ws, idx, ssrc))
    decreases |ws|
  {
    hide Ssrc, Sequence, Low, Lows;
    if ws == [] {
      NoLows();
    } else {
      var rest := IndicesOf(ws[1..], idx[1..], ssrc);
      SequencesAreLows(ws[1..], idx[1..], ssrc);
      LowsOfMore(idx[0], rest);
      assert [] + rest == rest && [] + Lows(rest) == Lows(rest);
    }
  }

  lemma NoLows()
    ensures Lows([]) == []
  {
  }

  lemma LowsOfMore(i: nat, indices: seq<nat>)
    ensures Lows([i] + indices) == [Low(i)] + Lows(indices)
  {
  }

  function Lows(indices: seq<nat>): (r: seq<U16>)
    ensures |r| == |indices|
  {
    seq(|indices|, k requires 0 <= k < |indices| => Low(indices[k]))
  }

  lemma {:induction false} UpdateAllAppends(s: Roc, stored: U32, seqnums: seq<U16>, last: U16)
    ensures UpdateAll(s, stored, seqnums + [last]) == Update(UpdateAll(s, stored, seqnums), stored, last, ROC_WIDTH)
    decreases |seqnums|
  {
    hide Update;
    if seqnums == [] {
      assert ([] + [last])[1..] == [];
    } else {
      UpdateAllAppends(Update(s, stored, seqnums[0], ROC_WIDTH), stored, seqnums[1..], last);
      assert (seqnums + [last])[1..] == seqnums[1..] + [last];
    }
  }

  lemma {:induction false} UpdateAllIsTrack(stored: U32, indices: seq<nat>)
    ensures UpdateAll(UNSTARTED, stored, Lows(indices)) == Track(UNSTARTED, stored, indices, ROC_WIDTH)
    decreases |indices|
  {
    hide Update, Low;
    if indices == [] {
      assert Lows(indices) == [];
    } else {
      var (before, last) := (indices[..|indices| - 1], indices[|indices| - 1]);
      UpdateAllIsTrack(stored, before);
      UpdateAllAppends(UNSTARTED, stored, Lows(before), Low(last));
      assert Lows(indices) == Lows(before) + [Low(last)];
    }
  }

  /** The indices of a stream up to and with packet `k`: an initial part of all of them, ending in its own. */
  lemma OwnUpTo(ws: seq<Wire>, idx: seq<nat>, k: nat)
    requires |idx| == |ws| && k < |ws|
    ensures var own := IndicesOf(ws[..k + 1], idx[..k + 1], Ssrc(ws[k]));
            && own != [] && own[|own| - 1] == idx[k]
            && own <= IndicesOf(ws, idx, Ssrc(ws[k]))
            && forall i :: i in own ==> i in idx
  {
    hide Ssrc;
    var ssrc := Ssrc(ws[k]);
    assert ws[..k + 1] == ws[..k] + [ws[k]] && idx[..k + 1] == idx[..k] + [idx[k]];
    IndicesOfConcat(ws[..k], idx[..k], [ws[k]], [idx[k]], ssrc);
    assert ws == ws[..k + 1] + ws[k + 1..] && idx == idx[..k + 1] + idx[k + 1..];
    IndicesOfConcat(ws[..k + 1], idx[..k + 1], ws[k + 1..], idx[k + 1..], ssrc);
    IndicesAreThere(ws[..k + 1], idx[..k + 1], ssrc);
    assert forall i :: i in idx[..k + 1] ==> i in idx;
  }

  lemma {:induction false} IndicesAreThere(ws: seq<Wire>, idx: seq<nat>, ssrc: U32)
    requires |idx| == |ws|
    ensures forall i :: i in IndicesOf(ws, idx, ssrc) ==> i in idx
    decreases |ws|
  {
    if ws != [] {
      IndicesAreThere(ws[1..], idx[1..], ssrc);
    }
  }

  /** However the streams interleave, the counter after each packet is that packet's index divided by 65536. */
  lemma CountedExactly(store: map<U32, U32>, ws: seq<Wire>, idx: seq<nat>, k: nat)
    requires Trackable(store, ws, idx) && k < |ws|
    ensures StateOf(CountAll(Counters(map[], store), ws[..k + 1]), Ssrc(ws[k])) == At(idx[k])
  {
    hide Ssrc, Sequence, UpdateAll, CountAll, Track, Counted;
    var ssrc := Ssrc(ws[k]);
    var stored := CounterIn(store, ssrc);
    var own := IndicesOf(ws[..k + 1], idx[..k + 1], ssrc);
    var all := IndicesOf(ws, idx, ssrc);
    OwnUpTo(ws, idx, k);
    StreamsIndependent(Counters(map[], store), ws[..k + 1], ssrc, stored);
    SequencesAreLows(ws[..k + 1], idx[..k + 1], ssrc);
    UpdateAllIsTrack(stored, own);
    assert Gentle(all);
    assert Gentle(own) && own[0] == all[0];
    EpochsBelow(ws, idx);
    TrackExact(stored, own, ROC_WIDTH);
  }

  lemma EpochsBelow(ws: seq<Wire>, idx: seq<nat>)
    requires |idx| == |ws|
    requires forall k :: 0 <= k < |ws| ==> Sequence(ws[k]) == Low(idx[k]) && Epoch(idx[k]) < ROC_WIDTH
    ensures forall i :: i in idx ==> Epoch(i) < ROC_WIDTH
  {
    hide Sequence, Low, Epoch;
    forall i | i in idx
      ensures Epoch(i) < ROC_WIDTH
    {
      var k :| 0 <= k < |idx| && idx[k] == i;
      assert Epoch(idx[k]) < ROC_WIDTH;
    }
  }

  // ----- both ends -----

  /** The packets as they are counted. */
  function Counting(packets: seq<Packet>): (r: seq<Wire>)
    ensures |r| == |packets| && forall k :: 0 <= k < |r| ==> r[k] == packets[k]
  {
    seq(|packets|, k requires 0 <= k < |packets| => packets[k])
  }

  /** What a sender that starts with the counters in `store` puts on the wire: each packet is counted,
      then protected under the counter of its own stream. */
  function SendStreams(cs: CryptoState, store: map<U32, U32>, packets: seq<Packet>): (r: seq<Wire>)
    requires ValidState(cs)
    ensures |r| == |packets|
  {
    seq(|packets|, k requires 0 <= k < |packets| =>
      var counters := CountAll(Counters(map[], store), Counting(packets)[..k + 1]);
      Protect(cs, StateOf(counters, Ssrc(packets[k])).roc, packets[k]))
  }

  /** What a receiver makes of the packets that reach it: each is counted, then unprotected. */
  function ReceiveStreams(cs: CryptoState, store: map<U32, U32>, wires: seq<Wire>): (r: seq<Decrypted>)
    requires ValidState(cs)
    ensures |r| == |wires|
  {
    seq(|wires|, k requires 0 <= k < |wires| =>
      Unprotect(cs, StateOf(CountAll(Counters(map[], store), wires[..k + 1]), Ssrc(wires[k])).roc, wires[k]))
  }

  function Picked<T>(all: seq<T>, order: seq<nat>): (r: seq<T>)
    requires forall k :: 0 <= k < |order| ==> order[k] < |all|
    ensures |r| == |order| && forall k :: 0 <= k < |order| ==> r[k] == all[order[k]]
  {
    seq(|order|, k requires 0 <= k < |order| => all[order[k]])
  }

  /** Packets with the same streams and numbers are counted alike. */
  lemma {:induction false} SameIndices(a: seq<Wire>, b: seq<Wire>, idx: seq<nat>, ssrc: U32)
    requires |a| == |b| == |idx|
    requires forall k :: 0 <= k < |a| ==> Ssrc(a[k]) == Ssrc(b[k])
    ensures IndicesOf(a, idx, ssrc) == IndicesOf(b, idx, ssrc)
    decreases |a|
  {
    hide Ssrc;
    if a != [] {
      SameIndices(a[1..], b[1..], idx[1..], ssrc);
    }
  }

  lemma SameTrackable(store: map<U32, U32>, a: seq<Wire>, b: seq<Wire>, idx: seq<nat>)
    requires Trackable(store, a, idx) && |a| == |b|
    requires forall k :: 0 <= k < |a| ==> Ssrc(a[k]) == Ssrc(b[k]) && Sequence(a[k]) == Sequence(b[k])
    ensures Trackable(store, b, idx)
  {
    hide Ssrc, Sequence, IndicesOf, Gentle, Low, Epoch;
    forall ssrc: U32
      ensures IndicesOf(b, idx, ssrc) == IndicesOf(a, idx, ssrc)
    {
      SameIndices(a, b, idx, ssrc);
    }
  }

  lemma SentUnderOwnIndex(cs: CryptoState, store: map<U32, U32>, packets: seq<Packet>, idx: seq<nat>, k: nat)
    requires ValidState(cs) && Trackable(store, Counting(packets), idx) && k < |packets|
    ensures Epoch(idx[k]) < ROC_WIDTH
    ensures SendStreams(cs, store, packets)[k] == Protect(cs, Epoch(idx[k]), packets[k])
  {
    hide Protect, CountAll, Trackable, StateOf;
    CountedExactly(store, Counting(packets), idx, k);
    InRange(store, Counting(packets), idx, k);
  }

  lemma InRange(store: map<U32, U32>, ws: seq<Wire>, idx: seq<nat>, k: nat)
    requires Trackable(store, ws, idx) && k < |ws|
    ensures |idx| == |ws| && Epoch(idx[k]) < ROC_WIDTH
  {
    hide IndicesOf, Gentle, Ssrc, Sequence;
  }

  /** End to end, for any interleaving of streams: whichever packets arrive, in whatever order, as
      long as within each stream packets sent one after the other, and packets arriving one after
      the other, are at most 100 apart and both ends start from the right counters, every packet
      that arrives is decrypted to exactly the packet that was sent. */
  lemma InterleavedEndToEnd(cs: CryptoState, packets: seq<Packet>, idx: seq<nat>, order: seq<nat>,
                            senderStore: map<U32, U32>, receiverStore: map<U32, U32>)
    requires ValidState(cs) && |idx| == |packets|
    requires forall k :: 0 <= k < |order| ==> order[k] < |packets|
    requires Trackable(senderStore, Counting(packets), idx)
    requires Trackable(receiverStore, Picked(Counting(packets), order), Picked(idx, order))
    ensures var got := ReceiveStreams(cs, receiverStore, Picked(SendStreams(cs, senderStore, packets), order));
            |got| == |order| && forall k :: 0 <= k < |order| ==> got[k] == Clear(packets[order[k]])
  {
    hide Trackable, Protect, Unprotect, CountAll, StateOf, Ssrc, Sequence, SendStreams;
    var sent := SendStreams(cs, senderStore, packets);
    var wires := Picked(sent, order);
    forall k | 0 <= k < |order|
      ensures Epoch(idx[order[k]]) < ROC_WIDTH
      ensures wires[k] == Protect(cs, Epoch(idx[order[k]]), packets[order[k]])
      ensures Ssrc(wires[k]) == Ssrc(packets[order[k]]) && Sequence(wires[k]) == Sequence(packets[order[k]])
    {
      SentUnderOwnIndex(cs, senderStore, packets, idx, order[k]);
      ProtectKeepsIdentity(cs, Epoch(idx[order[k]]), packets[order[k]]);
    }
    SameTrackable(receiverStore, Picked(Counting(packets), order), wires, Picked(idx, order));
    forall k | 0 <= k < |order|
      ensures ReceiveStreams(cs, receiverStore, wires)[k] == Clear(packets[order[k]])
    {
      CountedExactly(receiverStore, wires, Picked(idx, order), k);
      ProtectRoundTrip(cs, Epoch(idx[order[k]]), packets[order[k]]);
    }
  }

  // ----- one stream -----

  /** The packets of one stream, numbered without gaps from `start`. */
  ghost predicate Numbered(packets: seq<Packet>, ssrc: U32, start: nat) {
    && Epoch(start + |packets|) < ROC_WIDTH
    && forall k :: 0 <= k < |packets| ==> Ssrc(packets[k]) == ssrc && Sequence(packets[k]) == Low(start + k)
  }

  /** Whichever of the protected packets arrive, in whatever order, as long as each arrival is at
      most 100 away from the one before. */
  ghost predicate Arrivals(order: seq<nat>, n: nat) {
    && (forall k :: 0 <= k < |order| ==> order[k] < n)
    && Gentle(order)
  }

  function From(start: nat, n: nat): (r: seq<nat>)
    ensures |r| == n && forall k :: 0 <= k < n ==> r[k] == start + k
  {
    seq(n, k => start + k)
  }

  lemma {:induction false} OnlyStream(ws: seq<Wire>, idx: seq<nat>, own: U32, ssrc: U32)
    requires |idx| == |ws| && forall k :: 0 <= k < |ws| ==> Ssrc(ws[k]) == own
    ensures IndicesOf(ws, idx, ssrc) == if ssrc == own then idx else []
    decreases |ws|
  {
    hide Ssrc;
    if ws != [] {
      OnlyStream(ws[1..], idx[1..], own, ssrc);
    }
  }

  lemma OneStreamTrackable(store: map<U32, U32>, ws: seq<Wire>, idx: seq<nat>, ssrc: U32)
    requires |idx| == |ws| && Gentle(idx) && (idx != [] ==> CounterIn(store, ssrc) == Epoch(idx[0]))
    requires forall k :: 0 <= k < |ws| ==>
               Ssrc(ws[k]) == ssrc && Sequence(ws[k]) == Low(idx[k]) && Epoch(idx[k]) < ROC_WIDTH
    ensures Trackable(store, ws, idx)
  {
    hide Ssrc, Sequence, IndicesOf, Low, Epoch;
    forall x: U32
      ensures IndicesOf(ws, idx, x) == if x == ssrc then idx else []
    {
      OnlyStream(ws, idx, ssrc, x);
    }
  }

  /** End to end: for every gap-free stream and every arrival pattern of loss, duplication and
      reordering within 100, a receiver whose stored counter fits the first arrival gets every
      packet back exactly. */
  lemma EndToEnd(cs: CryptoState, packets: seq<Packet>, ssrc: U32, start: nat, order: seq<nat>,
                 senderStore: map<U32, U32>, receiverStore: map<U32, U32>)
    requires ValidState(cs) && Numbered(packets, ssrc, start) && Arrivals(order, |packets|)
    requires CounterIn(senderStore, ssrc) == Epoch(start)
    requires order != [] ==> CounterIn(receiverStore, ssrc) == Epoch(start + order[0])
    ensures var got := ReceiveStreams(cs, receiverStore, Picked(SendStreams(cs, senderStore, packets), order));
            |got| == |order| && forall k :: 0 <= k < |order| ==> got[k] == Clear(packets[order[k]])
  {
    hide *;
    SentTrackable(packets, ssrc, start, senderStore);
    ArrivedTrackable(packets, ssrc, start, order, receiverStore);
    InterleavedEndToEnd(cs, packets, From(start, |packets|), order, senderStore, receiverStore);
  }

  lemma SentTrackable(packets: seq<Packet>, ssrc: U32, start: nat, store: map<U32, U32>)
    requires Numbered(packets, ssrc, start) && CounterIn(store, ssrc) == Epoch(start)
    ensures Trackable(store, Counting(packets), From(start, |packets|))
  {
    hide Ssrc, Sequence, Trackable, Low;
    var idx := From(start, |packets|);
    assert forall k :: 0 <= k < |packets| ==> Epoch(idx[k]) <= Epoch(start + |packets|);
    OneStreamTrackable(store, Counting(packets), idx, ssrc);
  }

  lemma ArrivedTrackable(packets: seq<Packet>, ssrc: U32, start: nat, order: seq<nat>, store: map<U32, U32>)
    requires Numbered(packets, ssrc, start) && Arrivals(order, |packets|)
    requires order != [] ==> CounterIn(store, ssrc) == Epoch(start + order[0])
    ensures forall k :: 0 <= k < |order| ==> order[k] < |packets|
    ensures Trackable(store, Picked(Counting(packets), order), Picked(From(start, |packets|), order))
  {
    hide Ssrc, Sequence, Trackable, Low;
    var idx := From(start, |packets|);
    var picked := Picked(idx, order);
    assert forall k :: 0 < k < |order| ==> Distance(order[k - 1], order[k]) == Distance(picked[k - 1], picked[k]);
    assert forall k :: 0 <= k < |packets| ==> Epoch(idx[k]) <= Epoch(start + |packets|);
    OneStreamTrackable(store, Picked(Counting(packets), order), picked, ssrc);
  }

  // ----- packets that are counted but not authentic -----

  /** The counter is updated before the tag is looked at: after a stray packet numbered `stray`,
      whichever packet of the stream comes next, within 100, is still counted right. */
  ghost predicate Harmless(i: nat, stray: U16)
    requires Epoch(i) < ROC_WIDTH
  {
    forall j: nat :: Distance(i, j) <= MAX_ROC_DISORDER ==>
      Update(Update(At(i), 0, stray, ROC_WIDTH), 0, Low(j), ROC_WIDTH) == At(j)
  }

  /** The counter wraps, but by no more than two steps either way, so the moves must add up. */
  lemma StrayMoves(i: nat, stray: U16, j: nat)
    requires Epoch(i) < ROC_WIDTH && Epoch(j) < ROC_WIDTH && Distance(i, j) <= MAX_ROC_DISORDER
    ensures Update(Update(At(i), 0, stray, ROC_WIDTH), 0, Low(j), ROC_WIDTH) == At(j)
       <==> Move(Low(i), stray) + Move(stray, Low(j)) == Epoch(j) - Epoch(i)
  {
    assert Epoch(j) - Epoch(i) in {-1, 0, 1};
    assert Move(Low(i), stray) in {-1, 0, 1} && Move(stray, Low(j)) in {-1, 0, 1};
  }

  /** Which stray numbers do no harm after a packet numbered `low`, in the first epoch or a later one. */
  predicate Safe(first: bool, low: U16, stray: U16) {
    if low < MAX_ROC_DISORDER then stray < MAX_ROC_DISORDER || (first && stray == MAX_ROC_DISORDER)
    else if low == MAX_ROC_DISORDER then stray <= MAX_ROC_DISORDER
    else if low < 2 * MAX_ROC_DISORDER then 0 < stray <= MAX_SEQUENCE_NUMBER - MAX_ROC_DISORDER
    else if low <= MAX_SEQUENCE_NUMBER - 2 * MAX_ROC_DISORDER then stray != 0
    else if low <= MAX_SEQUENCE_NUMBER - MAX_ROC_DISORDER then stray >= MAX_ROC_DISORDER
    else if low == MAX_SEQUENCE_NUMBER - MAX_ROC_DISORDER + 1 then stray > MAX_ROC_DISORDER
    else stray > MAX_SEQUENCE_NUMBER - MAX_ROC_DISORDER
  }

  lemma NextLow(i: nat, d: int)
    requires i + d >= 0 && -MAX_ROC_DISORDER <= d <= MAX_ROC_DISORDER
    ensures var (l, j) := (Low(i) + d, i + d);
            if l < 0 then Epoch(j) == Epoch(i) - 1 && Low(j) == l + 0x1_0000
            else if l > MAX_SEQUENCE_NUMBER then Epoch(j) == Epoch(i) + 1 && Low(j) == l - 0x1_0000
            else Epoch(j) == Epoch(i) && Low(j) == l
  {
  }

  /** What the next packet is, by its distance `d` from the last. */
  predicate CountedAt(low: U16, stray: U16, d: int)
    requires -MAX_ROC_DISORDER <= d <= MAX_ROC_DISORDER
  {
    var l := low + d;
    var (next, epochs) :=
      if l < 0 then (l + 0x1_0000, -1) else if l > MAX_SEQUENCE_NUMBER then (l - 0x1_0000, 1) else (l, 0);
    Move(low, stray) + Move(stray, next) == epochs
  }

  /** The distances the next packet can be at: none takes the index below zero. */
  predicate Possible(first: bool, low: U16, d: int) {
    -MAX_ROC_DISORDER <= d <= MAX_ROC_DISORDER && (first ==> low + d >= 0)
  }

  lemma SafeSuffices(first: bool, low: U16, stray: U16, d: int)
    requires Safe(first, low, stray) && Possible(first, low, d)
    ensures CountedAt(low, stray, d)
  {
  }

  /** A distance at which an unsafe stray makes the next packet miscounted. */
  lemma SafeIsNeeded(first: bool, low: U16, stray: U16) returns (d: int)
    requires !Safe(first, low, stray)
    ensures Possible(first, low, d) && !CountedAt(low, stray, d)
  {
    if low < MAX_ROC_DISORDER {
      d := if stray == MAX_ROC_DISORDER then -1
           else if stray <= MAX_SEQUENCE_NUMBER - MAX_ROC_DISORDER then 0 else MAX_ROC_DISORDER;
      d := d - low;
    } else if low < 2 * MAX_ROC_DISORDER {
      d := if stray == 0 then 0 else -MAX_ROC_DISORDER;
    } else if low <= MAX_SEQUENCE_NUMBER - MAX_ROC_DISORDER {
      d := if stray == 0 then 0 else MAX_ROC_DISORDER;
    } else {
      d := if stray >= MAX_ROC_DISORDER then MAX_ROC_DISORDER
           else if low == MAX_SEQUENCE_NUMBER - MAX_ROC_DISORDER + 1 then -1 else -MAX_ROC_DISORDER;
    }
  }

  lemma CountedMeans(i: nat, stray: U16, j: nat)
    requires Epoch(i) < ROC_WIDTH && Epoch(j) < ROC_WIDTH && Distance(i, j) <= MAX_ROC_DISORDER
    ensures Update(Update(At(i), 0, stray, ROC_WIDTH), 0, Low(j), ROC_WIDTH) == At(j)
       <==> CountedAt(Low(i), stray, j - i)
    ensures Possible(Epoch(i) == 0, Low(i), j - i)
  {
    hide Move;
    StrayMoves(i, stray, j);
    NextLow(i, j - i);
  }

  /** A stray packet is harmless exactly when its number is safe, wherever the stream is. */
  lemma HarmlessExactly(i: nat, stray: U16)
    requires Epoch(i + MAX_ROC_DISORDER) < ROC_WIDTH
    ensures Harmless(i, stray) <==> Safe(Epoch(i) == 0, Low(i), stray)
  {
    hide Safe, Update, Move, CountedAt;
    var (first, low) := (Epoch(i) == 0, Low(i));
    assert forall j: nat :: j <= i + MAX_ROC_DISORDER ==> Epoch(j) < ROC_WIDTH;
    if Safe(first, low, stray) {
      forall j: nat | Distance(i, j) <= MAX_ROC_DISORDER
        ensures Update(Update(At(i), 0, stray, ROC_WIDTH), 0, Low(j), ROC_WIDTH) == At(j)
      {
        CountedMeans(i, stray, j);
        SafeSuffices(first, low, stray, j - i);
      }
    } else {
      var d := SafeIsNeeded(first, low, stray);
      assert i + d >= 0;
      assert Distance(i, i + d) <= MAX_ROC_DISORDER;
      CountedMeans(i, stray, i + d);
    }
  }

  /** In the first epoch a stray packet can take the counter below zero. */
  lemma StrayBelowZero(i: nat, stray: U16)
    requires Epoch(i) == 0
    ensures Update(At(i), 0, stray, ROC_WIDTH).roc == ROC_WIDTH - 1
       <==> Low(i) < MAX_ROC_DISORDER && stray > MAX_SEQUENCE_NUMBER - MAX_ROC_DISORDER
  {
  }

  /** SRTCP: a packet with a wrong tag is taken exactly when its E bit is clear, and then as it stands. */
  lemma UnauthenticatedRtcp(cs: CryptoState, wire: Buffer)
    requires ValidState(cs) && |wire| >= 4 + cs.tagLen
    requires wire[|wire| - cs.tagLen..] != RtcpTag(cs, wire[..|wire| - cs.tagLen])
    ensures var at := |wire| - cs.tagLen - 4;
            && (UnprotectRtcp(cs, wire).Clear? <==> ReadU32(wire, at) < E_BIT)
            && (UnprotectRtcp(cs, wire).Clear? ==> UnprotectRtcp(cs, wire) == Clear(wire[..at]))
  {
    EBitIsSet(wire, |wire| - cs.tagLen - 4);
  }
}
