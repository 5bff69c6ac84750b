/** Rollover counters: the number of times a 16-bit sequence number has wrapped, estimated from the
    numbers seen. The same rule stands in media/src/srtp.rs and in media/src/buffer.rs. */
module Rollover {
  import opened Bytes

  const MAX_ROC_DISORDER := 100
  const MAX_SEQUENCE_NUMBER := 65535

  datatype RocState = RocState(roc: nat, processed: bool, lastSeq: U16)

  const UNSTARTED := RocState(0, false, 0)

  /** By how much the counter moves when `seqnum` follows `lastSeq`. */
  function Move(lastSeq: U16, seqnum: U16): int {
    if seqnum == 0 then if lastSeq > MAX_ROC_DISORDER then 1 else 0
    else if lastSeq < MAX_ROC_DISORDER && seqnum > MAX_SEQUENCE_NUMBER - MAX_ROC_DISORDER then -1
    else if seqnum < MAX_ROC_DISORDER && lastSeq > MAX_SEQUENCE_NUMBER - MAX_ROC_DISORDER then 1
    else 0
  }

  /** Machine arithmetic on a counter below `width`. */
  function Wrap(n: int, width: nat): (r: nat)
    requires -1 <= n <= width && width > 0
  {
    if n < 0 then width - 1 else if n == width then 0 else n
  }

  /** `stored` is the counter a first packet starts from. */
  function Update(s: RocState, stored: nat, seqnum: U16, width: nat): (r: RocState)
    requires s.roc < width && stored < width
    ensures r.processed && r.lastSeq == seqnum && r.roc < width
  {
    if !s.processed then RocState(stored, true, seqnum)
    else RocState(Wrap(s.roc + Move(s.lastSeq, seqnum), width), true, seqnum)
  }

  function Epoch(index: nat): nat { index / 0x1_0000 }

  function Low(index: nat): U16 { index % 0x1_0000 }

  /** The state of a counter that has just seen the packet with this index. */
  function At(index: nat): RocState { RocState(Epoch(index), true, Low(index)) }

  /** One step of at most 100 either way keeps the counter exact, and never wraps it below zero. */
  lemma StepExact(i: nat, j: nat, stored: nat, width: nat)
    requires Distance(i, j) <= MAX_ROC_DISORDER
    requires stored < width && Epoch(i) < width && Epoch(j) < width
    ensures Update(At(i), stored, Low(j), width) == At(j)
    ensures 0 <= Epoch(i) + Move(Low(i), Low(j)) < width
  {
    assert i == Epoch(i) * 0x1_0000 + Low(i) && j == Epoch(j) * 0x1_0000 + Low(j);
    assert Epoch(j) - Epoch(i) in {-1, 0, 1};
  }

  ghost predicate ExactAtDistance(d: nat) {
    forall i: nat, j: nat :: Distance(i, j) == d ==> Epoch(i) + Move(Low(i), Low(j)) == Epoch(j)
  }

  /** 100 is exactly how far apart two packets may be: at any larger distance some pair goes wrong. */
  lemma ToleranceIsSharp(d: nat)
    ensures ExactAtDistance(d) <==> d <= 100
  {
    if d <= MAX_ROC_DISORDER {
      forall i: nat, j: nat | Distance(i, j) == d
        ensures Epoch(i) + Move(Low(i), Low(j)) == Epoch(j)
      {
        StepExact(i, j, 0, Epoch(i) + Epoch(j) + 1);
      }
    } else {
      assert Distance(d, 0) == d && Epoch(d) + Move(Low(d), Low(0)) >= 1;
    }
  }

  /** Consecutive indices no more than 100 apart. */
  predicate Gentle(indices: seq<nat>) {
    forall k :: 0 < k < |indices| ==> Distance(indices[k - 1], indices[k]) <= MAX_ROC_DISORDER
  }

  /** The state after the packets with these indices. */
  function Track(s: RocState, stored: nat, indices: seq<nat>, width: nat): (r: RocState)
    requires s.roc < width && stored < width
    ensures r.roc < width
  {
    if indices == [] then s
    else Update(Track(s, stored, indices[..|indices| - 1], width), stored, Low(indices[|indices| - 1]), width)
  }

  /** Over every run of gentle steps whose first packet has the stored counter, the counter is the
      index divided by 65536 after every packet. */
  lemma {:induction false} TrackExact(stored: nat, indices: seq<nat>, width: nat)
    requires indices != [] && Gentle(indices) && stored == Epoch(indices[0]) && width > 0
    requires forall i :: i in indices ==> Epoch(i) < width
    ensures Track(UNSTARTED, stored, indices, width) == At(indices[|indices| - 1])
    decreases |indices|
  {
    var n := |indices| - 1;
    var before := indices[..n];
    if n > 0 {
      assert Gentle(before);
      TrackExact(stored, before, width);
      assert before[n - 1] == indices[n - 1] && indices[n - 1] in indices && indices[n] in indices;
      StepExact(indices[n - 1], indices[n], stored, width);
    } else {
      assert Track(UNSTARTED, stored, before, width) == UNSTARTED;
      assert indices[0] in indices;
    }
  }
}
