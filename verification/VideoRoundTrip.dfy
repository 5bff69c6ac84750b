/** What a receiver makes of whole frames and whole videos packetised by codec/src/h264.rs: exactly
    which frames come back, and what follows one that does not. */
module VideoRoundTrips {
  import opened Bytes
  import opened AnnexB
  import opened H264

  // ----- frames -----

  datatype Frame = Frame(packets: seq<Buffer>, timestamp: U32)

  function PacketsOf(f: Frame): seq<Buffer> { PacketiseAll(AllNals(f.packets)) }

  /** A frame the sender can produce and the receiver can finish: it has a NAL unit, none of a
      packetisation type is sent whole, no fragmented one has its forbidden bit set, and it does not
      end in a bare parameter set. */
  ghost predicate Playable(f: Frame) {
    var nals := AllNals(f.packets);
    && nals != []
    && (forall n :: n in nals ==> Deliverable(n) && Faithful(n))
    && !BareParameterSet(nals[|nals| - 1])
  }

  /** The last call for the frame hands over its NAL units, each behind a four-byte start code. */
  predicate IsWhole(f: Frame, os: seq<Outcome>) {
    os != [] && os[|os| - 1] == Ready(Join(AllNals(f.packets)))
  }

  predicate ComesBack(s: Depacketiser, f: Frame) { IsWhole(f, Feed(s, PacketsOf(f), f.timestamp, true).1) }

  lemma {:induction false} AllNalsWellFormed(packets: seq<Buffer>)
    ensures forall n :: n in AllNals(packets) ==> WellFormedNal(n)
  {
    if packets != [] {
      SplitYieldsWellFormed(packets[0], 0);
      AllNalsWellFormed(packets[1..]);
    }
  }

  /** The stream handed over at the end of a frame splits into the very NAL units that were sent. */
  lemma StreamCarriesNals(packets: seq<Buffer>)
    ensures Split(Join(AllNals(packets))) == AllNals(packets)
  {
    AllNalsWellFormed(packets);
    SplitJoin(AllNals(packets));
  }

  // ----- what any units add, deliverable or not -----

  function Codes(d: Buffer): nat { StartCodes(d, 0) }

  /** At most `size` bytes of `a` are not in start codes. */
  predicate Spare(a: Buffer, size: int) { |a| <= 4 * Codes(a) + size }

  lemma SpareConcat(a: Buffer, n: int, b: Buffer, m: int)
    requires Spare(a, n) && Spare(b, m)
    ensures Spare(a + b, n + m)
  {
    StartCodesAdd(a, b, 0);
  }

  lemma SparePlain(a: Buffer)
    ensures Spare(a, |a|)
  {
  }

  lemma SpareCoded(a: Buffer)
    ensures Spare(LONG_CODE + a, |a|)
  {
    StartCodesOfLongCode();
    SparePlain(a);
    SpareConcat(LONG_CODE, 0, a, |a|);
  }

  lemma {:induction false} SpareUnits(pkt: Buffer, i: nat)
    requires i <= |pkt|
    ensures Spare(StapUnits(pkt, i).0, |pkt| - i)
    decreases |pkt| - i
  {
    hide Spare, ReadU16;
    SparePlain([]);
    SpareMore([], 0, |pkt| - i);
    if |pkt| - i > 2 {
      var (size, at) := (ReadU16(pkt, i), i + 2);
      if size <= |pkt| - at {
        SpareUnits(pkt, at + size);
        SpareCoded(pkt[at..at + size]);
        SpareConcat(LONG_CODE + pkt[at..at + size], size, StapUnits(pkt, at + size).0, |pkt| - at - size);
        SpareMore(StapUnits(pkt, i).0, |pkt| - at, |pkt| - i);
      }
    }
  }

  lemma SpareMore(a: Buffer, n: int, m: int)
    requires Spare(a, n) && n <= m
    ensures Spare(a, m)
  {
  }

  /** What the packets of one unit add to the NAL buffer, when the last of them carries `marker`. */
  function UnitAdds(nal: NalUnit, marker: bool): Buffer {
    if Fragmented(nal) then LONG_CODE + Rebuilt(nal) else Unpack(nal, EffectiveMarker(nal, marker)).0
  }

  /** A unit adds at most its own bytes besides start codes, and fewer if it is not deliverable. */
  lemma SpareUnit(nal: NalUnit, marker: bool)
    ensures Spare(UnitAdds(nal, marker), if Deliverable(nal) then |nal| else |nal| - 1)
  {
    hide Spare, StapUnits;
    if Fragmented(nal) {
      SpareCoded(Rebuilt(nal));
    } else if NalType(nal[0]) == 28 {
      SpareFragment(nal, EffectiveMarker(nal, marker));
    } else if NalType(nal[0]) == 24 {
      SpareUnits(nal, 1);
    } else {
      SpareCoded(nal);
    }
  }

  lemma SpareFragment(pkt: NalUnit, marker: bool)
    requires NalType(pkt[0]) == 28
    ensures Spare(Unpack(pkt, marker).0, |pkt| - 1)
  {
    hide Spare;
    var added := Unpack(pkt, marker).0;
    SparePlain([]);
    SpareMore([], 0, |pkt| - 1);
    if added != [] {
      var rest := pkt[2..];
      SparePlain(rest);
      SpareMore(rest, |rest|, |pkt| - 1);
      var header := NalType(pkt[1]) + Nri(pkt[0]);
      SpareCoded([header] + rest);
      assert LONG_CODE + ([header] + rest) == LONG_CODE + [header] + rest;
      assert [] + rest == rest;
    }
  }

  /** What the packets of all the units add, the marker on the last. */
  function AllAdd(nals: seq<NalUnit>, marker: bool): Buffer {
    if nals == [] then []
    else UnitAdds(nals[0], marker && |nals| == 1) + AllAdd(nals[1..], marker)
  }

  function Sizes(nals: seq<NalUnit>): nat {
    if nals == [] then 0 else |nals[0]| + Sizes(nals[1..])
  }

  lemma {:induction false} SpareAll(nals: seq<NalUnit>, marker: bool)
    ensures Spare(AllAdd(nals, marker),
                  if forall n :: n in nals ==> Deliverable(n) then Sizes(nals) else Sizes(nals) - 1)
  {
    hide Spare, UnitAdds, Deliverable;
    if nals == [] {
      SparePlain([]);
    } else {
      var (first, rest) := (nals[0], nals[1..]);
      SpareUnit(first, marker && |nals| == 1);
      SpareAll(rest, marker);
      var n := if Deliverable(first) then |first| else |first| - 1;
      var m := if forall x :: x in rest ==> Deliverable(x) then Sizes(rest) else Sizes(rest) - 1;
      SpareConcat(UnitAdds(first, marker && |nals| == 1), n, AllAdd(rest, marker), m);
      assert forall x :: x in nals <==> x == first || x in rest;
      SpareMore(AllAdd(nals, marker), n + m,
                if forall x :: x in nals ==> Deliverable(x) then Sizes(nals) else Sizes(nals) - 1);
    }
  }

  lemma {:induction false} JoinSize(nals: seq<NalUnit>)
    ensures |Join(nals)| == 4 * |nals| + Sizes(nals)
  {
    if nals != [] {
      JoinSize(nals[1..]);
    }
  }

  /** Well-formed units that are not all deliverable never add up to themselves: start codes cannot
      make up for the bytes that are lost. */
  lemma UndeliverableNeverAddsUp(nals: seq<NalUnit>, marker: bool)
    requires forall n :: n in nals ==> WellFormedNal(n)
    requires AllAdd(nals, marker) == Join(nals)
    ensures forall n :: n in nals ==> Deliverable(n)
  {
    hide AllAdd, Join, Deliverable, WellFormedNal, StartCodes;
    SpareAll(nals, marker);
    JoinSize(nals);
    StartCodesOfJoin(Join(nals), 0, nals);
  }

  // ----- feeding any units -----

  /** The state and the last outcome after calls that add `added`: it is handed over, or stays. */
  predicate Took(s: Depacketiser, r: (Depacketiser, seq<Outcome>), added: Buffer, timestamp: U32, marker: bool) {
    && r.0.timestamp == Some(timestamp)
    && r.1 != []
    && (var last := r.1[|r.1| - 1];
        if last.Ready? then marker && last == Ready(s.nalBuf + added) && r.0.nalBuf == []
        else r.0.nalBuf == s.nalBuf + added)
  }

  lemma FeedUnit(s: Depacketiser, nal: NalUnit, timestamp: U32, marker: bool)
    requires Accepts(s, timestamp)
    ensures Took(s, Feed(s, Packetise(nal), timestamp, marker), UnitAdds(nal, marker), timestamp, marker)
  {
    if Fragmented(nal) {
      hide Feed, Packetise, Rebuilt;
      FeedFragmented(s, nal, timestamp, marker);
    } else {
      hide Unpack;
      assert Packetise(nal) == [nal] && [nal][1..] == [];
    }
  }

  lemma {:induction false} FeedUnits(s: Depacketiser, nals: seq<NalUnit>, timestamp: U32, marker: bool)
    requires nals != [] && Accepts(s, timestamp)
    ensures Took(s, Feed(s, PacketiseAll(nals), timestamp, marker), AllAdd(nals, marker), timestamp, marker)
    decreases |nals|
  {
    hide Feed, Packetise, UnitAdds, Accepts;
    var (head, rest) := (Packetise(nals[0]), PacketiseAll(nals[1..]));
    if |nals| == 1 {
      assert head + [] == head && UnitAdds(nals[0], marker) + [] == UnitAdds(nals[0], marker);
      FeedUnit(s, nals[0], timestamp, marker);
    } else {
      FeedUnit(s, nals[0], timestamp, false);
      var s1 := Feed(s, head, timestamp, false).0;
      AcceptsOwn(s1, timestamp);
      FeedUnits(s1, nals[1..], timestamp, marker);
      FeedConcat(s, head, rest, timestamp, marker);
      var (a, b) := (UnitAdds(nals[0], false), AllAdd(nals[1..], marker));
      assert s.nalBuf + a + b == s.nalBuf + (a + b);
    }
  }

  // ----- one frame -----

  /** A frame of deliverable units: the calls are all pending but the last, which hands over the
      rebuilt units exactly when the frame does not end in a bare parameter set. */
  lemma DeliverableFrame(s: Depacketiser, f: Frame)
    requires s.nalBuf == []
    requires AllNals(f.packets) != []
    requires forall n :: n in AllNals(f.packets) ==> Deliverable(n)
    ensures var nals := AllNals(f.packets);
            var ps := PacketiseAll(nals);
            var (s1, os) := Feed(s, ps, f.timestamp, true);
            && |ps| > 0 && os[..|ps| - 1] == Pending(|ps| - 1)
            && (os[|ps| - 1].Ready? <==> !BareParameterSet(nals[|nals| - 1]))
            && (os[|ps| - 1].Ready? ==> s1.nalBuf == [])
            && (os[|ps| - 1] == Ready(Join(nals))
                <==> !BareParameterSet(nals[|nals| - 1]) && forall n :: n in nals ==> Faithful(n))
  {
    hide Feed, PacketiseAll, Join, RebuiltAll, Faithful, BareParameterSet;
    var nals := AllNals(f.packets);
    FeedNals(s, nals, f.timestamp, true);
    RebuiltExact(nals);
    assert [] + Join(RebuiltAll(nals)) == Join(RebuiltAll(nals));
  }

  /** Round trip: with nothing pending, a frame comes back exactly when it is playable. */
  lemma FrameRoundTrip(s: Depacketiser, f: Frame)
    requires s.nalBuf == []
    ensures ComesBack(s, f) <==> Playable(f)
  {
    hide Feed, PacketiseAll, Join, Deliverable, Faithful, BareParameterSet, AllAdd;
    var nals := AllNals(f.packets);
    if nals == [] {
      NoUnits(s, f.timestamp);
    } else {
      FeedUnits(s, nals, f.timestamp, true);
      if ComesBack(s, f) {
        assert [] + AllAdd(nals, true) == AllAdd(nals, true);
        AllNalsWellFormed(f.packets);
        UndeliverableNeverAddsUp(nals, true);
      }
      if forall n :: n in nals ==> Deliverable(n) {
        DeliverableFrame(s, f);
      }
    }
  }

  lemma NoUnits(s: Depacketiser, timestamp: U32)
    ensures Feed(s, PacketiseAll([]), timestamp, true) == (s, [])
  {
  }

  /** The calls for a playable frame: all pending but the last, and nothing left behind. */
  lemma FramePlays(s: Depacketiser, f: Frame)
    requires s.nalBuf == [] && Playable(f)
    ensures var (s1, os) := Feed(s, PacketsOf(f), f.timestamp, true);
            && s1.nalBuf == [] && IsWhole(f, os)
            && forall k :: 0 <= k < |os| - 1 ==> os[k] == NotFinished
  {
    hide Feed, PacketiseAll, AllNals, Join, NalType;
    DeliverableFrame(s, f);
    var (s1, os) := Feed(s, PacketsOf(f), f.timestamp, true);
    forall k | 0 <= k < |os| - 1
      ensures os[k] == NotFinished
    {
      assert os[k] == os[..|os| - 1][k];
    }
  }

  // ----- after a frame that was not finished -----

  predicate NonEmpty(ps: seq<Buffer>) { forall k :: 0 <= k < |ps| ==> ps[k] != [] }

  /** Every call fails on its timestamp. */
  predicate AllMismatch(os: seq<Outcome>) { forall k :: 0 <= k < |os| ==> os[k] == TimestampMismatch }

  /** With something pending, packets of any other timestamp change nothing. */
  lemma {:induction false} Blocked(s: Depacketiser, ps: seq<Buffer>, timestamp: U32, marker: bool)
    requires s.nalBuf != [] && s.timestamp != Some(timestamp)
    requires NonEmpty(ps)
    ensures Feed(s, ps, timestamp, marker).0 == s && AllMismatch(Feed(s, ps, timestamp, marker).1)
    decreases |ps|
  {
    if ps != [] {
      Blocked(s, ps[1..], timestamp, marker);
    }
  }

  lemma {:induction false} FragmentsNonEmpty(first: Byte, nalType: Byte, rest: Buffer, isFirst: bool)
    requires nalType < 0x20
    ensures NonEmpty(Fragments(first, nalType, rest, isFirst))
    decreases |rest|
  {
    if |rest| > CHUNK {
      FragmentsNonEmpty(first, nalType, rest[CHUNK..], false);
    }
  }

  lemma {:induction false} PacketsNonEmpty(nals: seq<NalUnit>)
    ensures NonEmpty(PacketiseAll(nals))
  {
    if nals != [] {
      hide Fragments;
      PacketsNonEmpty(nals[1..]);
      if Fragmented(nals[0]) {
        FragmentsNonEmpty(Nri(nals[0][0]) + 28, NalType(nals[0][0]), nals[0][1..], true);
      }
    }
  }

  /** A frame with a timestamp of its own comes back exactly when nothing is pending and it is
      playable; when something is pending it changes nothing. */
  lemma FrameExact(s: Depacketiser, f: Frame)
    requires s.nalBuf == [] || s.timestamp != Some(f.timestamp)
    ensures ComesBack(s, f) <==> s.nalBuf == [] && Playable(f)
    ensures s.nalBuf != [] ==> Feed(s, PacketsOf(f), f.timestamp, true).0 == s
    ensures s.nalBuf != [] ==> AllMismatch(Feed(s, PacketsOf(f), f.timestamp, true).1)
    ensures var s1 := Feed(s, PacketsOf(f), f.timestamp, true).0;
            s1.nalBuf != [] ==> s1 == s || s1.timestamp == Some(f.timestamp)
  {
    hide Feed, PacketiseAll, AllNals, Join, Playable, AllAdd;
    if s.nalBuf == [] {
      FrameRoundTrip(s, f);
      if AllNals(f.packets) == [] {
        NoUnits(s, f.timestamp);
      } else {
        FeedUnits(s, AllNals(f.packets), f.timestamp, true);
      }
    } else {
      PacketsNonEmpty(AllNals(f.packets));
      Blocked(s, PacketsOf(f), f.timestamp, true);
    }
  }

  /** Calls without the marker keep what is pending and never finish. */
  lemma {:induction false} PendingStays(s: Depacketiser, ps: seq<Buffer>, timestamp: U32)
    requires Accepts(s, timestamp) && NonEmpty(ps)
    ensures var s1 := Feed(s, ps, timestamp, false).0;
            s.nalBuf <= s1.nalBuf && Accepts(s1, timestamp) && (ps != [] ==> s1.timestamp == Some(timestamp))
    decreases |ps|
  {
    hide Unpack;
    if ps != [] {
      PendingStays(Step(s, ps[0], timestamp, false).0, ps[1..], timestamp);
    }
  }

  /** The first packet of a deliverable unit leaves something pending. */
  lemma FirstPacketPends(s: Depacketiser, nal: NalUnit, timestamp: U32)
    requires s.nalBuf == [] && Deliverable(nal)
    ensures Step(s, Packetise(nal)[0], timestamp, false).0.nalBuf != []
  {
    FragmentHeader(nal[0]);
  }

  /** Once a playable frame has lost its last packet, no packet of any other timestamp is ever taken. */
  lemma LostMarkerBlocks(s: Depacketiser, f: Frame, k: nat, ps: seq<Buffer>, timestamp: U32, marker: bool)
    requires s.nalBuf == [] && Playable(f) && 0 < k < |PacketsOf(f)|
    requires timestamp != f.timestamp && NonEmpty(ps)
    ensures var s1 := Feed(s, PacketsOf(f)[..k], f.timestamp, false).0;
            && s1.nalBuf != []
            && Feed(s1, ps, timestamp, marker).0 == s1 && AllMismatch(Feed(s1, ps, timestamp, marker).1)
  {
    hide Packetise, Step, Deliverable, Faithful, BareParameterSet, AllMismatch;
    var nals := AllNals(f.packets);
    var all := PacketsOf(f);
    PacketsNonEmpty(nals);
    FirstPacketPends(s, nals[0], f.timestamp);
    assert all[0] == Packetise(nals[0])[0];
    assert all[..k][0] == all[0] && all[..k][1..] == all[1..k];
    var s0 := Step(s, all[0], f.timestamp, false).0;
    StepKeepsTimestamp(s, all[0], f.timestamp);
    PendingStays(s0, all[1..k], f.timestamp);
    Blocked(Feed(s, all[..k], f.timestamp, false).0, ps, timestamp, marker);
  }

  lemma StepKeepsTimestamp(s: Depacketiser, p: Buffer, timestamp: U32)
    requires Accepts(s, timestamp) && p != []
    ensures Step(s, p, timestamp, false).0.timestamp == Some(timestamp)
  {
    hide Unpack;
  }

  // ----- a whole video -----

  /** The outcomes of all the calls for a run of frames, marker on the last packet of each. */
  function Play(s: Depacketiser, frames: seq<Frame>): (r: (Depacketiser, seq<seq<Outcome>>))
    ensures |r.1| == |frames|
    decreases |frames|
  {
    if frames == [] then (s, [])
    else
      var f := frames[0];
      var (s1, os) := Feed(s, PacketsOf(f), f.timestamp, true);
      var (s2, more) := Play(s1, frames[1..]);
      (s2, [os] + more)
  }

  /** All the frames of a video come back exactly when all of them are playable. */
  lemma {:induction false} VideoRoundTrip(s: Depacketiser, frames: seq<Frame>)
    requires s.nalBuf == []
    ensures (forall i :: 0 <= i < |frames| ==> IsWhole(frames[i], Play(s, frames).1[i]))
       <==> forall i :: 0 <= i < |frames| ==> Playable(frames[i])
    decreases |frames|
  {
    hide Feed, Playable, PacketsOf, IsWhole;
    if frames != [] {
      var f := frames[0];
      var (oss, s1) := (Play(s, frames).1, Feed(s, PacketsOf(f), f.timestamp, true).0);
      FrameRoundTrip(s, f);
      if Playable(f) {
        FramePlays(s, f);
        VideoRoundTrip(s1, frames[1..]);
        var rest := Play(s1, frames[1..]).1;
        assert forall i :: 0 < i < |frames| ==> frames[i] == frames[1..][i - 1] && oss[i] == rest[i - 1];
        assert forall i :: 0 <= i < |frames[1..]| ==> frames[1..][i] == frames[i + 1] && rest[i] == oss[i + 1];
      } else {
        assert !IsWhole(frames[0], oss[0]);
      }
    }
  }

  ghost predicate DistinctTimestamps(frames: seq<Frame>) {
    forall i, j :: 0 <= i < j < |frames| ==> frames[i].timestamp != frames[j].timestamp
  }

  /** Frame by frame, when timestamps do not repeat: a frame comes back exactly when it is playable
      and the frames before it have left nothing pending. */
  lemma {:induction false} EachFrameExact(s: Depacketiser, frames: seq<Frame>, i: nat)
    requires DistinctTimestamps(frames) && i < |frames|
    requires s.nalBuf == [] || forall f :: f in frames ==> s.timestamp != Some(f.timestamp)
    ensures IsWhole(frames[i], Play(s, frames).1[i]) <==> Play(s, frames[..i]).0.nalBuf == [] && Playable(frames[i])
    decreases |frames|
  {
    hide Feed, Playable, PacketsOf, IsWhole;
    var (f, rest) := (frames[0], frames[1..]);
    var s1 := Feed(s, PacketsOf(f), f.timestamp, true).0;
    assert f in frames;
    FrameExact(s, f);
    if i > 0 {
      assert rest[i - 1] == frames[i] && Play(s, frames).1[i] == Play(s1, rest).1[i - 1];
      assert frames[..i][0] == f && frames[..i][1..] == rest[..i - 1];
      assert forall g :: g in rest ==> g in frames && g.timestamp != f.timestamp;
      EachFrameExact(s1, rest, i - 1);
    } else {
      assert Play(s, frames[..0]).0 == s;
    }
  }

  /** Once something is pending, it stays so through frames of other timestamps, and none of their
      calls does anything. */
  lemma {:induction false} StaysBlocked(s: Depacketiser, frames: seq<Frame>)
    requires s.nalBuf != [] && forall f :: f in frames ==> s.timestamp != Some(f.timestamp)
    ensures Play(s, frames).0 == s
    ensures forall i :: 0 <= i < |frames| ==> AllMismatch(Play(s, frames).1[i])
    decreases |frames|
  {
    hide Feed, PacketsOf, AllMismatch;
    if frames != [] {
      assert frames[0] in frames;
      FrameExact(s, frames[0]);
      StaysBlocked(s, frames[1..]);
    }
  }
}
