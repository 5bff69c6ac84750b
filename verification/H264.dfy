/** The RTP packetiser and depacketiser of codec/src/h264.rs: single NAL unit packets and FU-A
    fragments out, single NAL units, STAP-A and FU-A in (RFC 6184, sections 5.6 to 5.8). The codec
    itself is not part of the model: `EncodePackets` starts from the byte streams it produced, and
    `Decode` ends with the byte stream handed to it. */
module H264 {
  import opened Bytes
  import opened AnnexB

  const MAX_SINGLE := 1205
  const CHUNK := 1200
  const START_BIT: Byte := 0x80
  const END_BIT: Byte := 0x40

  function NalType(header: Byte): Byte { header % 0x20 }

  /** The two nal_ref_idc bits, in place. */
  function Nri(header: Byte): Byte { header / 0x20 % 4 * 0x20 }

  predicate Fragmented(nal: Buffer) { |nal| > MAX_SINGLE }

  // ----- sending -----

  /** The FU-A fragments of what is left of one NAL unit. */
  function Fragments(first: Byte, nalType: Byte, rest: Buffer, isFirst: bool): (ps: seq<Buffer>)
    requires nalType < 0x20
    ensures ps != [] && (|rest| > CHUNK ==> |ps| > 1)
    decreases |rest|
  {
    if |rest| <= CHUNK then [[first, END_BIT + nalType] + rest]
    else
      var second := if isFirst then START_BIT + nalType else nalType;
      [[first, second] + rest[..CHUNK]] + Fragments(first, nalType, rest[CHUNK..], false)
  }

  function Packetise(nal: NalUnit): (ps: seq<Buffer>)
    ensures ps != []
  {
    if Fragmented(nal) then Fragments(Nri(nal[0]) + 28, NalType(nal[0]), nal[1..], true)
    else [nal]
  }

  function PacketiseAll(nals: seq<NalUnit>): (ps: seq<Buffer>)
    ensures nals != [] ==> ps != []
  {
    if nals == [] then [] else Packetise(nals[0]) + PacketiseAll(nals[1..])
  }

  /** The NAL units of all the byte streams one frame was encoded to. */
  function AllNals(packets: seq<Buffer>): seq<NalUnit> {
    if packets == [] then [] else Split(packets[0]) + AllNals(packets[1..])
  }

  lemma {:induction false} PacketiseAllConcat(a: seq<NalUnit>, b: seq<NalUnit>)
    ensures PacketiseAll(a + b) == PacketiseAll(a) + PacketiseAll(b)
  {
    if a == [] {
      assert a + b == b;
    } else {
      assert (a + b)[1..] == a[1..] + b;
      PacketiseAllConcat(a[1..], b);
    }
  }

  /** The second byte of a fragment: the start bit in the first alone, the end bit in the last alone. */
  function FragmentBits(isFirst: bool, isLast: bool): (b: int)
    ensures 0 <= b <= 0x80
  {
    if isLast then 0x40 else if isFirst then 0x80 else 0
  }

  lemma SliceOfTail(b: Buffer, k: nat, from: nat, end: nat)
    requires k <= |b| && from <= end <= |b| - k
    ensures b[k..][from..end] == b[from + k..end + k]
  {
  }

  lemma {:induction false} FragmentAt(first: Byte, nalType: Byte, rest: Buffer, isFirst: bool, i: nat)
    requires nalType < 0x20 && rest != []
    ensures var ps := Fragments(first, nalType, rest, isFirst);
            && |ps| == (|rest| + 1199) / 1200
            && (i < |ps| ==>
                  && 1200 * i < |rest|
                  && ps[i] == [first, FragmentBits(isFirst && i == 0, i == |ps| - 1) + nalType]
                              + rest[1200 * i..Min(1200 * i + 1200, |rest|)])
    decreases |rest|
  {
    var ps := Fragments(first, nalType, rest, isFirst);
    if |rest| <= 1200 {
      assert rest[0..|rest|] == rest;
    } else {
      hide FragmentBits, Min;
      var more := rest[1200..];
      FragmentAt(first, nalType, more, false, if i == 0 then 0 else i - 1);
      assert |rest| + 1199 == (|more| + 1199) + 1200;
      if 0 < i < |ps| {
        var (from, end) := (1200 * (i - 1), Min(1200 * (i - 1) + 1200, |more|));
        SliceOfTail(rest, 1200, from, end);
      }
    }
  }

  /** A unit of more than 1205 bytes goes out in at least two packets of at most 1202 bytes, each with
      1200 bytes of the unit behind the FU indicator and the FU header, but for the last; the start bit
      is in the first packet alone and the end bit in the last alone. Any other unit goes out whole. */
  lemma PacketsExactly(nal: NalUnit, i: nat)
    ensures |nal| <= 1205 ==> Packetise(nal) == [nal]
    ensures |nal| > 1205 ==>
              var ps := Packetise(nal);
              && |ps| == (|nal| + 1198) / 1200 >= 2
              && (i < |ps| ==>
                    && 1 + 1200 * i < |nal|
                    && ps[i] == [nal[0] / 0x20 % 4 * 0x20 + 28, FragmentBits(i == 0, i == |ps| - 1) + nal[0] % 0x20]
                                + nal[1 + 1200 * i..Min(1201 + 1200 * i, |nal|)]
                    && |ps[i]| <= 1202)
  {
    if |nal| > 1205 {
      var rest := nal[1..];
      FragmentAt(Nri(nal[0]) + 28, NalType(nal[0]), rest, true, i);
      if i < |Packetise(nal)| {
        var (from, end) := (1200 * i, Min(1200 * i + 1200, |rest|));
        SliceOfTail(nal, 1, from, end);
      }
    }
  }

  /** The packetising loops of `encode`. */
  method EncodePackets(packets: seq<Buffer>) returns (payloads: seq<Buffer>)
    ensures payloads == PacketiseAll(AllNals(packets))
  {
    payloads := [];
    var i := 0;
    while i < |packets|
      invariant 0 <= i <= |packets|
      invariant payloads + PacketiseAll(AllNals(packets[i..])) == PacketiseAll(AllNals(packets))
    {
      var sent := EncodePacket(packets[i]);
      PacketiseAllConcat(Split(packets[i]), AllNals(packets[i + 1..]));
      assert packets[i..][1..] == packets[i + 1..];
      payloads := payloads + sent;
      i := i + 1;
    }
  }

  lemma NothingPacketised()
    ensures PacketiseAll([]) == []
  {
  }

  lemma OneMorePacketised(done: seq<NalUnit>, nal: NalUnit, more: seq<NalUnit>)
    ensures PacketiseAll(done + [nal]) == PacketiseAll(done) + Packetise(nal)
    ensures done + ([nal] + more) == done + [nal] + more
  {
    hide Packetise;
    PacketiseAllConcat(done, [nal]);
    assert PacketiseAll([nal]) == Packetise(nal) + [];
  }

  method EncodePacket(data: Buffer) returns (payloads: seq<Buffer>)
    ensures payloads == PacketiseAll(Split(data))
  {
    hide PacketiseAll, Packetise, Split, SplitFrom;
    payloads := [];
    NothingPacketised();
    var batches := new SplitBySliceIter(data);
    ghost var done: seq<NalUnit> := [];
    var batch := batches.Next();
    while batch.Some?
      invariant batches.Valid()
      invariant done + (if batch.Some? then [batch.value] + batches.Remaining() else []) == Split(data)
      invariant payloads == PacketiseAll(done)
      decreases if batch.Some? then 1 + |data| - batches.n else 0
    {
      var nal := batch.value;
      var sent := PacketiseNal(nal);
      OneMorePacketised(done, nal, batches.Remaining());
      done := done + [nal];
      payloads := payloads + sent;
      batch := batches.Next();
    }
    assert done + [] == done;
  }

  method PacketiseNal(nal: NalUnit) returns (payloads: seq<Buffer>)
    ensures payloads == Packetise(nal)
  {
    if |nal| <= MAX_SINGLE {
      return [nal];
    }
    var nalType := NalType(nal[0]);
    var first: Byte := Nri(nal[0]) + 28;
    var rest := nal[1..];
    payloads := [];
    var isFirst := true;
    while |rest| > CHUNK
      invariant rest != []
      invariant payloads + Fragments(first, nalType, rest, isFirst) == Packetise(nal)
      invariant isFirst ==> |rest| > CHUNK
      decreases |rest|
    {
      var second: Byte := nalType;
      if isFirst {
        second := START_BIT + nalType;
      }
      payloads := payloads + [[first, second] + rest[..CHUNK]];
      rest, isFirst := rest[CHUNK..], false;
    }
    payloads := payloads + [[first, END_BIT + nalType] + rest];
  }

  // ----- receiving -----

  datatype Outcome =
    | EmptyPacket
    | TimestampMismatch
    | StartAndEnd
    | InvalidStapA
    | NotFinished
    | IndexPanic
    | Ready(stream: Buffer)

  datatype Depacketiser = Depacketiser(nalBuf: Buffer, timestamp: Option<U32>)

  /** The units of a STAP-A payload from position `i` on, and whether all of them fit. */
  function StapUnits(pkt: Buffer, i: nat): (r: (Buffer, bool))
    requires i <= |pkt|
    decreases |pkt| - i
  {
    if |pkt| - i <= 2 then ([], true)
    else
      var (size, at) := (ReadU16(pkt, i), i + 2);
      if size > |pkt| - at then ([], false)
      else
        var (more, ok) := StapUnits(pkt, at + size);
        (LONG_CODE + pkt[at..at + size] + more, ok)
  }

  /** What one packet adds to the NAL buffer, and the error that ends the call early, if any. */
  function Unpack(pkt: Buffer, marker: bool): (r: (Buffer, Option<Outcome>))
    requires pkt != []
  {
    if NalType(pkt[0]) == 28 then
      if |pkt| == 1 then ([], Some(IndexPanic))
      else if HasBit(pkt[1], START_BIT) && (marker || HasBit(pkt[1], END_BIT)) then ([], Some(StartAndEnd))
      else
        var header := NalType(pkt[1]) + Nri(pkt[0]);
        ((if HasBit(pkt[1], START_BIT) then LONG_CODE + [header] else []) + pkt[2..], None)
    else if NalType(pkt[0]) == 24 then
      var (units, ok) := StapUnits(pkt, 1);
      (units, if ok then None else Some(InvalidStapA))
    else (LONG_CODE + pkt, None)
  }

  /** The marker counts unless it rides on a bare SPS or PPS. */
  function EffectiveMarker(pkt: Buffer, marker: bool): bool
    requires pkt != []
  {
    marker && NalType(pkt[0]) !in {7, 8}
  }

  function Step(s: Depacketiser, pkt: Buffer, timestamp: U32, marker: bool): (r: (Depacketiser, Outcome))
  {
    if pkt == [] then (s, EmptyPacket)
    else
      var t := if s.nalBuf == [] then Some(timestamp) else s.timestamp;
      if t != Some(timestamp) then (s, TimestampMismatch)
      else
        var m := EffectiveMarker(pkt, marker);
        var (added, failure) := Unpack(pkt, m);
        var grown := Depacketiser(s.nalBuf + added, t);
        if failure.Some? then (grown, failure.value)
        else if !m then (grown, NotFinished)
        else (grown.(nalBuf := []), Ready(grown.nalBuf))
  }

  class H264Decoder {
    var nalBuf: Buffer
    var timestamp: Option<U32>

    ghost function State(): Depacketiser
      reads this
    {
      Depacketiser(nalBuf, timestamp)
    }

    constructor ()
      ensures State() == Depacketiser([], None)
    {
      nalBuf, timestamp := [], None;
    }

    method Decode(pkt: Buffer, timestamp: U32, marker: bool) returns (r: Outcome)
      modifies this
      ensures (State(), r) == Step(old(State()), pkt, timestamp, marker)
    {
      if pkt == [] {
        return EmptyPacket;
      }
      if nalBuf == [] {
        this.timestamp := Some(timestamp);
      }
      if this.timestamp != Some(timestamp) {
        return TimestampMismatch;
      }
      var nalType := NalType(pkt[0]);
      var marker := if (nalType == 7 || nalType == 8) && marker then false else marker;
      if nalType == 28 {
        if |pkt| == 1 {
          assert nalBuf + [] == nalBuf;
          return IndexPanic;
        }
        var start := HasBit(pkt[1], START_BIT);
        var end := if marker then true else HasBit(pkt[1], END_BIT);
        if start && end {
          assert nalBuf + [] == nalBuf;
          return StartAndEnd;
        }
        if start {
          nalBuf := nalBuf + LONG_CODE + [NalType(pkt[1]) + Nri(pkt[0])];
        }
        nalBuf := nalBuf + pkt[2..];
        assert nalBuf == old(nalBuf) + Unpack(pkt, marker).0;
      } else if nalType == 24 {
        var ok := UnpackStapA(pkt);
        if !ok {
          return InvalidStapA;
        }
      } else {
        nalBuf := nalBuf + LONG_CODE + pkt;
        assert nalBuf == old(nalBuf) + Unpack(pkt, marker).0;
      }
      if !marker {
        return NotFinished;
      }
      r := Ready(nalBuf);
      nalBuf := [];
    }

    method UnpackStapA(pkt: Buffer) returns (ok: bool)
      requires pkt != []
      modifies this`nalBuf
      ensures (nalBuf, ok) == (old(nalBuf) + StapUnits(pkt, 1).0, StapUnits(pkt, 1).1)
    {
      hide StapUnits, ReadU16;
      var i := 1;
      var left := |pkt| - 1;
      while left > 2
        invariant 1 <= i <= |pkt| == i + left
        invariant nalBuf + StapUnits(pkt, i).0 == old(nalBuf) + StapUnits(pkt, 1).0
        invariant StapUnits(pkt, i).1 == StapUnits(pkt, 1).1
        decreases left
      {
        var size := ReadU16(pkt, i);
        var at := i + 2;
        StapUnitsStep(pkt, i, nalBuf);
        if size > left - 2 {
          return false;
        }
        nalBuf := nalBuf + (LONG_CODE + pkt[at..at + size]);
        i, left := at + size, left - 2 - size;
      }
      StapUnitsStep(pkt, i, nalBuf);
      return true;
    }
  }

  /** What `StapUnits` adds to a buffer, one unit at a time. */
  lemma StapUnitsStep(pkt: Buffer, i: nat, buf: Buffer)
    requires i <= |pkt|
    ensures |pkt| - i <= 2 ==> StapUnits(pkt, i).1 && buf + StapUnits(pkt, i).0 == buf
    ensures |pkt| - i > 2 ==>
              var (size, at) := (ReadU16(pkt, i), i + 2);
              if size > |pkt| - at then !StapUnits(pkt, i).1 && buf + StapUnits(pkt, i).0 == buf
              else
                && StapUnits(pkt, i).1 == StapUnits(pkt, at + size).1
                && buf + StapUnits(pkt, i).0 == buf + (LONG_CODE + pkt[at..at + size]) + StapUnits(pkt, at + size).0
  {
  }

  // ----- what the decoder rebuilds -----

  /** Feed payloads with one timestamp, the marker on the last only if `marker`. */
  function Feed(s: Depacketiser, ps: seq<Buffer>, timestamp: U32, marker: bool): (r: (Depacketiser, seq<Outcome>))
    ensures |r.1| == |ps|
    decreases |ps|
  {
    if ps == [] then (s, [])
    else
      var (s1, o) := Step(s, ps[0], timestamp, marker && |ps| == 1);
      var (s2, os) := Feed(s1, ps[1..], timestamp, marker);
      (s2, [o] + os)
  }

  /** NAL units whose packets are not taken for something else: sent whole, types 24 and 28 are read as
      an aggregate and as a fragment. */
  predicate Deliverable(nal: NalUnit) {
    !Fragmented(nal) ==> NalType(nal[0]) !in {24, 28}
  }

  /** A fragmented NAL unit comes back with its forbidden bit cleared, others unchanged. */
  function Rebuilt(nal: NalUnit): NalUnit {
    if Fragmented(nal) then [nal[0] % 0x80] + nal[1..] else nal
  }

  function RebuiltAll(nals: seq<NalUnit>): (r: seq<NalUnit>)
    ensures |r| == |nals| && forall i :: 0 <= i < |r| ==> r[i] == Rebuilt(nals[i])
  {
    seq(|nals|, i requires 0 <= i < |nals| => Rebuilt(nals[i]))
  }

  predicate BareParameterSet(nal: NalUnit) {
    !Fragmented(nal) && NalType(nal[0]) in {7, 8}
  }

  /** A run of `n` calls that all ended with "not finished". */
  function Pending(n: nat): seq<Outcome> {
    seq(n, _ => NotFinished)
  }

  /** The outcomes of a frame's calls: all pending, or all but the last. */
  function FrameOutcomes(n: nat, done: bool, stream: Buffer): seq<Outcome>
    requires n > 0
  {
    if done then Pending(n - 1) + [Ready(stream)] else Pending(n)
  }

  predicate Accepts(s: Depacketiser, timestamp: U32) {
    s.nalBuf == [] || s.timestamp == Some(timestamp)
  }

  /** The state and outcomes after `n` calls whose payloads add up to `added`. */
  function After(s: Depacketiser, n: nat, added: Buffer, timestamp: U32, done: bool): (Depacketiser, seq<Outcome>)
    requires n > 0
  {
    var whole := s.nalBuf + added;
    (Depacketiser(if done then [] else whole, Some(timestamp)), FrameOutcomes(n, done, whole))
  }

  /** One pending call in front of an `After`. */
  lemma FeedFront(s: Depacketiser, p: Buffer, ps: seq<Buffer>, a: Buffer, b: Buffer,
                  timestamp: U32, marker: bool, done: bool)
    requires ps != []
    requires Step(s, p, timestamp, false) == (Depacketiser(s.nalBuf + a, Some(timestamp)), NotFinished)
    requires Feed(Depacketiser(s.nalBuf + a, Some(timestamp)), ps, timestamp, marker)
          == After(Depacketiser(s.nalBuf + a, Some(timestamp)), |ps|, b, timestamp, done)
    ensures Feed(s, [p] + ps, timestamp, marker) == After(s, 1 + |ps|, a + b, timestamp, done)
  {
    assert ([p] + ps)[1..] == ps;
    assert s.nalBuf + a + b == s.nalBuf + (a + b);
    assert [NotFinished] + Pending(|ps|) == Pending(1 + |ps|);
    assert [NotFinished] + Pending(|ps| - 1) == Pending(|ps|);
    var last := [Ready(s.nalBuf + a + b)];
    assert done ==> [NotFinished] + (Pending(|ps| - 1) + last) == Pending(|ps|) + last;
  }

  lemma StepFragment(s: Depacketiser, first: Byte, second: Byte, chunk: Buffer, timestamp: U32, marker: bool)
    requires NalType(first) == 28 && Accepts(s, timestamp)
    requires HasBit(second, START_BIT) ==> !marker && !HasBit(second, END_BIT)
    ensures Step(s, [first, second] + chunk, timestamp, marker)
         == var header := if HasBit(second, START_BIT) then LONG_CODE + [NalType(second) + Nri(first)] else [];
            var whole := s.nalBuf + (header + chunk);
            (Depacketiser(if marker then [] else whole, Some(timestamp)), if marker then Ready(whole) else NotFinished)
  {
    var p := [first, second] + chunk;
    assert p[2..] == chunk && p[0] == first && p[1] == second;
  }

  /** The fragments after the first one add exactly the bytes they were cut from. */
  lemma {:induction false} FeedLaterFragments(s: Depacketiser, first: Byte, nalType: Byte, rest: Buffer,
                                              timestamp: U32, marker: bool)
    requires NalType(first) == 28 && nalType < 0x20 && s.timestamp == Some(timestamp)
    ensures var ps := Fragments(first, nalType, rest, false);
            Feed(s, ps, timestamp, marker) == After(s, |ps|, rest, timestamp, marker)
    decreases |rest|
  {
    hide Step, Feed, After;
    if |rest| <= CHUNK {
      StepFragment(s, first, END_BIT + nalType, rest, timestamp, marker);
      assert [] + rest == rest;
      FeedOne(s, [first, END_BIT + nalType] + rest, rest, timestamp, marker, marker);
    } else {
      var chunk := rest[..CHUNK];
      var ps := Fragments(first, nalType, rest[CHUNK..], false);
      StepFragment(s, first, nalType, chunk, timestamp, false);
      assert [] + chunk == chunk;
      var s1 := Depacketiser(s.nalBuf + chunk, Some(timestamp));
      FeedLaterFragments(s1, first, nalType, rest[CHUNK..], timestamp, marker);
      FeedFront(s, [first, nalType] + chunk, ps, chunk, rest[CHUNK..], timestamp, marker, marker);
      assert chunk + rest[CHUNK..] == rest;
    }
  }

  lemma FeedOne(s: Depacketiser, p: Buffer, added: Buffer, timestamp: U32, marker: bool, done: bool)
    requires Step(s, p, timestamp, marker)
          == (Depacketiser(if done then [] else s.nalBuf + added, Some(timestamp)),
              if done then Ready(s.nalBuf + added) else NotFinished)
    ensures Feed(s, [p], timestamp, marker) == After(s, 1, added, timestamp, done)
  {
    var (s1, o) := Step(s, p, timestamp, marker);
    assert [p][1..] == [] && [o] + [] == [o];
    assert Pending(0) + [o] == [o] && Pending(1) == [NotFinished];
  }

  lemma FragmentHeader(header: Byte)
    ensures NalType(START_BIT + NalType(header)) + Nri(Nri(header) + 28) == header % 0x80
    ensures NalType(Nri(header) + 28) == 28
    ensures HasBit(START_BIT + NalType(header), START_BIT) && !HasBit(START_BIT + NalType(header), END_BIT)
  {
    var t: int, n: int := header % 0x20, header / 0x20 % 4;
    assert (0x20 * n + 28) % 0x20 == 28 && (0x20 * n + 28) / 0x20 == n;
    assert (0x80 + t) % 0x20 == t;
    assert header % 0x80 == 0x20 * n + t;
  }

  lemma RebuiltFromParts(nal: NalUnit)
    requires Fragmented(nal)
    ensures var rest := nal[1..];
            LONG_CODE + [nal[0] % 0x80] + rest[..CHUNK] + rest[CHUNK..] == LONG_CODE + Rebuilt(nal)
  {
    var rest := nal[1..];
    assert rest[..CHUNK] + rest[CHUNK..] == rest;
    var first := [nal[0] % 0x80];
    assert LONG_CODE + first + rest[..CHUNK] + rest[CHUNK..] == LONG_CODE + (first + (rest[..CHUNK] + rest[CHUNK..]));
  }

  lemma FeedFragmented(s: Depacketiser, nal: NalUnit, timestamp: U32, marker: bool)
    requires Fragmented(nal) && Accepts(s, timestamp)
    ensures var ps := Packetise(nal);
            Feed(s, ps, timestamp, marker) == After(s, |ps|, LONG_CODE + Rebuilt(nal), timestamp, marker)
  {
    var (first, second) := (Nri(nal[0]) + 28, START_BIT + NalType(nal[0]));
    var (chunk, later) := (nal[1..][..CHUNK], nal[1..][CHUNK..]);
    var added := LONG_CODE + [nal[0] % 0x80] + chunk;
    var s1 := Depacketiser(s.nalBuf + added, Some(timestamp));
    var ps := Fragments(first, NalType(nal[0]), later, false);
    FragmentHeader(nal[0]);
    assert Step(s, [first, second] + chunk, timestamp, false) == (s1, NotFinished) by {
      StepFragment(s, first, second, chunk, timestamp, false);
    }
    assert Feed(s1, ps, timestamp, marker) == After(s1, |ps|, later, timestamp, marker) by {
      FeedLaterFragments(s1, first, NalType(nal[0]), later, timestamp, marker);
    }
    FeedFront(s, [first, second] + chunk, ps, added, later, timestamp, marker, marker);
    RebuiltFromParts(nal);
  }

  /** The packets of one NAL unit add a start code and the rebuilt unit. */
  lemma FeedNal(s: Depacketiser, nal: NalUnit, timestamp: U32, marker: bool)
    requires Deliverable(nal) && Accepts(s, timestamp)
    ensures var ps := Packetise(nal);
            Feed(s, ps, timestamp, marker)
              == After(s, |ps|, LONG_CODE + Rebuilt(nal), timestamp, marker && !BareParameterSet(nal))
  {
    if Fragmented(nal) {
      FeedFragmented(s, nal, timestamp, marker);
    } else {
      FeedOne(s, nal, LONG_CODE + nal, timestamp, marker, marker && !BareParameterSet(nal));
    }
  }

  /** Feeding two runs of packets is feeding one after the other. */
  lemma {:induction false} FeedConcat(s: Depacketiser, a: seq<Buffer>, b: seq<Buffer>, timestamp: U32, marker: bool)
    requires b != []
    ensures var (s1, os) := Feed(s, a, timestamp, false);
            var (s2, more) := Feed(s1, b, timestamp, marker);
            Feed(s, a + b, timestamp, marker) == (s2, os + more)
    decreases |a|
  {
    if a == [] {
      assert a + b == b;
      assert [] + Feed(s, b, timestamp, marker).1 == Feed(s, b, timestamp, marker).1;
    } else {
      var (s1, o) := Step(s, a[0], timestamp, false);
      FeedConcat(s1, a[1..], b, timestamp, marker);
      assert (a + b)[1..] == a[1..] + b;
      var (s2, os) := Feed(s1, a[1..], timestamp, false);
      assert [o] + (os + Feed(s2, b, timestamp, marker).1) == [o] + os + Feed(s2, b, timestamp, marker).1;
    }
  }

  /** Two `After`s in a row make one. */
  lemma AfterAfter(s: Depacketiser, n: nat, a: Buffer, m: nat, b: Buffer, timestamp: U32, done: bool)
    requires n > 0 && m > 0
    ensures var (s1, os) := After(s, n, a, timestamp, false);
            var (s2, more) := After(s1, m, b, timestamp, done);
            After(s, n + m, a + b, timestamp, done) == (s2, os + more)
  {
    assert s.nalBuf + a + b == s.nalBuf + (a + b);
    assert Pending(n) + Pending(m) == Pending(n + m);
    assert Pending(n) + (Pending(m - 1) + [Ready(s.nalBuf + a + b)]) == Pending(n + m - 1) + [Ready(s.nalBuf + a + b)];
  }

  lemma RebuiltFirst(nals: seq<NalUnit>)
    requires nals != []
    ensures RebuiltAll(nals) == [Rebuilt(nals[0])] + RebuiltAll(nals[1..])
  {
    hide Rebuilt;
  }

  lemma JoinFirst(nal: NalUnit, nals: seq<NalUnit>)
    ensures Join([nal] + nals) == LONG_CODE + nal + Join(nals)
    ensures Join([]) == []
  {
    assert ([nal] + nals)[1..] == nals;
  }

  lemma PacketiseFirst(nals: seq<NalUnit>)
    requires nals != []
    ensures PacketiseAll(nals) == Packetise(nals[0]) + PacketiseAll(nals[1..])
    ensures PacketiseAll([]) == []
  {
    hide Packetise;
  }

  /** The packets of the first unit come first, and so does what they add. */
  lemma FirstOf(nals: seq<NalUnit>)
    requires nals != []
    ensures PacketiseAll(nals) == Packetise(nals[0]) + PacketiseAll(nals[1..])
    ensures Join(RebuiltAll(nals)) == LONG_CODE + Rebuilt(nals[0]) + Join(RebuiltAll(nals[1..]))
    ensures PacketiseAll([]) == [] && Join(RebuiltAll([])) == []
  {
    hide Packetise, PacketiseAll, Join, Rebuilt, RebuiltAll;
    PacketiseFirst(nals);
    RebuiltFirst(nals);
    JoinFirst(Rebuilt(nals[0]), RebuiltAll(nals[1..]));
    assert RebuiltAll([]) == [];
  }

  lemma FeedLastNal(s: Depacketiser, nal: NalUnit, timestamp: U32, marker: bool)
    requires Deliverable(nal) && Accepts(s, timestamp)
    ensures Feed(s, Packetise(nal) + [], timestamp, marker)
         == After(s, |Packetise(nal) + []|, LONG_CODE + Rebuilt(nal) + [], timestamp, marker && !BareParameterSet(nal))
  {
    hide Feed, Packetise, Rebuilt, After;
    FeedNal(s, nal, timestamp, marker);
    assert Packetise(nal) + [] == Packetise(nal) && LONG_CODE + Rebuilt(nal) + [] == LONG_CODE + Rebuilt(nal);
  }

  lemma AcceptsOwn(s: Depacketiser, timestamp: U32)
    requires s.timestamp == Some(timestamp)
    ensures Accepts(s, timestamp)
  {
  }

  /** One NAL unit in front of packets that add `b`. */
  lemma FeedNalThen(s: Depacketiser, nal: NalUnit, ps: seq<Buffer>, b: Buffer, timestamp: U32, marker: bool, done: bool)
    requires Deliverable(nal) && Accepts(s, timestamp) && ps != []
    requires var s1 := Depacketiser(s.nalBuf + (LONG_CODE + Rebuilt(nal)), Some(timestamp));
             Feed(s1, ps, timestamp, marker) == After(s1, |ps|, b, timestamp, done)
    ensures Feed(s, Packetise(nal) + ps, timestamp, marker)
         == After(s, |Packetise(nal) + ps|, LONG_CODE + Rebuilt(nal) + b, timestamp, done)
  {
    hide Feed, Packetise, Rebuilt, BareParameterSet, Deliverable, FrameOutcomes, Accepts;
    FeedNal(s, nal, timestamp, false);
    FeedConcat(s, Packetise(nal), ps, timestamp, marker);
    AfterAfter(s, |Packetise(nal)|, LONG_CODE + Rebuilt(nal), |ps|, b, timestamp, done);
  }

  /** The packets of a frame add all its NAL units, and only the last call can finish it: it does
      exactly when it carries the marker and is not a bare parameter set. */
  lemma {:induction false} FeedNals(s: Depacketiser, nals: seq<NalUnit>, timestamp: U32, marker: bool)
    requires nals != [] && Accepts(s, timestamp)
    requires forall n :: n in nals ==> Deliverable(n)
    ensures var ps := PacketiseAll(nals);
            Feed(s, ps, timestamp, marker)
              == After(s, |ps|, Join(RebuiltAll(nals)), timestamp, marker && !BareParameterSet(nals[|nals| - 1]))
    decreases |nals|
  {
    hide Feed, Packetise, PacketiseAll, Join, Rebuilt, RebuiltAll, BareParameterSet, Deliverable, After, Accepts;
    FirstOf(nals);
    if |nals| == 1 {
      FeedLastNal(s, nals[0], timestamp, marker);
    } else {
      var last := nals[|nals| - 1];
      assert last == nals[1..][|nals| - 2];
      var s1 := Depacketiser(s.nalBuf + (LONG_CODE + Rebuilt(nals[0])), Some(timestamp));
      AcceptsOwn(s1, timestamp);
      FeedNals(s1, nals[1..], timestamp, marker);
      FeedNalThen(s, nals[0], PacketiseAll(nals[1..]), Join(RebuiltAll(nals[1..])), timestamp, marker,
                  marker && !BareParameterSet(last));
    }
  }

  /** The one way a unit changes on the way: fragmentation drops a set forbidden bit. */
  predicate Faithful(nal: NalUnit) {
    Fragmented(nal) ==> !HasBit(nal[0], 0x80)
  }

  lemma {:induction false} RebuiltExact(nals: seq<NalUnit>)
    ensures Join(RebuiltAll(nals)) == Join(nals) <==> forall n :: n in nals ==> Faithful(n)
  {
    if nals != [] {
      var (a, b) := (RebuiltAll(nals), nals);
      RebuiltExact(nals[1..]);
      assert a[1..] == RebuiltAll(nals[1..]);
      var (x, y) := (LONG_CODE + a[0], LONG_CODE + b[0]);
      assert Join(a) == x + Join(a[1..]) && Join(b) == y + Join(b[1..]);
      assert |x| == |y| && x[4..] == a[0] && y[4..] == b[0];
      assert (x + Join(a[1..]))[..|x|] == x && (y + Join(b[1..]))[..|y|] == y;
      assert (x + Join(a[1..]))[|x|..] == Join(a[1..]) && (y + Join(b[1..]))[|y|..] == Join(b[1..]);
      assert a[0][0] == b[0][0] <==> Faithful(b[0]);
      assert Faithful(b[0]) ==> a[0] == b[0];
      assert forall n :: n in nals <==> n == nals[0] || n in nals[1..];
    }
  }

  /** A start code inside shows that a unit is not well formed. */
  lemma CodeInside(pkt: NalUnit, size: nat, rest: Buffer)
    requires 3 + size <= |pkt| && LONG_CODE <= rest
    requires LONG_CODE + pkt == LONG_CODE + pkt[3..3 + size] + rest
    ensures !WellFormedNal(pkt)
  {
    var (l, r) := (LONG_CODE + pkt, LONG_CODE + pkt[3..3 + size] + rest);
    assert l[4 + size..] == r[4 + size..] == rest;
    assert l[4 + size..] == pkt[size..];
    assert pkt[size + 1] == rest[1] && pkt[size + 2] == rest[2] && pkt[size + 3] == rest[3];
    assert ShortCodeAt(pkt, size + 1);
  }

  /** What an aggregate adds is nothing, or a start code, its first unit and the rest. */
  lemma AggregateIsNotItself(pkt: NalUnit)
    requires WellFormedNal(pkt)
    ensures StapUnits(pkt, 1).0 != LONG_CODE + pkt
  {
    hide WellFormedNal;
    if |pkt| > 3 && ReadU16(pkt, 1) <= |pkt| - 3 {
      var size: nat := ReadU16(pkt, 1);
      var rest := StapUnits(pkt, 3 + size).0;
      assert StapUnits(pkt, 1).0 == LONG_CODE + pkt[3..3 + size] + rest;
      StapUnitsStart(pkt, 3 + size);
      if StapUnits(pkt, 1).0 == LONG_CODE + pkt {
        assert |rest| == |pkt| - size;
        CodeInside(pkt, size, rest);
      }
    }
  }

  lemma StapUnitsStart(pkt: Buffer, i: nat)
    requires i <= |pkt|
    ensures StapUnits(pkt, i).0 == [] || LONG_CODE <= StapUnits(pkt, i).0
  {
  }

  /** A unit sent whole comes back from its one packet exactly when it is not of a packetisation type
      and not a parameter set. */
  lemma WholeUnitExact(nal: NalUnit, timestamp: U32)
    requires !Fragmented(nal) && WellFormedNal(nal)
    ensures Step(Depacketiser([], None), nal, timestamp, true).1 == Ready(LONG_CODE + nal)
       <==> Deliverable(nal) && !BareParameterSet(nal)
  {
    hide StapUnits;
    var (added, failure) := Unpack(nal, EffectiveMarker(nal, true));
    assert [] + added == added;
    if NalType(nal[0]) == 28 {
      assert |added| < |LONG_CODE + nal|;
    } else if NalType(nal[0]) == 24 {
      AggregateIsNotItself(nal);
    }
  }

  /** Outside `Deliverable`, the round trip fails: a whole unit of type 28 is read as a fragment. */
  lemma UndeliverableUnit()
    ensures var nal: NalUnit := [28, 0, 7];
            && WellFormedNal(nal) && !Deliverable(nal)
            && Step(Depacketiser([], None), nal, 0, true).1 == Ready([7])
  {
    var nal: NalUnit := [28, 0, 7];
    assert Unpack(nal, true).0 == [7];
    assert [] + [7] == [7];
  }

  // ----- aggregation -----

  /** Units behind their 16-bit sizes, as a STAP-A carries them (section 5.7.1 of RFC 6184). */
  function SizedUnits(units: seq<Buffer>): Buffer
    requires forall u :: u in units ==> |u| < 0x1_0000
  {
    if units == [] then [] else [|units[0]| / 0x100, |units[0]| % 0x100] + units[0] + SizedUnits(units[1..])
  }

  /** Reading an aggregate gives back the units it was built from. */
  lemma {:induction false} AggregateRoundTrip(pkt: Buffer, i: nat, units: seq<NalUnit>)
    requires forall u :: u in units ==> |u| < 0x1_0000
    requires i <= |pkt| && pkt[i..] == SizedUnits(units)
    ensures StapUnits(pkt, i) == (Join(units), true)
    decreases |units|
  {
    if units != [] {
      var (u, more) := (units[0], SizedUnits(units[1..]));
      var size: Buffer := [|u| / 0x100, |u| % 0x100];
      assert pkt[i..] == size + u + more;
      FirstOfSized(pkt, i, u, more);
      AggregateRoundTrip(pkt, i + 2 + |u|, units[1..]);
    }
  }

  lemma FirstOfSized(pkt: Buffer, i: nat, u: Buffer, more: Buffer)
    requires i <= |pkt| && |u| < 0x1_0000
    requires pkt[i..] == [|u| / 0x100, |u| % 0x100] + u + more
    ensures |pkt| == i + 2 + |u| + |more| && ReadU16(pkt, i) == |u|
    ensures pkt[i + 2..i + 2 + |u|] == u && pkt[i + 2 + |u|..] == more
  {
    var rest := pkt[i..];
    assert pkt[i] == rest[0] && pkt[i + 1] == rest[1];
    assert pkt[i + 2..i + 2 + |u|] == rest[2..2 + |u|];
    assert pkt[i + 2 + |u|..] == rest[2 + |u|..];
  }

  /** From `i` on there are sized units and no more than two bytes behind them. */
  ghost predicate IsAggregate(pkt: Buffer, i: nat)
    requires i <= |pkt|
  {
    exists units: seq<Buffer>, tail: Buffer :: CutsInto(pkt[i..], units, tail)
  }

  ghost predicate CutsInto(b: Buffer, units: seq<Buffer>, tail: Buffer) {
    (forall u :: u in units ==> |u| < 0x1_0000) && |tail| <= 2 && b == SizedUnits(units) + tail
  }

  lemma {:induction false} CutIsRead(pkt: Buffer, i: nat, units: seq<Buffer>, tail: Buffer)
    requires i <= |pkt| && CutsInto(pkt[i..], units, tail)
    ensures StapUnits(pkt, i).1
    decreases |units|
  {
    if units == [] {
      assert pkt[i..] == tail;
    } else if |pkt| - i > 2 {
      var u := units[0];
      var more := SizedUnits(units[1..]) + tail;
      assert pkt[i..] == [|u| / 0x100, |u| % 0x100] + u + more;
      FirstOfSized(pkt, i, u, more);
      CutIsRead(pkt, i + 2 + |u|, units[1..], tail);
    }
  }

  lemma {:induction false} ReadIsCut(pkt: Buffer, i: nat) returns (units: seq<Buffer>, tail: Buffer)
    requires i <= |pkt| && StapUnits(pkt, i).1
    ensures CutsInto(pkt[i..], units, tail)
    decreases |pkt| - i
  {
    if |pkt| - i <= 2 {
      units, tail := [], pkt[i..];
    } else {
      var (size, at) := (ReadU16(pkt, i), i + 2);
      var u := pkt[at..at + size];
      units, tail := ReadIsCut(pkt, at + size);
      OneMoreUnit(pkt, i, u, units, tail);
      units := [u] + units;
    }
  }

  lemma OneMoreUnit(pkt: Buffer, i: nat, u: Buffer, units: seq<Buffer>, tail: Buffer)
    requires i + 2 + |u| <= |pkt| && ReadU16(pkt, i) == |u| && pkt[i + 2..i + 2 + |u|] == u
    requires CutsInto(pkt[i + 2 + |u|..], units, tail)
    ensures CutsInto(pkt[i..], [u] + units, tail)
  {
    assert ([u] + units)[1..] == units;
    var size: Buffer := [|u| / 0x100, |u| % 0x100];
    assert pkt[i..] == pkt[i..i + 2] + pkt[i + 2..i + 2 + |u|] + pkt[i + 2 + |u|..];
    assert pkt[i..i + 2] == size;
    assert SizedUnits([u] + units) == size + u + SizedUnits(units);
  }

  /** Which call ends how: a packet is refused when it is empty, of another frame than the bytes kept,
      a fragment that starts and ends a unit or has no header, or an aggregate that does not add up; of
      the others, one with the marker that is no bare parameter set hands over what has been kept. */
  lemma OutcomeExactly(s: Depacketiser, pkt: Buffer, timestamp: U32, marker: bool)
    ensures Step(s, pkt, timestamp, marker).1 == EmptyPacket <==> pkt == []
    ensures pkt != [] ==>
              var (outcome, nalType) := (Step(s, pkt, timestamp, marker).1, pkt[0] % 0x20);
              var foreign := s.nalBuf != [] && s.timestamp != Some(timestamp);
              var cut := !foreign && nalType == 28 && |pkt| == 1;
              var both := !foreign && nalType == 28 && |pkt| > 1
                          && pkt[1] >= 0x80 && (marker || pkt[1] / 0x40 % 2 == 1);
              var bad := !foreign && nalType == 24 && !IsAggregate(pkt, 1);
              && (outcome == TimestampMismatch <==> foreign)
              && (outcome == IndexPanic <==> cut)
              && (outcome == StartAndEnd <==> both)
              && (outcome == InvalidStapA <==> bad)
              && (outcome.Ready? <==> !foreign && !cut && !both && !bad && marker && nalType != 7 && nalType != 8)
  {
    if pkt != [] && pkt[0] % 0x20 == 24 {
      if StapUnits(pkt, 1).1 {
        var units, tail := ReadIsCut(pkt, 1);
      } else if IsAggregate(pkt, 1) {
        var units: seq<Buffer>, tail: Buffer :| CutsInto(pkt[1..], units, tail);
        CutIsRead(pkt, 1, units, tail);
      }
    }
  }
}
