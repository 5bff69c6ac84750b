/** Retransmission in the RTX format (section 4 of RFC 4588): the sender of media/src/rtx.rs and the
    unwrapping in the receive path of media/src/stream.rs. */
module Rtx {
  import opened Bytes
  import opened RtpPackets
  import opened TwoGenerationCaches

  const RTX_SSRC_OFFSET := 1

  function ToRtxSsrc(ssrc: U32): U32 { (ssrc + RTX_SSRC_OFFSET) % 0x1_0000_0000 }

  function PacketToRtx(packet: Buffer, ssrc: U32, seqnum: U16): (r: Buffer)
    requires Valid(packet)
    ensures Valid(r)
    ensures Parse(r) == Parse(packet).(sequence := seqnum, ssrc := ssrc,
                                       payload := Be16(Sequence(packet)) + Payload(packet))
  {
    WithPayload(WithSsrc(WithSequence(packet, seqnum), ssrc), Be16(Sequence(packet)) + Payload(packet))
  }

  /** The byte-vector patching of `packet_to_rtx`. */
  method BuildRtx(packet: Buffer, ssrc: U32, seqnum: U16) returns (r: Buffer)
    requires Valid(packet)
    ensures r == PacketToRtx(packet, ssrc, seqnum)
  {
    var at := PayloadOffset(packet);
    r := packet[..at];
    r := WriteU16(r, 2, seqnum);
    r := WriteU32(r, 8, ssrc);
    r := r + [0, 0];
    r := WriteU16(r, |r| - 2, Sequence(packet));
    r := r + Payload(packet);
    PatchedHeader(packet, ssrc, seqnum);
    assert r == WriteU32(WriteU16(packet[..at], 2, seqnum), 8, ssrc) + Be16(Sequence(packet)) + Payload(packet);
  }

  lemma PatchedHeader(packet: Buffer, ssrc: U32, seqnum: U16)
    requires Valid(packet)
    ensures var at := PayloadOffset(packet);
            PacketToRtx(packet, ssrc, seqnum)
              == WriteU32(WriteU16(packet[..at], 2, seqnum), 8, ssrc) + Be16(Sequence(packet)) + Payload(packet)
  {
    hide HasBit;
    var at := PayloadOffset(packet);
    var patched := WithSsrc(WithSequence(packet, seqnum), ssrc);
    assert PayloadOffset(patched) == at;
    assert patched[..at] == WriteU32(WriteU16(packet[..at], 2, seqnum), 8, ssrc);
  }

  // ----- receiving -----

  datatype Unwrapped = NotThisStream | Media(packet: Buffer)

  /** What the receive path makes of a packet when the stream's payload type is `pt`; `layerSsrc` is
      the media SSRC last seen with the packet's layer id. */
  function Unwrap(packet: Buffer, pt: Byte, layerSsrc: Option<U32>): (r: Unwrapped)
    requires Valid(packet)
    ensures r.Media? <==> PayloadType(packet) == pt || (PayloadType(packet) == pt + 1 && |Payload(packet)| > 2)
    ensures r.Media? ==> Valid(r.packet)
  {
    if PayloadType(packet) == pt then Media(packet)
    else if PayloadType(packet) == pt + 1 && |Payload(packet)| > 2 then
      var seqnum := ReadU16(Payload(packet), 0);
      var media := WithPayload(WithPayloadType(WithSequence(packet, seqnum), pt), Payload(packet)[2..]);
      Media(if layerSsrc.Some? then WithSsrc(media, layerSsrc.value) else media)
    else NotThisStream
  }

  /** What goes on the wire for a resend request. */
  function Resent(packet: Buffer, pt: Byte, seqnum: U16): (r: Buffer)
    requires Valid(packet) && pt < 0xFF
    ensures Valid(r)
  {
    WithPayloadType(PacketToRtx(packet, ToRtxSsrc(Ssrc(packet)), seqnum), pt + 1)
  }

  lemma ResentView(packet: Buffer, pt: Byte, seqnum: U16)
    requires Valid(packet) && pt < 0x80
    ensures var wire := Resent(packet, pt, seqnum);
            && Parse(wire) == Parse(packet).(sequence := seqnum, ssrc := ToRtxSsrc(Ssrc(packet)),
                                             payload := Payload(wire), payloadType := (pt + 1) % 0x80)
            && Payload(wire) == Be16(Sequence(packet)) + Payload(packet)
  {
  }

  /** A packet of the next payload type becomes one of the stream's own: its sequence number is the
      first two bytes of its payload, which go, and its SSRC the layer's, if that is known. */
  lemma UnwrapView(wire: Buffer, pt: Byte, layerSsrc: Option<U32>)
    requires Valid(wire) && pt < 0x7F && PayloadType(wire) == pt + 1 && |Payload(wire)| > 2
    ensures var r := Unwrap(wire, pt, layerSsrc);
            && r.Media?
            && Parse(r.packet) == Parse(wire).(sequence := ReadU16(Payload(wire), 0), payloadType := pt,
                                               payload := Payload(wire)[2..],
                                               ssrc := if layerSsrc.Some? then layerSsrc.value else Ssrc(wire))
  {
    hide Parse, Valid, WithSequence, WithPayloadType, WithPayload, WithSsrc, ReadU16;
  }

  /** Unwrapping a resent packet gives the original byte for byte, exactly when it has a payload, the
      payload type leaves room for the next one in seven bits, and the receiver knows the SSRC of the
      layer: without it the packet keeps the SSRC of the RTX stream. */
  lemma RoundTrip(packet: Buffer, seqnum: U16, layerSsrc: Option<U32>)
    requires Valid(packet)
    ensures var pt := PayloadType(packet);
            Unwrap(Resent(packet, pt, seqnum), pt, layerSsrc) == Media(packet)
            <==> Payload(packet) != [] && pt < 0x7F && layerSsrc == Some(Ssrc(packet))
  {
    hide Parse, Payload, Resent, Unwrap, ReadU16, Ssrc;
    var pt := PayloadType(packet);
    var wire := Resent(packet, pt, seqnum);
    assert pt < 0x80;
    ResentView(packet, pt, seqnum);
    if Payload(packet) != [] && pt < 0x7F {
      OriginalSequence(packet);
      UnwrapView(wire, pt, layerSsrc);
      var r := Unwrap(wire, pt, layerSsrc).packet;
      assert ToRtxSsrc(Ssrc(packet)) != Ssrc(packet);
      if layerSsrc == Some(Ssrc(packet)) {
        ParseInjective(r, packet);
      } else {
        assert Parse(r).ssrc != Parse(packet).ssrc;
      }
    }
  }

  lemma OriginalSequence(packet: Buffer)
    requires Valid(packet)
    ensures var payload := Be16(Sequence(packet)) + Payload(packet);
            payload[2..] == Payload(packet) && ReadU16(payload, 0) == Sequence(packet)
  {
  }

  // ----- the sender -----

  type Key = (U32, U16)

  function KeyOf(packet: Buffer): Key
    requires Valid(packet)
  {
    (Ssrc(packet), Sequence(packet))
  }

  datatype Sender = Sender(cache: Cache<Key, Packet>, nextSeqnum: map<U32, nat>)

  function NextSeqnum(next: map<U32, nat>, ssrc: U32): nat {
    if ssrc in next then next[ssrc] else 1
  }

  function Remembered(s: Sender, packet: Packet, now: nat): Sender {
    s.(cache := Inserted(s.cache, KeyOf(packet), packet, now))
  }

  function Resend(s: Sender, ssrc: U32, seqnum: U16): (r: (Sender, Option<Packet>)) {
    var rtx := ToRtxSsrc(ssrc);
    var n := NextSeqnum(s.nextSeqnum, rtx);
    match Lookup(s.cache, (ssrc, seqnum))
    case None => (s.(nextSeqnum := s.nextSeqnum[rtx := n]), None)
    case Some(packet) => (s.(nextSeqnum := s.nextSeqnum[rtx := n + 1]), Some(PacketToRtx(packet, rtx, n % 0x1_0000)))
  }

  class RtxSender {
    const previouslySent: TwoGenerationCache<Key, Packet>
    var nextSeqnum: map<U32, nat>

    ghost function State(): Sender
      reads this, previouslySent
    {
      Sender(previouslySent.State(), nextSeqnum)
    }

    constructor (limit: nat, now: nat)
      ensures State() == Sender(Fresh(limit, now), map[])
      ensures fresh(previouslySent)
    {
      previouslySent := new TwoGenerationCache(limit, now);
      nextSeqnum := map[];
    }

    method IncrementSeqnum(ssrc: U32) returns (n: nat)
      modifies this
      ensures n == NextSeqnum(old(nextSeqnum), ssrc)
      ensures nextSeqnum == old(nextSeqnum)[ssrc := n + 1]
    {
      n := NextSeqnum(nextSeqnum, ssrc);
      nextSeqnum := nextSeqnum[ssrc := n + 1];
    }

    method RememberSent(packet: Packet, departed: nat)
      modifies previouslySent
      ensures State() == Remembered(old(State()), packet, departed)
    {
      previouslySent.Insert(KeyOf(packet), packet, departed);
    }

    method ResendAsRtx(ssrc: U32, seqnum: U16) returns (r: Option<Packet>)
      modifies this
      ensures (State(), r) == Resend(old(State()), ssrc, seqnum)
    {
      hide Parse, Valid, PacketToRtx;
      var rtx := ToRtxSsrc(ssrc);
      var n := NextSeqnum(nextSeqnum, rtx);
      nextSeqnum := nextSeqnum[rtx := n];
      var sent := previouslySent.Get((ssrc, seqnum));
      if sent.None? {
        return None;
      }
      var packet := BuildRtx(sent.value, rtx, n % 0x1_0000);
      var _ := IncrementSeqnum(rtx);
      assert nextSeqnum == old(nextSeqnum)[rtx := n + 1];
      return Some(packet);
    }
  }

  // ----- whole runs -----

  datatype Event = Sent(packet: Packet, now: nat) | Requested(ssrc: U32, seqnum: U16)

  function Run(limit: nat, start: nat, es: seq<Event>): Sender {
    if es == [] then Sender(Fresh(limit, start), map[])
    else
      var s := Run(limit, start, es[..|es| - 1]);
      match es[|es| - 1]
      case Sent(packet, now) => Remembered(s, packet, now)
      case Requested(ssrc, seqnum) => Resend(s, ssrc, seqnum).0
  }

  /** The answer to a request made after `es`. */
  function Answer(limit: nat, start: nat, es: seq<Event>, ssrc: U32, seqnum: U16): Option<Packet> {
    Resend(Run(limit, start, es), ssrc, seqnum).1
  }

  /** How many requests for `ssrc` have been answered with a packet. */
  function Answered(limit: nat, start: nat, es: seq<Event>, ssrc: U32): nat {
    if es == [] then 0
    else
      var (before, e) := (es[..|es| - 1], es[|es| - 1]);
      Answered(limit, start, before, ssrc)
        + (if e.Requested? && e.ssrc == ssrc && Answer(limit, start, before, ssrc, e.seqnum).Some? then 1 else 0)
  }

  /** The cache operations behind a run. */
  function Stores(es: seq<Event>): seq<Op<Key, Packet>> {
    if es == [] then []
    else
      var e := es[|es| - 1];
      Stores(es[..|es| - 1]) + (if e.Sent? then [Put(KeyOf(e.packet), e.packet, e.now)] else [])
  }

  lemma {:induction false} CacheOfRun(limit: nat, start: nat, es: seq<Event>)
    ensures Run(limit, start, es).cache == TwoGenerationCaches.Run(limit, start, Stores(es))
  {
    if es != [] {
      var before := es[..|es| - 1];
      CacheOfRun(limit, start, before);
      var ops := Stores(es);
      assert es[|es| - 1].Sent? ==> ops[..|ops| - 1] == Stores(before);
      assert Stores(before) + [] == Stores(before);
    }
  }

  /** Every stream has an RTX SSRC of its own, the next number. */
  lemma RtxSsrcsDistinct(a: U32, b: U32)
    ensures ToRtxSsrc(a) == ToRtxSsrc(b) <==> a == b
    ensures ToRtxSsrc(a) == b <==> b == a + 1 || (a == 0xFFFF_FFFF && b == 0)
  {
  }

  lemma ResendCounts(s: Sender, asked: U32, seqnum: U16, ssrc: U32)
    ensures var (after, r) := Resend(s, asked, seqnum);
            NextSeqnum(after.nextSeqnum, ToRtxSsrc(ssrc))
              == NextSeqnum(s.nextSeqnum, ToRtxSsrc(ssrc)) + (if asked == ssrc && r.Some? then 1 else 0)
  {
    RtxSsrcsDistinct(asked, ssrc);
  }

  /** Over every run, the counter of an RTX stream is one more than the resends it carried: none is
      skipped and none is spent on a request that missed. */
  lemma {:induction false} CounterCountsAnswers(limit: nat, start: nat, es: seq<Event>, ssrc: U32)
    ensures NextSeqnum(Run(limit, start, es).nextSeqnum, ToRtxSsrc(ssrc)) == 1 + Answered(limit, start, es, ssrc)
  {
    if es != [] {
      var (before, e) := (es[..|es| - 1], es[|es| - 1]);
      CounterCountsAnswers(limit, start, before, ssrc);
      if e.Requested? {
        ResendCounts(Run(limit, start, before), e.ssrc, e.seqnum, ssrc);
      }
    }
  }

  /** Over every run, an answer wraps the packet last sent under the requested number, under the
      next number of its own RTX stream. */
  lemma AnswersAreCurrent(limit: nat, start: nat, es: seq<Event>, ssrc: U32, seqnum: U16)
    requires Monotonic(start, Stores(es))
    requires Answer(limit, start, es, ssrc, seqnum).Some?
    ensures var e := Latest(limit, Stores(es), (ssrc, seqnum));
            && e.Some?
            && Answer(limit, start, es, ssrc, seqnum).value
                 == PacketToRtx(e.value.value, ToRtxSsrc(ssrc), (1 + Answered(limit, start, es, ssrc)) % 0x1_0000)
  {
    CacheOfRun(limit, start, es);
    NeverStale(limit, start, Stores(es), (ssrc, seqnum));
    CounterCountsAnswers(limit, start, es, ssrc);
  }

  lemma {:induction false} LatestIsKeyed(limit: nat, es: seq<Event>, key: Key)
    ensures var e := Latest(limit, Stores(es), key); e.Some? ==> KeyOf(e.value.value) == key
  {
    if es != [] {
      var before := es[..|es| - 1];
      LatestIsKeyed(limit, before, key);
      var ops := Stores(es);
      assert es[|es| - 1].Sent? ==> ops[..|ops| - 1] == Stores(before);
      assert Stores(before) + [] == Stores(before);
    }
  }

  lemma SurvivorIsAnswered(limit: nat, start: nat, es: seq<Event>, ssrc: U32, seqnum: U16)
    requires limit > 0 && Monotonic(start, Stores(es))
    requires var e := Latest(limit, Stores(es), (ssrc, seqnum));
             e.Some? && Clock(start, Stores(es)) <= e.value.at + limit
    ensures Answer(limit, start, es, ssrc, seqnum)
         == Some(PacketToRtx(Latest(limit, Stores(es), (ssrc, seqnum)).value.value, ToRtxSsrc(ssrc),
                             (1 + Answered(limit, start, es, ssrc)) % 0x1_0000))
  {
    hide Parse, Valid, Latest, Answered, Run, Stores, TwoGenerationCaches.Run, PacketToRtx;
    CacheOfRun(limit, start, es);
    Survives(limit, start, Stores(es), (ssrc, seqnum));
    CounterCountsAnswers(limit, start, es, ssrc);
  }

  /** A request made no more than the limit after a packet was stored, by the time of the latest one
      stored, is answered with a packet that unwraps to it byte for byte. */
  lemma AnswerUnwraps(limit: nat, start: nat, es: seq<Event>, ssrc: U32, seqnum: U16)
    requires limit > 0 && Monotonic(start, Stores(es))
    requires var e := Latest(limit, Stores(es), (ssrc, seqnum));
             && e.Some? && Clock(start, Stores(es)) <= e.value.at + limit
             && Payload(e.value.value) != [] && PayloadType(e.value.value) < 0x7F
    ensures var original := Latest(limit, Stores(es), (ssrc, seqnum)).value.value;
            var pt := PayloadType(original);
            var answer := Answer(limit, start, es, ssrc, seqnum);
            && answer.Some?
            && Unwrap(WithPayloadType(answer.value, pt + 1), pt, Some(ssrc)) == Media(original)
  {
    hide Parse, Valid, Latest, Answered, Run, Stores, Resend, PacketToRtx, Unwrap, TwoGenerationCaches.Run,
         WithPayloadType;
    var original := Latest(limit, Stores(es), (ssrc, seqnum)).value.value;
    var n := (1 + Answered(limit, start, es, ssrc)) % 0x1_0000;
    SurvivorIsAnswered(limit, start, es, ssrc, seqnum);
    LatestIsKeyed(limit, es, (ssrc, seqnum));
    RoundTrip(original, n, Some(ssrc));
  }
}
