/** The end of the sending path of a video stream (media/src/stream.rs): building the outgoing packet,
    remembering it, stamping the transport-wide sequence number into its header extension, and
    resending it on request. */
module VideoSenders {
  import opened Bytes
  import opened RtpPackets
  import opened TwoGenerationCaches
  import opened Rtx
  import Vp8Forwarding
  import Vp8Header

  // ----- the template -----

  /** Extension element 3 with two bytes of data (section 4.2 of RFC 8285). */
  const TCC_EXTENSION: Buffer := [0x31, 0, 0]

  /** What outgoing packets of a source start from; the sequence number and timestamp are random. */
  function Template(ssrc: U32, pt: Byte, sequence: U16, timestamp: U32): (r: Packet)
    ensures Parse(r) == View(4, [], false, pt % 0x80, sequence, timestamp, ssrc, Some((PROFILE, [0, 0x31, 0, 0])), [])
  {
    TemplateView(ssrc, pt, sequence, timestamp);
    AppendExtension(Addressed(ssrc, pt, sequence, timestamp), TCC_EXTENSION)
  }

  function Addressed(ssrc: U32, pt: Byte, sequence: U16, timestamp: U32): (r: Packet)
    ensures Parse(r) == View(4, [], false, pt % 0x80, sequence, timestamp, ssrc, None, [])
  {
    var blank := [0x80] + Zeros(11);
    BlankView(blank);
    hide Parse, Valid;
    WithPayloadType(WithSsrc(WithTimestamp(WithSequence(blank, sequence), timestamp), ssrc), pt)
  }

  lemma TemplateView(ssrc: U32, pt: Byte, sequence: U16, timestamp: U32)
    ensures var r := AppendExtension(Addressed(ssrc, pt, sequence, timestamp), TCC_EXTENSION);
            && Valid(r)
            && Parse(r)
               == View(4, [], false, pt % 0x80, sequence, timestamp, ssrc, Some((PROFILE, [0, 0x31, 0, 0])), [])
  {
    hide Parse, Valid, Addressed, SetExtension, AppendExtension;
    var r := Addressed(ssrc, pt, sequence, timestamp);
    assert Extension(r) == None;
    InPlaceAgrees(r, TCC_EXTENSION);
    assert Padded(TCC_EXTENSION) == [0, 0x31, 0, 0];
  }

  lemma BlankView(b: Buffer)
    requires b == [0x80] + Zeros(11)
    ensures Valid(b) && Parse(b) == View(4, [], false, 0, 0, 0, 0, None, [])
  {
    assert b[12..12] == [] && b[12..] == [];
  }

  // ----- the stamp -----

  /** The header extension has room for the stamp. */
  predicate HasRoom(b: Buffer) {
    Valid(b) && Extension(b).Some? && |Extension(b).value| >= 4
  }

  type Stampable = b: Packet | HasRoom(b) witness [0x90] + Zeros(11) + [0xBE, 0xDE, 0, 1, 0, 0, 0, 0]

  function Stamped(b: Stampable, tcc: U16): (r: Stampable)
    ensures var (profile, data) := Parse(b).extension.value;
            Parse(r) == Parse(b).(extension := Some((profile, data[..2] + Be16(tcc) + data[4..])))
  {
    StampView(b, tcc);
    WriteU16(b, ExtensionOffset(b) + 6, tcc)
  }

  /** Packets that agree up to and including the header of their extension agree on all before its data. */
  lemma SameUpToExtension(b: Packet, r: Buffer, n: nat)
    requires ExtensionBit(b) && ExtensionOffset(b) + 4 <= n <= |b| == |r| && r[..n] == b[..n]
    ensures Valid(r) && ExtensionBit(r)
    ensures ExtensionOffset(r) == ExtensionOffset(b) && PayloadOffset(r) == PayloadOffset(b)
    ensures Parse(r) == Parse(b).(extension := Parse(r).extension, payload := Payload(r))
    ensures Parse(r).extension.value.0 == Parse(b).extension.value.0
  {
    var at := ExtensionOffset(b);
    assert forall i :: 0 <= i < n ==> r[i] == r[..n][i] == b[..n][i] == b[i];
    assert r[HEADER_LEN..at] == b[HEADER_LEN..at];
  }

  /** The two bytes at 6 from the start of the extension block are the last two of its first word of data. */
  lemma StampView(b: Stampable, tcc: U16)
    ensures ExtensionOffset(b) + 8 <= |b|
    ensures var r := WriteU16(b, ExtensionOffset(b) + 6, tcc);
            var (profile, data) := Parse(b).extension.value;
            && Valid(r) && Parse(r) == Parse(b).(extension := Some((profile, data[..2] + Be16(tcc) + data[4..])))
  {
    hide WriteU16, Be16;
    var (at, end) := (ExtensionOffset(b), PayloadOffset(b));
    var r := WriteU16(b, at + 6, tcc);
    SameUpToExtension(b, r, at + 6);
    StampedBytes(b, r, at, end, tcc);
  }

  lemma StampedBytes(b: Buffer, r: Buffer, at: nat, end: nat, tcc: U16)
    requires at + 8 <= end <= |b| == |r|
    requires r[..at + 6] == b[..at + 6] && r[at + 8..] == b[at + 8..] && ReadU16(r, at + 6) == tcc
    ensures var (was, now) := (b[at + 4..end], r[at + 4..end]); now == was[..2] + Be16(tcc) + was[4..]
    ensures r[end..] == b[end..]
  {
    hide Be16, ReadU16;
    Be16Read(r, at + 6);
    var (was, now) := (b[at + 4..end], r[at + 4..end]);
    assert r[end..] == r[at + 8..][end - at - 8..] == b[at + 8..][end - at - 8..] == b[end..];
    assert now == r[at + 4..at + 6] + r[at + 6..at + 8] + r[at + 8..end];
    assert r[at + 4..at + 6] == r[..at + 6][at + 4..] == b[..at + 6][at + 4..] == was[..2];
    assert r[at + 8..end] == r[at + 8..][..end - at - 8] == b[at + 8..][..end - at - 8] == was[4..];
  }

  /** The stamp a packet carries. */
  function StampOf(b: Stampable): U16 { ReadU16(Extension(b).value, 2) }

  /** A stamp reads back, a second one takes its place, and a packet stamped with what it carries is unchanged. */
  lemma StampLaws(b: Stampable, s: U16, t: U16)
    ensures StampOf(Stamped(b, s)) == s
    ensures Stamped(Stamped(b, s), t) == Stamped(b, t)
    ensures Stamped(b, s) == b <==> StampOf(b) == s
  {
    hide Parse, Valid, Stamped, Be16;
    var data := Parse(b).extension.value.1;
    var once := data[..2] + Be16(s) + data[4..];
    assert once[2..4] == Be16(s);
    ReadsBe16(once, 2, s);
    assert once[..2] == data[..2] && once[4..] == data[4..];
    ParseInjective(Stamped(Stamped(b, s), t), Stamped(b, t));
    Be16Read(data, 2);
    if StampOf(b) == s {
      assert data == data[..2] + data[2..4] + data[4..];
      ParseInjective(Stamped(b, s), b);
    }
  }

  /** Wrapping for a resend and stamping do not disturb each other. */
  lemma ResentStamped(b: Stampable, pt: Byte, seqnum: U16, tcc: U16)
    requires pt < 0x80
    ensures HasRoom(Resent(b, pt, seqnum))
    ensures Stamped(Resent(b, pt, seqnum), tcc) == Resent(Stamped(b, tcc), pt, seqnum)
  {
    hide Parse, Valid, Stamped, Resent, Be16;
    ResentView(b, pt, seqnum);
    ResentView(Stamped(b, tcc), pt, seqnum);
    ParseInjective(Stamped(Resent(b, pt, seqnum), tcc), Resent(Stamped(b, tcc), pt, seqnum));
  }

  /** What the receiver makes of a resend, stamped anew: the packet with the new stamp, byte for byte,
      exactly when it has a payload, a payload type below 127, and the layer's SSRC is known. */
  lemma StampedRoundTrip(b: Stampable, seqnum: U16, tcc: U16, layerSsrc: Option<U32>)
    ensures var pt := PayloadType(b);
            && HasRoom(Resent(b, pt, seqnum))
            && (Unwrap(Stamped(Resent(b, pt, seqnum), tcc), pt, layerSsrc) == Media(Stamped(b, tcc))
                <==> Payload(b) != [] && pt < 0x7F && layerSsrc == Some(Ssrc(b)))
  {
    hide Parse, Payload, Stamped, Resent, Unwrap, Ssrc;
    var pt := PayloadType(b);
    assert pt < 0x80;
    ResentStamped(b, pt, seqnum, tcc);
    RoundTrip(Stamped(b, tcc), seqnum, layerSsrc);
  }

  /** The packet built for an incoming one has room for the stamp, and once stamped its extension is
      element 3 with the transport-wide sequence number. */
  lemma OutgoingIsStampable(ssrc: U32, pt: Byte, sequence: U16, timestamp: U32, packet: Packet, ids: Vp8Forwarding.Ids,
                            tcc: U16)
    requires |Payload(packet)| >= 5
    ensures var r := Vp8Forwarding.Outgoing(Template(ssrc, pt, sequence, timestamp), packet, ids);
            && HasRoom(r) && Extension(Stamped(r, tcc)) == Some([0, 0x31] + Be16(tcc))
            && Ssrc(r) == ssrc && PayloadType(r) == pt % 0x80
            && Payload(r) != []
  {
    hide Parse, Valid, Stamped, Template, Vp8Forwarding.Outgoing, Be16, Payload;
    Vp8Forwarding.OutgoingView(Template(ssrc, pt, sequence, timestamp), packet, ids);
    var d: Buffer := [0, 0x31, 0, 0];
    assert d[..2] + Be16(tcc) + d[4..] == [0, 0x31] + Be16(tcc);
  }

  // ----- the sender -----

  /** Packets sent so far are numbered transport-wide, first sends and resends alike. */
  datatype State = State(rtx: Sender, tccSeq: nat)

  /** Sending a packet takes the next number. */
  function NextStamp(s: State): U16 { (s.tccSeq + 1) % 0x1_0000 }

  /** A packet is remembered as it was built, and sent with its stamp. */
  function AfterForward(s: State, packet: Stampable, now: nat): (State, Stampable) {
    (State(Remembered(s.rtx, packet, now), s.tccSeq + 1), Stamped(packet, NextStamp(s)))
  }

  /** A request is answered, if it can be, with the remembered packet wrapped and stamped anew. */
  function AfterNack(s: State, pt: Byte, ssrc: U32, seqnum: U16): (r: (State, Option<Packet>))
    requires pt < 0xFF
  {
    var (rtx, answer) := Resend(s.rtx, ssrc, seqnum);
    match answer
    case None => (State(rtx, s.tccSeq), None)
    case Some(packet) =>
      var wire := WithPayloadType(packet, pt + 1);
      (State(rtx, s.tccSeq + 1), if HasRoom(wire) then Some(Stamped(wire, NextStamp(s))) else None)
  }

  class VideoStreamSender {
    const rtxSender: RtxSender
    const pt: Byte
    var tccSeq: nat

    ghost function Value(): State
      reads this, rtxSender, rtxSender.previouslySent
    {
      State(rtxSender.State(), tccSeq)
    }

    /** Only packets with room for the stamp are remembered. */
    ghost predicate Valid()
      reads this, rtxSender, rtxSender.previouslySent
    {
      && pt < 0xFF
      && AllHaveRoom(rtxSender.previouslySent.State())
    }

    constructor (limit: nat, now: nat, pt: Byte)
      requires pt < 0xFF
      ensures Valid() && this.pt == pt && Value() == State(Sender(Fresh(limit, now), map[]), 0)
      ensures fresh(rtxSender) && fresh(rtxSender.previouslySent)
    {
      rtxSender := new RtxSender(limit, now);
      this.pt := pt;
      tccSeq := 0;
    }

    /** The stamp goes in right before a packet leaves. */
    method SendRtpPacket(packet: RtpPacket)
      requires HasRoom(packet.inner)
      modifies this`tccSeq, packet
      ensures tccSeq == old(tccSeq) + 1
      ensures packet.inner == Stamped(old(packet.inner), tccSeq % 0x1_0000)
    {
      tccSeq := tccSeq + 1;
      StampView(packet.inner, tccSeq % 0x1_0000);
      packet.inner := WriteU16(packet.inner, ExtensionOffset(packet.inner) + 6, tccSeq % 0x1_0000);
    }

    /** The packet for an incoming one, setter by setter. */
    static method BuildOutgoing(template: Packet, incoming: Packet, ids: Vp8Forwarding.Ids) returns (out: RtpPacket)
      requires |Payload(incoming)| >= 5
      ensures fresh(out) && out.inner == Vp8Forwarding.Outgoing(template, incoming, ids)
    {
      hide Parse, WithSequence, WithTimestamp, WithMarker, WithPayload, Vp8Header.Modified;
      out := new RtpPacket(template);
      out.SetSequence(ids.seqnum % 0x1_0000);
      out.SetTimestamp(ids.timestamp % 0x1_0000_0000);
      out.SetMarker(Marker(incoming));
      var payload := RewritePayload(Payload(incoming), ids.pictureId % 0x1_0000, ids.tl0PicIdx % 0x100);
      out.SetPayload(payload);
    }

    static method RewritePayload(payload: Buffer, pictureId: U16, tl0PicIdx: Byte) returns (r: Buffer)
      requires |payload| >= 5
      ensures r == Vp8Header.Modified(payload, pictureId, tl0PicIdx)
    {
      hide Vp8Header.Modified;
      var bytes := new Byte[|payload|](i requires 0 <= i < |payload| => payload[i]);
      assert bytes[..] == payload;
      Vp8Header.ModifyHeader(bytes, pictureId, tl0PicIdx);
      r := bytes[..];
    }

    method Forward(packet: RtpPacket, now: nat)
      requires Valid() && HasRoom(packet.inner)
      modifies this`tccSeq, packet, rtxSender.previouslySent
      ensures Valid() && (Value(), packet.inner) == AfterForward(old(Value()), old(packet.inner), now)
    {
      hide Stamped;
      RememberedHaveRoom(rtxSender.State(), packet.inner, now);
      rtxSender.RememberSent(packet.inner, now);
      SendRtpPacket(packet);
    }

    /** One number of a request. */
    method Resend(ssrc: U32, seqnum: U16) returns (wire: Option<Packet>)
      requires Valid()
      modifies this`tccSeq, rtxSender
      ensures Valid() && (Value(), wire) == AfterNack(old(Value()), pt, ssrc, seqnum)
      ensures wire.None? <==> Lookup(old(rtxSender.previouslySent.State()), (ssrc, seqnum)).None?
    {
      hide Stamped, Parse, RtpPackets.Valid, HasRoom, PacketToRtx, WithPayloadType, Rtx.Resend, AllHaveRoom, Lookup;
      AnswersHaveRoom(rtxSender.State(), pt, ssrc, seqnum);
      var rtx := rtxSender.ResendAsRtx(ssrc, seqnum);
      if rtx.None? {
        return None;
      }
      var packet := new RtpPacket(rtx.value);
      packet.inner := WithPayloadType(packet.inner, pt + 1);
      SendRtpPacket(packet);
      wire := Some(packet.inner);
    }
  }

  ghost predicate AllHaveRoom(c: Cache<Key, Packet>) {
    && (forall k :: k in c.gen0 ==> HasRoom(c.gen0[k]))
    && (forall k :: k in c.gen1 ==> HasRoom(c.gen1[k]))
  }

  lemma RememberedHaveRoom(s: Sender, packet: Stampable, now: nat)
    requires AllHaveRoom(s.cache)
    ensures AllHaveRoom(Remembered(s, packet, now).cache)
  {
    hide HasRoom, KeyOf;
  }

  lemma AnswersHaveRoom(s: Sender, pt: Byte, ssrc: U32, seqnum: U16)
    requires AllHaveRoom(s.cache) && pt < 0xFF
    ensures var r := Rtx.Resend(s, ssrc, seqnum);
            && r.0.cache == s.cache
            && (r.1.Some? ==> HasRoom(WithPayloadType(r.1.value, pt + 1)))
            && (r.1.None? <==> Lookup(s.cache, (ssrc, seqnum)).None?)
  {
    hide Parse, RtpPackets.Valid, WithPayloadType, PacketToRtx;
  }

  // ----- whole runs -----

  datatype Event = Forward(packet: Stampable, now: nat) | Nack(ssrc: U32, seqnum: U16)

  function Handled(s: State, pt: Byte, e: Event): (State, Option<Packet>)
    requires pt < 0xFF
  {
    match e
    case Forward(packet, now) => var (t, wire) := AfterForward(s, packet, now); (t, Some(wire))
    case Nack(ssrc, seqnum) => AfterNack(s, pt, ssrc, seqnum)
  }

  function Run(limit: nat, start: nat, pt: Byte, es: seq<Event>): State
    requires pt < 0xFF
  {
    if es == [] then State(Sender(Fresh(limit, start), map[]), 0)
    else Handled(Run(limit, start, pt, es[..|es| - 1]), pt, es[|es| - 1]).0
  }

  /** What event `i` of a run puts on the wire. */
  function Wire(limit: nat, start: nat, pt: Byte, es: seq<Event>, i: nat): Option<Packet>
    requires pt < 0xFF && i < |es|
  {
    Handled(Run(limit, start, pt, es[..i]), pt, es[i]).1
  }

  /** The packets on the wire, in order. */
  function Wires(limit: nat, start: nat, pt: Byte, es: seq<Event>): seq<Packet>
    requires pt < 0xFF
  {
    if es == [] then []
    else
      var w := Handled(Run(limit, start, pt, es[..|es| - 1]), pt, es[|es| - 1]).1;
      Wires(limit, start, pt, es[..|es| - 1]) + (if w.Some? then [w.value] else [])
  }

  lemma FreshHaveRoom(limit: nat, start: nat)
    ensures AllHaveRoom(Fresh<Key, Packet>(limit, start))
  {
  }

  lemma {:induction false} RunHasRoom(limit: nat, start: nat, pt: Byte, es: seq<Event>)
    requires pt < 0xFF
    ensures AllHaveRoom(Run(limit, start, pt, es).rtx.cache)
  {
    hide AllHaveRoom, Stamped, Remembered, Rtx.Resend;
    if es == [] {
      FreshHaveRoom(limit, start);
    } else {
      var s := Run(limit, start, pt, es[..|es| - 1]);
      RunHasRoom(limit, start, pt, es[..|es| - 1]);
      match es[|es| - 1] {
        case Forward(packet, now) => RememberedHaveRoom(s.rtx, packet, now);
        case Nack(ssrc, seqnum) => AnswersHaveRoom(s.rtx, pt, ssrc, seqnum);
      }
    }
  }

  lemma HandledCounts(s: State, pt: Byte, e: Event)
    requires pt < 0xFF && AllHaveRoom(s.rtx.cache)
    ensures var (t, wire) := Handled(s, pt, e);
            && t.tccSeq == s.tccSeq + (if wire.Some? then 1 else 0)
            && (wire.Some? ==> HasRoom(wire.value) && StampOf(wire.value) == NextStamp(s))
  {
    hide HasRoom, Stamped, Rtx.Resend, Remembered, StampOf, AllHaveRoom;
    match e {
      case Forward(packet, now) => StampLaws(packet, NextStamp(s), 0);
      case Nack(ssrc, seqnum) =>
        AnswersHaveRoom(s.rtx, pt, ssrc, seqnum);
        var answer := Rtx.Resend(s.rtx, ssrc, seqnum).1;
        if answer.Some? {
          StampLaws(WithPayloadType(answer.value, pt + 1), NextStamp(s), 0);
        }
    }
  }

  /** Over every run, first sends and resends together carry consecutive transport-wide numbers: the
      packet `k` places into the stream is stamped `k + 1`. */
  lemma {:induction false} StampsAreConsecutive(limit: nat, start: nat, pt: Byte, es: seq<Event>)
    requires pt < 0xFF
    ensures var ws := Wires(limit, start, pt, es);
            && |ws| == Run(limit, start, pt, es).tccSeq
            && forall k :: 0 <= k < |ws| ==> HasRoom(ws[k]) && StampOf(ws[k]) == (k + 1) % 0x1_0000
  {
    hide HasRoom, StampOf, Handled, AllHaveRoom;
    if es != [] {
      var before := es[..|es| - 1];
      StampsAreConsecutive(limit, start, pt, before);
      RunHasRoom(limit, start, pt, before);
      HandledCounts(Run(limit, start, pt, before), pt, es[|es| - 1]);
    }
  }

  /** What the retransmission sender sees of a run. */
  function RtxEvents(es: seq<Event>): seq<Rtx.Event> {
    if es == [] then []
    else
      RtxEvents(es[..|es| - 1])
      + [match es[|es| - 1]
         case Forward(packet, now) => Rtx.Sent(packet, now)
         case Nack(ssrc, seqnum) => Rtx.Requested(ssrc, seqnum)]
  }

  lemma {:induction false} RtxOfRun(limit: nat, start: nat, pt: Byte, es: seq<Event>)
    requires pt < 0xFF
    ensures Run(limit, start, pt, es).rtx == Rtx.Run(limit, start, RtxEvents(es))
  {
    hide Stamped, Remembered, Rtx.Resend, HasRoom;
    if es != [] {
      var before := es[..|es| - 1];
      RtxOfRun(limit, start, pt, before);
      var rs := RtxEvents(es);
      assert rs[..|rs| - 1] == RtxEvents(before);
    }
  }

  /** Event `i` is the last to send a packet under this key. */
  ghost predicate LastSent(es: seq<Event>, key: Key, i: nat) {
    && i < |es| && es[i].Forward? && KeyOf(es[i].packet) == key
    && forall k :: i < k < |es| && es[k].Forward? ==> KeyOf(es[k].packet) != key
  }

  lemma {:induction false} LatestIsLastSent(limit: nat, es: seq<Event>, key: Key, i: nat)
    requires LastSent(es, key, i)
    ensures var e := Latest(limit, Stores(RtxEvents(es)), key);
            e.Some? && e.value.value == es[i].packet && e.value.at == es[i].now
  {
    hide KeyOf;
    var (before, e) := (es[..|es| - 1], es[|es| - 1]);
    var rs := RtxEvents(es);
    assert rs[..|rs| - 1] == RtxEvents(before);
    var ops := Stores(rs);
    assert e.Forward? ==> ops[..|ops| - 1] == Stores(RtxEvents(before));
    assert Stores(RtxEvents(before)) + [] == Stores(RtxEvents(before));
    if i < |es| - 1 {
      LatestIsLastSent(limit, before, key, i);
    }
  }

  /** End to end: a packet asked for no more than the limit after it was sent, by the time of the
      latest send, comes back to the receiver as it first came, byte for byte, but for its stamp,
      which is that of the resend. */
  lemma ResendRecovers(limit: nat, start: nat, pt: Byte, es: seq<Event>, ssrc: U32, seqnum: U16, i: nat)
    requires limit > 0 && pt < 0x7F && Monotonic(start, Stores(RtxEvents(es)))
    requires LastSent(es, (ssrc, seqnum), i) && Clock(start, Stores(RtxEvents(es))) <= es[i].now + limit
    requires Payload(es[i].packet) != [] && PayloadType(es[i].packet) == pt
    ensures var first := Wire(limit, start, pt, es, i);
            var again := Wire(limit, start, pt, es + [Nack(ssrc, seqnum)], |es|);
            var stamp := NextStamp(Run(limit, start, pt, es));
            && first.Some? && HasRoom(first.value) && again.Some?
            && Unwrap(again.value, pt, Some(ssrc)) == Media(Stamped(first.value, stamp))
            && (Unwrap(again.value, pt, Some(ssrc)) == Media(first.value) <==> StampOf(first.value) == stamp)
  {
    hide Parse, RtpPackets.Valid, Latest, Rtx.Run, Stores, RtxEvents, Unwrap, Payload, PayloadType, Stamped, StampOf,
         HasRoom, LastSent, Rtx.Resend, PacketToRtx, WithPayloadType;
    LastSentKey(es, (ssrc, seqnum), i);
    var packet := es[i].packet;
    var s := Run(limit, start, pt, es);
    assert (es + [Nack(ssrc, seqnum)])[..|es|] == es;
    LatestIsLastSent(limit, es, (ssrc, seqnum), i);
    RtxOfRun(limit, start, pt, es);
    SurvivorIsAnswered(limit, start, RtxEvents(es), ssrc, seqnum);
    var n := (1 + Answered(limit, start, RtxEvents(es), ssrc)) % 0x1_0000;
    assert Rtx.Resend(s.rtx, ssrc, seqnum).1 == Some(PacketToRtx(packet, ToRtxSsrc(ssrc), n));
    StampedRoundTrip(packet, n, NextStamp(s), Some(ssrc));
    StampLaws(packet, NextStamp(Run(limit, start, pt, es[..i])), NextStamp(s));
    StampLaws(Stamped(packet, NextStamp(Run(limit, start, pt, es[..i]))), NextStamp(s), 0);
  }

  lemma LastSentKey(es: seq<Event>, key: Key, i: nat)
    requires LastSent(es, key, i)
    ensures i < |es| && es[i].Forward? && Ssrc(es[i].packet) == key.0
  {
  }
}
