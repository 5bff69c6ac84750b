/** Forwarding of simulcast VP8 to one receiver (media/src/stream.rs): the sequence number, the
    timestamp, the picture id and the TL0PICIDX of every incoming packet are shifted so that the
    outgoing stream stays continuous when a source moves to another SSRC. */
module Vp8Forwarding {
  import opened Bytes
  import opened TruncatedCounter
  import opened RtpPackets
  import Vp8Header

  const U64_LIMIT := 0x1_0000_0000_0000_0000

  // ----- the four counters together -----

  datatype Ids = Ids(seqnum: nat, timestamp: nat, pictureId: nat, tl0PicIdx: nat)

  const ZERO := Ids(0, 0, 0, 0)
  const SWITCH_GAP := Ids(2, 1, 1, 1)

  predicate Le(a: Ids, b: Ids) {
    a.seqnum <= b.seqnum && a.timestamp <= b.timestamp && a.pictureId <= b.pictureId && a.tl0PicIdx <= b.tl0PicIdx
  }

  function Plus(a: Ids, b: Ids): Ids {
    Ids(a.seqnum + b.seqnum, a.timestamp + b.timestamp, a.pictureId + b.pictureId, a.tl0PicIdx + b.tl0PicIdx)
  }

  function Minus(a: Ids, b: Ids): Ids
    requires Le(b, a)
  {
    Ids(a.seqnum - b.seqnum, a.timestamp - b.timestamp, a.pictureId - b.pictureId, a.tl0PicIdx - b.tl0PicIdx)
  }

  predicate FitsU64(a: Ids) {
    a.seqnum < U64_LIMIT && a.timestamp < U64_LIMIT && a.pictureId < U64_LIMIT && a.tl0PicIdx < U64_LIMIT
  }

  function CheckedAdd(a: Ids, b: Ids): Option<Ids> {
    if FitsU64(Plus(a, b)) then Some(Plus(a, b)) else None
  }

  function CheckedSub(a: Ids, b: Ids): Option<Ids> {
    if Le(b, a) then Some(Minus(a, b)) else None
  }

  function MaxIds(a: Ids, b: Ids): (r: Ids)
    ensures Le(a, r) && Le(b, r)
  {
    Ids(Max(a.seqnum, b.seqnum), Max(a.timestamp, b.timestamp),
        Max(a.pictureId, b.pictureId), Max(a.tl0PicIdx, b.tl0PicIdx))
  }

  // ----- one packet -----

  type Uuid = nat

  /** An incoming packet: its RTP fields and what the VP8 reader made of its payload. */
  datatype Incoming = Incoming(ssrc: U32, seqnum: U16, timestamp: U32, vp8: Vp8Header.Result)

  predicate HasIds(p: Incoming) {
    && p.vp8.Ok?
    && p.vp8.header.pictureId.Some?
    && p.vp8.header.tl0PicIdx.Some?
  }

  function TruncatedIds(p: Incoming): Ids
    requires HasIds(p)
  {
    Ids(p.seqnum, p.timestamp, p.vp8.header.pictureId.value, p.vp8.header.tl0PicIdx.value)
  }

  datatype ForwardState = ForwardState(incomingSsrc: U32, maxIncoming: Ids, firstIncoming: Ids, firstOutgoing: Ids)

  const NEW_FORWARD_STATE := ForwardState(0, ZERO, ZERO, ZERO)

  function ExpandIds(p: Incoming, max: Ids): Ids
    requires HasIds(p)
  {
    var t := TruncatedIds(p);
    Ids(Expand(t.seqnum, max.seqnum, 0x1_0000), Expand(t.timestamp, max.timestamp, 0x1_0000_0000),
        Expand(t.pictureId, max.pictureId, 0x8000), Expand(t.tl0PicIdx, max.tl0PicIdx, 0x100))
  }

  datatype Outcome =
    | NoIds                    // unreadable VP8, or no picture id, or no TL0PICIDX
    | Overflow                 // a checked addition failed
    | PredatesSwitch           // a checked subtraction failed
    | Forwarded(outgoing: Ids)

  datatype Sender = Sender(maxOutgoing: Ids, sources: map<Uuid, ForwardState>)

  function SourceOf(s: Sender, src: Uuid): ForwardState {
    if src in s.sources then s.sources[src] else NEW_FORWARD_STATE
  }

  function Put(s: Sender, src: Uuid, f: ForwardState): Sender {
    s.(sources := s.sources[src := f])
  }

  /** The source state and high-water mark once a change of SSRC has been dealt with. */
  function Switched(s: Sender, src: Uuid, p: Incoming): (r: (Sender, bool))
    requires HasIds(p)
  {
    var f := SourceOf(s, src);
    if p.ssrc == f.incomingSsrc then (Put(s, src, f), true)
    else match CheckedAdd(s.maxOutgoing, SWITCH_GAP)
      case None => (Put(s, src, f.(incomingSsrc := p.ssrc)), false)
      case Some(first) =>
        (Put(s, src, ForwardState(p.ssrc, TruncatedIds(p), TruncatedIds(p), first)).(maxOutgoing := first), true)
  }

  function Receive(s: Sender, src: Uuid, p: Incoming): (r: (Sender, Outcome)) {
    if !HasIds(p) then (Put(s, src, SourceOf(s, src)), NoIds)
    else
      var (t, ok) := Switched(s, src, p);
      if !ok then (t, Overflow)
      else
        var f := SourceOf(t, src);
        var incoming := ExpandIds(p, f.maxIncoming);
        var u := Put(t, src, f.(maxIncoming := MaxIds(f.maxIncoming, incoming)));
        match CheckedSub(incoming, f.firstIncoming)
        case None => (u, PredatesSwitch)
        case Some(offset) =>
          match CheckedAdd(f.firstOutgoing, offset)
          case None => (u, Overflow)
          case Some(outgoing) => (u.(maxOutgoing := MaxIds(u.maxOutgoing, outgoing)), Forwarded(outgoing))
  }

  class VideoStreamSenderLocal {
    var maxOutgoing: Ids
    var sources: map<Uuid, ForwardState>

    ghost function State(): Sender
      reads this
    {
      Sender(maxOutgoing, sources)
    }

    constructor ()
      ensures State() == Sender(ZERO, map[])
    {
      maxOutgoing, sources := ZERO, map[];
    }

    /** Deal with a change of SSRC; false when the new starting point overflows. */
    method SwitchSource(src: Uuid, p: Incoming) returns (ok: bool)
      requires HasIds(p)
      modifies this
      ensures (State(), ok) == Switched(old(State()), src, p)
    {
      var f := if src in sources then sources[src] else NEW_FORWARD_STATE;
      if p.ssrc == f.incomingSsrc {
        sources := sources[src := f];
        return true;
      }
      f := f.(incomingSsrc := p.ssrc);
      var first := CheckedAdd(maxOutgoing, SWITCH_GAP);
      if first.None? {
        sources := sources[src := f];
        return false;
      }
      f := f.(firstIncoming := TruncatedIds(p), firstOutgoing := first.value, maxIncoming := TruncatedIds(p));
      sources := sources[src := f];
      maxOutgoing := first.value;
      return true;
    }

    method ReceiveRtp(src: Uuid, p: Incoming) returns (r: Outcome)
      modifies this
      ensures (State(), r) == Receive(old(State()), src, p)
    {
      hide Switched, ExpandIds;
      if !HasIds(p) {
        sources := sources[src := if src in sources then sources[src] else NEW_FORWARD_STATE];
        return NoIds;
      }
      var ok := SwitchSource(src, p);
      if !ok {
        return Overflow;
      }
      var f := if src in sources then sources[src] else NEW_FORWARD_STATE;
      var incoming := ExpandIds(p, f.maxIncoming);
      sources := sources[src := f.(maxIncoming := MaxIds(f.maxIncoming, incoming))];
      var offset := CheckedSub(incoming, f.firstIncoming);
      if offset.None? {
        return PredatesSwitch;
      }
      var outgoing := CheckedAdd(f.firstOutgoing, offset.value);
      if outgoing.None? {
        return Overflow;
      }
      maxOutgoing := MaxIds(maxOutgoing, outgoing.value);
      return Forwarded(outgoing.value);
    }
  }

  /** The packet that changes its source's SSRC goes out exactly a gap above the high-water mark,
      two sequence numbers and one of everything else, unless a counter would pass 64 bits. */
  lemma SwitchStartsAboveMark(s: Sender, src: Uuid, p: Incoming)
    requires HasIds(p) && p.ssrc != SourceOf(s, src).incomingSsrc
    ensures var next := Plus(s.maxOutgoing, Ids(2, 1, 1, 1));
            Receive(s, src, p).1 == if SomeBelow(ALL_64_BITS, next) then Overflow else Forwarded(next)
  {
    var t := TruncatedIds(p);
    ExpandFirst(t.seqnum, 0x1_0000);
    ExpandFirst(t.timestamp, 0x1_0000_0000);
    ExpandFirst(t.pictureId, 0x8000);
    ExpandFirst(t.tl0PicIdx, 0x100);
    assert Minus(t, t) == ZERO && Plus(Plus(s.maxOutgoing, SWITCH_GAP), ZERO) == Plus(s.maxOutgoing, SWITCH_GAP);
  }

  /** Some counter of `a` is below that of `b`. */
  predicate SomeBelow(a: Ids, b: Ids) {
    a.seqnum < b.seqnum || a.timestamp < b.timestamp || a.pictureId < b.pictureId || a.tl0PicIdx < b.tl0PicIdx
  }

  /** Inside an epoch that came in with `first` and went out with `start`, a packet with the counters `x`
      is dropped as older than the switch exactly when one of them is below `first`. Otherwise it goes
      out as far from `start` as it is from `first`, unless a counter would need more than 64 bits. */
  predicate RightOutcome(outcome: Outcome, x: Ids, first: Ids, start: Ids) {
    && (outcome == PredatesSwitch <==> SomeBelow(x, first))
    && (SomeBelow(x, first)
        || var out := Ids(start.seqnum + x.seqnum - first.seqnum,
                          start.timestamp + x.timestamp - first.timestamp,
                          start.pictureId + x.pictureId - first.pictureId,
                          start.tl0PicIdx + x.tl0PicIdx - first.tl0PicIdx);
           outcome == if SomeBelow(ALL_64_BITS, out) then Overflow else Forwarded(out))
  }

  /** What becomes of a packet with the SSRC its source is on, by its widened counters. */
  lemma ForwardedExactly(s: Sender, src: Uuid, p: Incoming)
    requires HasIds(p) && p.ssrc == SourceOf(s, src).incomingSsrc
    ensures var f := SourceOf(s, src);
            RightOutcome(Receive(s, src, p).1, ExpandIds(p, f.maxIncoming), f.firstIncoming, f.firstOutgoing)
  {
    hide ExpandIds;
  }

  const ALL_64_BITS := Ids(0xFFFF_FFFF_FFFF_FFFF, 0xFFFF_FFFF_FFFF_FFFF, 0xFFFF_FFFF_FFFF_FFFF, 0xFFFF_FFFF_FFFF_FFFF)

  // ----- whole runs -----

  datatype Event = Event(src: Uuid, packet: Incoming)

  /** A forwarded packet: how often its source had switched, its widened ids, and what it went out as. */
  datatype Record = Record(src: Uuid, epoch: nat, incoming: Ids, outgoing: Ids)

  datatype World = World(sender: Sender, epochs: map<Uuid, nat>, log: seq<Record>)

  const START := World(Sender(ZERO, map[]), map[], [])

  function EpochOf(w: World, src: Uuid): nat {
    if src in w.epochs then w.epochs[src] else 0
  }

  /** A packet opens an epoch when it brings a new SSRC and the switch succeeds. */
  predicate OpensEpoch(s: Sender, e: Event) {
    HasIds(e.packet) && e.packet.ssrc != SourceOf(s, e.src).incomingSsrc && Switched(s, e.src, e.packet).1
  }

  function Advance(w: World, e: Event): World {
    var (sender, outcome) := Receive(w.sender, e.src, e.packet);
    var epochs := if OpensEpoch(w.sender, e) then w.epochs[e.src := EpochOf(w, e.src) + 1] else w.epochs;
    var v := World(sender, epochs, w.log);
    if outcome.Forwarded? then
      var f := SourceOf(Switched(w.sender, e.src, e.packet).0, e.src);
      v.(log := w.log + [Record(e.src, EpochOf(v, e.src), ExpandIds(e.packet, f.maxIncoming), outcome.outgoing)])
    else v
  }

  function Run(es: seq<Event>): World {
    if es == [] then START else Advance(Run(es[..|es| - 1]), es[|es| - 1])
  }

  /** `a` is followed by `b` with a switch between. */
  predicate AboveByGap(a: Ids, b: Ids) { Le(Plus(a, SWITCH_GAP), b) }

  /** What one earlier packet has to do with the current state of its source. */
  ghost predicate RecordAgrees(w: World, r: Record) {
    var f := SourceOf(w.sender, r.src);
    && Le(r.outgoing, w.sender.maxOutgoing)
    && r.epoch <= EpochOf(w, r.src)
    && (r.epoch == EpochOf(w, r.src) ==> Plus(r.outgoing, f.firstIncoming) == Plus(r.incoming, f.firstOutgoing))
    && (r.epoch < EpochOf(w, r.src) ==> AboveByGap(r.outgoing, f.firstOutgoing))
  }

  /** What two packets of one source have to do with each other. */
  predicate PairAgrees(a: Record, b: Record) {
    a.src == b.src ==>
      && a.epoch <= b.epoch
      && (a.epoch < b.epoch ==> AboveByGap(a.outgoing, b.outgoing))
      && (a.epoch == b.epoch ==> Plus(a.outgoing, b.incoming) == Plus(b.outgoing, a.incoming))
  }

  ghost predicate Inv(w: World) {
    && (forall i :: 0 <= i < |w.log| ==> RecordAgrees(w, w.log[i]))
    && (forall i, j :: 0 <= i < j < |w.log| ==> PairAgrees(w.log[i], w.log[j]))
  }

  /** Past the switch, one event changes no more than the largest incoming ids of its source and
      the high-water mark, which only rises. */
  lemma ReceiveAfterSwitch(s: Sender, src: Uuid, p: Incoming, other: Uuid)
    requires HasIds(p)
    ensures var (t, u) := (Switched(s, src, p).0, Receive(s, src, p).0);
            && Le(t.maxOutgoing, u.maxOutgoing)
            && SourceOf(u, other).firstIncoming == SourceOf(t, other).firstIncoming
            && SourceOf(u, other).firstOutgoing == SourceOf(t, other).firstOutgoing
  {
    hide ExpandIds, Switched;
  }

  /** Earlier packets keep agreeing with the state after one more event. */
  lemma RecordStillAgrees(w: World, e: Event, r: Record)
    requires RecordAgrees(w, r)
    ensures RecordAgrees(Advance(w, e), r)
  {
    hide ExpandIds, Receive;
    if HasIds(e.packet) {
      ReceiveAfterSwitch(w.sender, e.src, e.packet, r.src);
    } else {
      NoIdsChangesNothing(w.sender, e.src, e.packet, r.src);
    }
  }

  lemma NoIdsChangesNothing(s: Sender, src: Uuid, p: Incoming, other: Uuid)
    requires !HasIds(p)
    ensures Receive(s, src, p).1 == NoIds
    ensures Receive(s, src, p).0.maxOutgoing == s.maxOutgoing
    ensures SourceOf(Receive(s, src, p).0, other) == SourceOf(s, other)
  {
  }

  /** The packet just forwarded agrees with the state, and lies in its source's current epoch. */
  lemma NewRecordAgrees(w: World, e: Event)
    requires Receive(w.sender, e.src, e.packet).1.Forwarded?
    ensures var v := Advance(w, e);
            var r := v.log[|w.log|];
            && v.log == w.log + [r] && r.src == e.src && r.epoch == EpochOf(v, r.src)
            && RecordAgrees(v, r)
            && Le(SourceOf(v.sender, r.src).firstOutgoing, r.outgoing)
  {
  }

  lemma AdvanceKeepsInv(w: World, e: Event)
    requires Inv(w)
    ensures Inv(Advance(w, e))
  {
    hide Receive, Switched, ExpandIds;
    var v := Advance(w, e);
    forall i | 0 <= i < |w.log|
      ensures RecordAgrees(v, w.log[i])
    {
      RecordStillAgrees(w, e, w.log[i]);
    }
    if Receive(w.sender, e.src, e.packet).1.Forwarded? {
      NewRecordAgrees(w, e);
      var n := |w.log|;
      var r := v.log[n];
      forall i | 0 <= i < n
        ensures PairAgrees(w.log[i], r)
      {
        PairFromState(v, w.log[i], r);
      }
    }
  }

  lemma PairFromState(v: World, a: Record, b: Record)
    requires RecordAgrees(v, a) && RecordAgrees(v, b) && b.epoch == EpochOf(v, b.src)
    requires Le(SourceOf(v.sender, b.src).firstOutgoing, b.outgoing)
    ensures PairAgrees(a, b)
  {
  }

  lemma {:induction false} RunKeepsInv(es: seq<Event>)
    ensures Inv(Run(es))
  {
    if es != [] {
      RunKeepsInv(es[..|es| - 1]);
      AdvanceKeepsInv(Run(es[..|es| - 1]), es[|es| - 1]);
    }
  }

  /** Over every interleaving of sources and SSRC switches: the high-water mark dominates every id
      ever sent; packets of one source go out in epochs, each starting strictly above the last one
      and by at least two sequence numbers; inside an epoch the gaps between incoming ids are kept. */
  lemma ForwardingIsContinuous(es: seq<Event>)
    ensures var w := Run(es);
            && (forall r :: r in w.log ==> Le(r.outgoing, w.sender.maxOutgoing))
            && (forall i, j :: 0 <= i < j < |w.log| ==> PairAgrees(w.log[i], w.log[j]))
  {
    RunKeepsInv(es);
  }

  /** Over every run, two packets of one source share an outgoing sequence number only if they came
      in one epoch with the same incoming number; and with any of the four counters likewise. */
  lemma NoNumberReused(es: seq<Event>, i: nat, j: nat)
    requires i < j < |Run(es).log| && Run(es).log[i].src == Run(es).log[j].src
    ensures var (a, b) := (Run(es).log[i], Run(es).log[j]);
            && (a.outgoing.seqnum == b.outgoing.seqnum
                <==> a.epoch == b.epoch && a.incoming.seqnum == b.incoming.seqnum)
            && (a.outgoing.pictureId == b.outgoing.pictureId
                <==> a.epoch == b.epoch && a.incoming.pictureId == b.incoming.pictureId)
            && (a.outgoing.timestamp == b.outgoing.timestamp
                <==> a.epoch == b.epoch && a.incoming.timestamp == b.incoming.timestamp)
            && (a.outgoing.tl0PicIdx == b.outgoing.tl0PicIdx
                <==> a.epoch == b.epoch && a.incoming.tl0PicIdx == b.incoming.tl0PicIdx)
  {
    RunKeepsInv(es);
    assert PairAgrees(Run(es).log[i], Run(es).log[j]);
  }

  /** Over every run, a packet that opens an epoch goes out above every id sent before it, whichever
      source sent it, in all four counters and by at least two in the sequence number. */
  lemma EpochOpensAboveAll(es: seq<Event>, e: Event, r: Record)
    requires OpensEpoch(Run(es).sender, e) && r in Run(es).log
    ensures Receive(Run(es).sender, e.src, e.packet).1.Forwarded?
    ensures AboveByGap(r.outgoing, Receive(Run(es).sender, e.src, e.packet).1.outgoing)
  {
    RunKeepsInv(es);
    SwitchStartsAboveMark(Run(es).sender, e.src, e.packet);
  }

  // ----- the packets themselves -----

  function IncomingOf(packet: Packet): Incoming {
    Incoming(Ssrc(packet), Sequence(packet), Timestamp(packet), Vp8Header.Parse(Payload(packet)))
  }

  /** The packet built for `packet`, before it is stamped: the source's template with rewritten ids,
      the marker and the payload. */
  function Outgoing(template: Packet, packet: Packet, ids: Ids): (r: Packet)
    requires |Payload(packet)| >= 5
  {
    var payload := Vp8Header.Modified(Payload(packet), ids.pictureId % 0x1_0000, ids.tl0PicIdx % 0x100);
    var r := WithTimestamp(WithSequence(template, ids.seqnum % 0x1_0000), ids.timestamp % 0x1_0000_0000);
    WithPayload(WithMarker(r, Marker(packet)), payload)
  }

  lemma OutgoingView(template: Packet, packet: Packet, ids: Ids)
    requires |Payload(packet)| >= 5
    ensures Parse(Outgoing(template, packet, ids))
         == Parse(template).(sequence := ids.seqnum % 0x1_0000, timestamp := ids.timestamp % 0x1_0000_0000,
                             marker := Marker(packet),
                             payload := Vp8Header.Modified(Payload(packet), ids.pictureId % 0x1_0000,
                                                           ids.tl0PicIdx % 0x100))
  {
    hide Parse, Valid, Payload, Marker, WithSequence, WithTimestamp, WithMarker, WithPayload, Vp8Header.Modified;
  }

  /** The packet built has its template's SSRC and extension, the low parts of its new ids, and a
      VP8 header that reads as the incoming one with the new picture id and TL0PICIDX. */
  lemma OutgoingReads(template: Packet, packet: Packet, ids: Ids)
    requires HasIds(IncomingOf(packet))
    ensures |Payload(packet)| >= 5
    ensures var r := Outgoing(template, packet, ids);
            && Parse(r) == Parse(template).(sequence := ids.seqnum % 0x1_0000,
                                            timestamp := ids.timestamp % 0x1_0000_0000,
                                            marker := Marker(packet), payload := Payload(r))
            && Payload(r)[5..] == Payload(packet)[5..]
            && Vp8Header.Parse(Payload(r))
                 == Vp8Header.Ok(Vp8Header.Parse(Payload(packet)).header.(
                      pictureId := Some(ids.pictureId % 0x8000), tl0PicIdx := Some(ids.tl0PicIdx % 0x100)))
  {
    hide Parse, Valid, Payload, Marker, Outgoing, Vp8Header.Parse, Vp8Header.Modified;
    var payload := Payload(packet);
    Vp8Header.BothIdsPresent(payload);
    Vp8Header.ModifiedReadsBack(payload, ids.pictureId % 0x1_0000, ids.tl0PicIdx % 0x100);
    ModifiedKeepsRest(payload, ids.pictureId % 0x1_0000, ids.tl0PicIdx % 0x100);
    OutgoingView(template, packet, ids);
    LowBitsOfLowBits(ids.pictureId);
  }

  lemma ModifiedKeepsRest(payload: Buffer, pictureId: U16, tl0PicIdx: Byte)
    requires |payload| >= 5
    ensures Vp8Header.Modified(payload, pictureId, tl0PicIdx)[5..] == payload[5..]
  {
  }

  lemma LowBitsOfLowBits(n: nat)
    ensures n % 0x1_0000 % 0x8000 == n % 0x8000
  {
  }
}
