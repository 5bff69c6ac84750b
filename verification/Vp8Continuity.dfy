/** The counters a VP8 source really has, and what forwarding makes of them (media/src/stream.rs):
    packets carry only the low bits of the four counters, and these are widened before they are
    shifted. */
module Vp8Continuity {
  import opened Bytes
  import opened TruncatedCounter
  import opened Vp8Forwarding
  import Vp8Header

  /** The low bits of the four counters. */
  function LowIds(c: Ids): Ids {
    Ids(c.seqnum % 0x1_0000, c.timestamp % 0x1_0000_0000, c.pictureId % 0x8000, c.tl0PicIdx % 0x100)
  }

  /** Less than half of every modulus apart. */
  predicate NearIds(a: Ids, b: Ids) {
    && Distance(a.seqnum, b.seqnum) < 0x8000
    && Distance(a.timestamp, b.timestamp) < 0x8000_0000
    && Distance(a.pictureId, b.pictureId) < 0x4000
    && Distance(a.tl0PicIdx, b.tl0PicIdx) < 0x80
  }

  /** Each packet carries the low bits of its counters. */
  ghost predicate Carried(es: seq<Event>, truth: seq<Ids>) {
    && |truth| == |es|
    && forall k :: 0 <= k < |es| && HasIds(es[k].packet) ==> TruncatedIds(es[k].packet) == LowIds(truth[k])
  }

  /** The counters of the current epoch of a source: what its first packet had wrapped by, what its
      first packet had, and the largest since. */
  datatype Track = Track(base: Ids, first: Ids, max: Ids)

  /** The packet's counters are widened; otherwise the call ends before that. */
  predicate Widened(s: Sender, e: Event) {
    HasIds(e.packet) && e.packet.ssrc == SourceOf(s, e.src).incomingSsrc
  }

  function TrackOf(es: seq<Event>, truth: seq<Ids>, src: Uuid): Track
    requires |truth| == |es|
  {
    if es == [] then Track(ZERO, ZERO, ZERO)
    else
      var n := |es| - 1;
      var t := TrackOf(es[..n], truth[..n], src);
      var s := Run(es[..n]).sender;
      if es[n].src != src then t
      else if OpensEpoch(s, es[n]) then Track(BaseOf(truth[n]), truth[n], truth[n])
      else if Widened(s, es[n]) then t.(max := MaxIds(t.max, truth[n]))
      else t
  }

  function BaseOf(c: Ids): (b: Ids)
    ensures Plus(b, LowIds(c)) == c && LowIds(b) == ZERO
  {
    Ids(c.seqnum / 0x1_0000 * 0x1_0000, c.timestamp / 0x1_0000_0000 * 0x1_0000_0000,
        c.pictureId / 0x8000 * 0x8000, c.tl0PicIdx / 0x100 * 0x100)
  }

  /** Whether the counter `c` is recovered from its low bits, `max` being the largest of the epoch and
      `base` what its first packet had wrapped by: it is not from before those wraps, and it is less
      than half the modulus from the largest, or half of it away without a wrap between, or ahead of
      it before the first wrap. */
  predicate Recovered(c: nat, base: nat, max: nat, m: nat)
    requires IsModulus(m)
  {
    && base <= c && base <= max
    && (|| Distance(c, max) < m / 2
        || (Distance(c, max) == m / 2 && (c - base) / m == (max - base) / m)
        || ((c - base) / m == (max - base) / m == 0 && max < c))
  }

  predicate RecoveredIds(c: Ids, t: Track) {
    && Recovered(c.seqnum, t.base.seqnum, t.max.seqnum, 0x1_0000)
    && Recovered(c.timestamp, t.base.timestamp, t.max.timestamp, 0x1_0000_0000)
    && Recovered(c.pictureId, t.base.pictureId, t.max.pictureId, 0x8000)
    && Recovered(c.tl0PicIdx, t.base.tl0PicIdx, t.max.tl0PicIdx, 0x100)
  }

  /** Counters less than half of every modulus from the largest, and not from before the base, are recovered. */
  lemma NearIsRecovered(c: Ids, t: Track)
    requires NearIds(c, t.max) && Le(t.base, c) && Le(t.base, t.max)
    ensures RecoveredIds(c, t)
  {
  }

  /** Within each epoch every packet is recovered. */
  ghost predicate Close(es: seq<Event>, truth: seq<Ids>)
    requires |truth| == |es|
  {
    es == []
    || var n := |es| - 1;
       && Close(es[..n], truth[..n])
       && (Widened(Run(es[..n]).sender, es[n]) ==>
             RecoveredIds(truth[n], TrackOf(es[..n], truth[..n], es[n].src)))
  }

  /** The state of a source holds its true counters, less the wraps of the epoch's first packet. */
  ghost predicate Agrees(f: ForwardState, t: Track) {
    && Plus(f.maxIncoming, t.base) == t.max
    && Plus(f.firstIncoming, t.base) == t.first
    && LowIds(t.base) == ZERO
  }

  lemma LowOfOffset(c: nat, b: nat, m: nat)
    requires IsModulus(m) && b <= c && b % m == 0
    ensures (c - b) % m == c % m
  {
  }

  lemma WidenOne(c: nat, b: nat, max: nat, m: nat)
    requires IsModulus(m) && b % m == 0
    ensures c % m < m && (Expand(c % m, max, m) + b == c <==> Recovered(c, b, max + b, m))
  {
    hide Expand;
    if b <= c {
      LowOfOffset(c, b, m);
      ExpandExact(c - b, max, m);
    }
  }

  /** Widening gives the true counters back, less the base, exactly when they are recovered. */
  lemma WidenedExactly(p: Incoming, c: Ids, f: ForwardState, t: Track)
    requires HasIds(p) && TruncatedIds(p) == LowIds(c) && Agrees(f, t)
    ensures Plus(ExpandIds(p, f.maxIncoming), t.base) == c <==> RecoveredIds(c, t)
  {
    hide Expand, Recovered;
    WidenOne(c.seqnum, t.base.seqnum, f.maxIncoming.seqnum, 0x1_0000);
    WidenOne(c.timestamp, t.base.timestamp, f.maxIncoming.timestamp, 0x1_0000_0000);
    WidenOne(c.pictureId, t.base.pictureId, f.maxIncoming.pictureId, 0x8000);
    WidenOne(c.tl0PicIdx, t.base.tl0PicIdx, f.maxIncoming.tl0PicIdx, 0x100);
  }

  /** The state of the packet's source when the counters have been widened, and the outcome then. */
  lemma ReceivedWidened(s: Sender, e: Event)
    requires Widened(s, e)
    ensures var (f, u) := (SourceOf(s, e.src), Receive(s, e.src, e.packet));
            var x := ExpandIds(e.packet, f.maxIncoming);
            && SourceOf(u.0, e.src) == f.(maxIncoming := MaxIds(f.maxIncoming, x))
            && (u.1.Forwarded? ==> Plus(u.1.outgoing, f.firstIncoming) == Plus(x, f.firstOutgoing))
  {
    hide ExpandIds;
  }

  lemma ReceivedOpening(s: Sender, e: Event)
    requires OpensEpoch(s, e)
    ensures var (x, u) := (TruncatedIds(e.packet), Receive(s, e.src, e.packet));
            && SourceOf(u.0, e.src).maxIncoming == x && SourceOf(u.0, e.src).firstIncoming == x
            && (u.1.Forwarded? ==> u.1.outgoing == SourceOf(u.0, e.src).firstOutgoing)
  {
    var t := TruncatedIds(e.packet);
    ExpandFirst(t.seqnum, 0x1_0000);
    ExpandFirst(t.timestamp, 0x1_0000_0000);
    ExpandFirst(t.pictureId, 0x8000);
    ExpandFirst(t.tl0PicIdx, 0x100);
  }

  /** Any other event leaves the ids of the source alone. */
  lemma ReceivedOtherwise(s: Sender, e: Event, src: Uuid)
    requires e.src != src || (!OpensEpoch(s, e) && !Widened(s, e))
    ensures var (f, g) := (SourceOf(s, src), SourceOf(Receive(s, e.src, e.packet).0, src));
            && g.maxIncoming == f.maxIncoming
            && g.firstIncoming == f.firstIncoming && g.firstOutgoing == f.firstOutgoing
    ensures e.src == src ==> !Receive(s, e.src, e.packet).1.Forwarded?
  {
    hide ExpandIds;
  }

  lemma PlusMax(a: Ids, b: Ids, base: Ids)
    ensures Plus(MaxIds(a, b), base) == MaxIds(Plus(a, base), Plus(b, base))
  {
  }

  lemma SenderOfRun(es: seq<Event>, e: Event)
    ensures Run(es + [e]).sender == Receive(Run(es).sender, e.src, e.packet).0
    ensures forall src :: src != e.src ==> EpochOf(Run(es + [e]), src) == EpochOf(Run(es), src)
    ensures EpochOf(Run(es + [e]), e.src) == EpochOf(Run(es), e.src) + (if OpensEpoch(Run(es).sender, e) then 1 else 0)
  {
    hide Receive, OpensEpoch, ExpandIds, Switched;
    assert (es + [e])[..|es|] == es;
  }

  lemma {:induction false} RunAgrees(es: seq<Event>, truth: seq<Ids>, src: Uuid)
    requires Carried(es, truth) && Close(es, truth)
    ensures Agrees(SourceOf(Run(es).sender, src), TrackOf(es, truth, src))
  {
    hide Receive, OpensEpoch, ExpandIds, Run, RecoveredIds, LowIds, Agrees;
    if es == [] {
      StartAgrees(src);
    } else {
      var n := |es| - 1;
      var (before, e) := (es[..n], es[n]);
      assert es == before + [e];
      RunAgrees(before, truth[..n], src);
      SenderOfRun(before, e);
      StepAgrees(Run(before).sender, e, truth[n], TrackOf(before, truth[..n], src), src);
    }
  }

  lemma StartAgrees(src: Uuid)
    ensures Agrees(SourceOf(Run([]).sender, src), Track(ZERO, ZERO, ZERO))
  {
    hide Run, Agrees;
    NothingSent();
    FreshAgrees();
  }

  lemma FreshAgrees()
    ensures Agrees(NEW_FORWARD_STATE, Track(ZERO, ZERO, ZERO))
  {
    assert LowIds(ZERO) == Ids(0, 0, 0, 0);
  }

  lemma StepAgrees(s: Sender, e: Event, c: Ids, t: Track, src: Uuid)
    requires HasIds(e.packet) ==> TruncatedIds(e.packet) == LowIds(c)
    requires Agrees(SourceOf(s, src), t)
    requires e.src == src && Widened(s, e) ==> RecoveredIds(c, t)
    ensures Agrees(SourceOf(Receive(s, e.src, e.packet).0, src),
                   if e.src != src then t
                   else if OpensEpoch(s, e) then Track(BaseOf(c), c, c)
                   else if Widened(s, e) then t.(max := MaxIds(t.max, c))
                   else t)
  {
    hide Receive, ExpandIds, RecoveredIds, LowIds, BaseOf;
    if e.src != src || (!OpensEpoch(s, e) && !Widened(s, e)) {
      ReceivedOtherwise(s, e, src);
    } else if OpensEpoch(s, e) {
      ReceivedOpening(s, e);
    } else {
      ReceivedWidened(s, e);
      WidenedExactly(e.packet, c, SourceOf(s, src), t);
      PlusMax(SourceOf(s, src).maxIncoming, ExpandIds(e.packet, SourceOf(s, src).maxIncoming), t.base);
    }
  }

  /** Every packet of the run that was widened got its true counters, less the base. */
  ghost predicate AllRight(es: seq<Event>, truth: seq<Ids>)
    requires |truth| == |es|
  {
    es == []
    || var n := |es| - 1;
       && AllRight(es[..n], truth[..n])
       && (Widened(Run(es[..n]).sender, es[n]) ==>
             var f := SourceOf(Run(es[..n]).sender, es[n].src);
             Plus(ExpandIds(es[n].packet, f.maxIncoming), TrackOf(es[..n], truth[..n], es[n].src).base) == truth[n])
  }

  /** Over every run, all counters are widened right exactly when all are recovered. */
  lemma {:induction false} AllRightIffClose(es: seq<Event>, truth: seq<Ids>)
    requires Carried(es, truth)
    ensures AllRight(es, truth) <==> Close(es, truth)
  {
    hide Receive, ExpandIds, Run, TrackOf, RecoveredIds, LowIds, HasIds;
    if es != [] {
      var n := |es| - 1;
      AllRightIffClose(es[..n], truth[..n]);
      if Close(es[..n], truth[..n]) && Widened(Run(es[..n]).sender, es[n]) {
        RunAgrees(es[..n], truth[..n], es[n].src);
        WidenedExactly(es[n].packet, truth[n], SourceOf(Run(es[..n]).sender, es[n].src),
                       TrackOf(es[..n], truth[..n], es[n].src));
      }
    }
  }

  function OutcomeOf(es: seq<Event>, e: Event): Outcome { Receive(Run(es).sender, e.src, e.packet).1 }

  /** A packet forwarded inside an epoch is as far from the epoch's first outgoing ids as its true
      counters are from the first packet's, exactly when it is recovered. */
  lemma OffsetExact(es: seq<Event>, truth: seq<Ids>, e: Event, c: Ids)
    requires Carried(es, truth) && Close(es, truth)
    requires Widened(Run(es).sender, e) && TruncatedIds(e.packet) == LowIds(c)
    requires OutcomeOf(es, e).Forwarded?
    ensures var t := TrackOf(es, truth, e.src);
            Plus(OutcomeOf(es, e).outgoing, t.first) == Plus(c, SourceOf(Run(es).sender, e.src).firstOutgoing)
            <==> RecoveredIds(c, t)
  {
    hide Receive, OpensEpoch, ExpandIds, Run, RecoveredIds, LowIds, Agrees;
    var s := Run(es).sender;
    var (f, t) := (SourceOf(s, e.src), TrackOf(es, truth, e.src));
    RunAgrees(es, truth, e.src);
    ReceivedWidened(s, e);
    WidenedExactly(e.packet, c, f, t);
    OffsetFromFirst(f, t, ExpandIds(e.packet, f.maxIncoming), c, OutcomeOf(es, e).outgoing);
  }

  /** Over every run: what becomes of a recovered packet inside an epoch, by its true counters and
      those of the packet that opened the epoch. */
  lemma RecoveredIsForwarded(es: seq<Event>, truth: seq<Ids>, e: Event, c: Ids)
    requires Carried(es, truth) && Close(es, truth)
    requires Widened(Run(es).sender, e) && TruncatedIds(e.packet) == LowIds(c)
    requires RecoveredIds(c, TrackOf(es, truth, e.src))
    ensures RightOutcome(OutcomeOf(es, e), c, TrackOf(es, truth, e.src).first,
                         SourceOf(Run(es).sender, e.src).firstOutgoing)
  {
    hide Receive, OpensEpoch, ExpandIds, Run, RecoveredIds, LowIds, RightOutcome;
    var s := Run(es).sender;
    var (f, t) := (SourceOf(s, e.src), TrackOf(es, truth, e.src));
    RunAgrees(es, truth, e.src);
    WidenedExactly(e.packet, c, f, t);
    Vp8Forwarding.ForwardedExactly(s, e.src, e.packet);
    SameOutcome(OutcomeOf(es, e), ExpandIds(e.packet, f.maxIncoming), f, c, t);
  }

  lemma SameOutcome(outcome: Outcome, x: Ids, f: ForwardState, c: Ids, t: Track)
    requires Agrees(f, t) && Plus(x, t.base) == c
    requires RightOutcome(outcome, x, f.firstIncoming, f.firstOutgoing)
    ensures RightOutcome(outcome, c, t.first, f.firstOutgoing)
  {
    hide LowIds;
  }

  /** A forwarded packet that opens an epoch or is recovered in it is as far from the epoch's first
      outgoing ids as it is from the first packet's. */
  lemma ForwardedByOffset(es: seq<Event>, truth: seq<Ids>, e: Event, c: Ids)
    requires Carried(es + [e], truth + [c]) && |truth| == |es| && Close(es + [e], truth + [c])
    requires OutcomeOf(es, e).Forwarded?
    ensures var t := TrackOf(es + [e], truth + [c], e.src);
            Plus(OutcomeOf(es, e).outgoing, t.first) == Plus(c, SourceOf(Run(es + [e]).sender, e.src).firstOutgoing)
  {
    hide Receive, OpensEpoch, ExpandIds, Run, RecoveredIds, LowIds, BaseOf, Agrees;
    var (all, cs) := (es + [e], truth + [c]);
    assert all[..|es|] == es && cs[..|es|] == truth && cs[|es|] == c && all[|es|] == e;
    CarriedFront(es, truth, e, c);
    var s := Run(es).sender;
    SenderOfRun(es, e);
    if OpensEpoch(s, e) {
      ReceivedOpening(s, e);
    } else if Widened(s, e) {
      OffsetExact(es, truth, e, c);
      ReceivedWidened(s, e);
    } else {
      ReceivedOtherwise(s, e, e.src);
    }
  }

  lemma CarriedFront(es: seq<Event>, truth: seq<Ids>, e: Event, c: Ids)
    requires |truth| == |es| && Carried(es + [e], truth + [c])
    ensures Carried(es, truth) && (HasIds(e.packet) ==> TruncatedIds(e.packet) == LowIds(c))
  {
    hide HasIds, TruncatedIds, LowIds;
    var (all, cs) := (es + [e], truth + [c]);
    assert forall k :: 0 <= k < |es| ==> all[k] == es[k] && cs[k] == truth[k];
    assert all[|es|] == e && cs[|es|] == c;
  }

  lemma OffsetFromFirst(f: ForwardState, t: Track, x: Ids, c: Ids, out: Ids)
    requires Agrees(f, t) && Plus(out, f.firstIncoming) == Plus(x, f.firstOutgoing)
    ensures Plus(out, t.first) == Plus(c, f.firstOutgoing) <==> Plus(x, t.base) == c
  {
  }

  /** While no epoch opens, a source keeps what its epoch started from. */
  lemma {:induction false} EpochKeeps(es: seq<Event>, truth: seq<Ids>, i: nat, src: Uuid)
    requires |truth| == |es| && i <= |es|
    ensures EpochOf(Run(es[..i]), src) <= EpochOf(Run(es), src)
    ensures EpochOf(Run(es[..i]), src) == EpochOf(Run(es), src) ==>
              && TrackOf(es[..i], truth[..i], src).first == TrackOf(es, truth, src).first
              && SourceOf(Run(es[..i]).sender, src).firstOutgoing == SourceOf(Run(es).sender, src).firstOutgoing
    decreases |es|
  {
    hide Receive, OpensEpoch, ExpandIds, Run;
    if i == |es| {
      assert es[..i] == es && truth[..i] == truth;
    } else {
      var n := |es| - 1;
      var (before, e) := (es[..n], es[n]);
      assert es == before + [e] && before[..i] == es[..i] && truth[..n][..i] == truth[..i];
      EpochKeeps(before, truth[..n], i, src);
      SenderOfRun(before, e);
      var s := Run(before).sender;
      if e.src == src && Widened(s, e) {
        ReceivedWidened(s, e);
      } else if e.src != src || !OpensEpoch(s, e) {
        ReceivedOtherwise(s, e, src);
      }
    }
  }

  /** Over every run whose packets were recovered so far, the next one, forwarded in the same epoch as
      an earlier one, goes out exactly as far from it as it really is, if and only if it is recovered. */
  lemma TrueGapsKept(es: seq<Event>, truth: seq<Ids>, i: nat, e: Event, c: Ids)
    requires |truth| == |es| && Carried(es + [e], truth + [c]) && Close(es, truth)
    requires i < |es| && es[i].src == e.src
    requires EpochOf(Run(es[..i + 1]), e.src) == EpochOf(Run(es + [e]), e.src)
    requires OutcomeOf(es[..i], es[i]).Forwarded? && OutcomeOf(es, e).Forwarded?
    ensures Plus(OutcomeOf(es[..i], es[i]).outgoing, c) == Plus(OutcomeOf(es, e).outgoing, truth[i])
       <==> RecoveredIds(c, TrackOf(es, truth, e.src))
  {
    hide Receive, ExpandIds, Run, TrackOf, Close, Carried, RecoveredIds;
    CarriedFront(es, truth, e, c);
    assert es[..i + 1] == es[..i] + [es[i]] && truth[..i + 1] == truth[..i] + [truth[i]];
    PrefixFine(es, truth, i + 1);
    ForwardedByOffset(es[..i], truth[..i], es[i], truth[i]);
    EpochKeeps(es, truth, i + 1, e.src);
    SenderOfRun(es, e);
    var s := Run(es).sender;
    if !Widened(s, e) {
      ReceivedOtherwise(s, e, e.src);
      assert false;
    }
    OffsetExact(es, truth, e, c);
    GapsEqual(OutcomeOf(es[..i], es[i]).outgoing, truth[i], OutcomeOf(es, e).outgoing, c,
              TrackOf(es, truth, e.src).first, SourceOf(s, e.src).firstOutgoing);
  }

  lemma GapsEqual(a: Ids, x: Ids, b: Ids, y: Ids, first: Ids, out: Ids)
    requires Plus(a, first) == Plus(x, out)
    ensures Plus(a, y) == Plus(b, x) <==> Plus(b, first) == Plus(y, out)
  {
  }

  lemma {:induction false} PrefixFine(es: seq<Event>, truth: seq<Ids>, i: nat)
    requires Carried(es, truth) && Close(es, truth) && i <= |es|
    ensures Carried(es[..i], truth[..i]) && Close(es[..i], truth[..i])
    decreases |es|
  {
    hide HasIds, TruncatedIds, LowIds, Widened, RecoveredIds;
    if i == |es| {
      assert es[..i] == es && truth[..i] == truth;
    } else {
      var n := |es| - 1;
      assert es[..n][..i] == es[..i] && truth[..n][..i] == truth[..i];
      PrefixFine(es[..n], truth[..n], i);
    }
  }

  /** The last condition is needed: a packet numbered 65535 that comes after the 0 its epoch opened
      with, one behind it, goes out 65535 ahead of it. */
  lemma BehindTheWrap(zero: Incoming, behind: Incoming)
    requires HasIds(zero) && HasIds(behind) && zero.ssrc == behind.ssrc != 0
    requires TruncatedIds(zero) == ZERO && TruncatedIds(behind) == Ids(0xFFFF, 0, 0, 0)
    ensures OutcomeOf([], Event(1, zero)) == Forwarded(SWITCH_GAP)
    ensures OutcomeOf([Event(1, zero)], Event(1, behind)) == Forwarded(Plus(SWITCH_GAP, Ids(0xFFFF, 0, 0, 0)))
  {
    hide Run, Receive, Expand;
    var (s, e) := (Sender(ZERO, map[]), Event(1, zero));
    assert [] + [e] == [e];
    NothingSent();
    SenderOfRun([], e);
    SwitchStartsAboveMark(s, 1, zero);
    FirstSwitch(s, e);
    ReceivedOpening(s, e);
    ExpandsAhead(behind);
    BehindGoesAhead(Receive(s, 1, zero).0, behind);
  }

  lemma NothingSent()
    ensures Run([]).sender == Sender(ZERO, map[])
  {
    hide Run;
    RunOfNothing();
  }

  lemma RunOfNothing()
    ensures Run([]) == START
  {
    hide Advance;
  }

  lemma FirstSwitch(s: Sender, e: Event)
    requires s == Sender(ZERO, map[]) && HasIds(e.packet) && e.packet.ssrc != 0
    ensures OpensEpoch(s, e)
    ensures var f := SourceOf(Receive(s, e.src, e.packet).0, e.src);
            f.incomingSsrc == e.packet.ssrc && f.firstOutgoing == SWITCH_GAP
  {
    hide ExpandIds;
  }

  lemma ExpandsAhead(behind: Incoming)
    requires HasIds(behind) && TruncatedIds(behind) == Ids(0xFFFF, 0, 0, 0)
    ensures ExpandIds(behind, ZERO) == Ids(0xFFFF, 0, 0, 0)
  {
    hide Expand, TruncatedIds;
    ExpandFirst(0, 0x1_0000_0000);
    ExpandFirst(0, 0x8000);
    ExpandFirst(0, 0x100);
    ExpandLargest();
  }

  lemma ExpandLargest()
    ensures Expand(0xFFFF, 0, 0x1_0000) == 0xFFFF
  {
    assert 0 / 0x1_0000 == 0 && 0 % 0x1_0000 == 0;
  }

  lemma BehindGoesAhead(s: Sender, behind: Incoming)
    requires HasIds(behind) && ExpandIds(behind, ZERO) == Ids(0xFFFF, 0, 0, 0)
    requires var f := SourceOf(s, 1);
             f.incomingSsrc == behind.ssrc && f.firstOutgoing == SWITCH_GAP && f.maxIncoming == f.firstIncoming == ZERO
    ensures Receive(s, 1, behind).1 == Forwarded(Plus(SWITCH_GAP, Ids(0xFFFF, 0, 0, 0)))
  {
    hide ExpandIds;
  }
}
