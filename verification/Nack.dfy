/** Deciding which lost packets to ask for again (media/src/nack.rs). Sequence numbers are the
    widened ones; instants are nanosecond counts. */
module Nack {
  import opened Bytes
  import opened KeySortedCaches

  const EXPIRY := 2_000_000_000
  const RETRY := 200_000_000

  /** When a number was first and last asked for. */
  datatype Stamp = Stamp(first: nat, last: nat)

  type Missing = map<nat, Option<Stamp>>

  datatype Sender = Sender(limit: nat, missing: Missing, maxReceived: Option<nat>)

  function Since(now: nat, past: nat): nat { if now < past then 0 else now - past }

  // ----- arrivals -----

  ghost function Received(s: Sender, seqnum: nat): Sender {
    match s.maxReceived
    case None => s.(maxReceived := Some(seqnum))
    case Some(max) =>
      if seqnum <= max then s.(missing := s.missing - {seqnum})
      else Sender(s.limit, InsertedRange(s.missing, s.limit, max + 1, seqnum, None), Some(seqnum))
  }

  /** What arrivals keep true: no more numbers than the limit, and only numbers already passed. */
  ghost predicate Consistent(s: Sender) {
    && |s.missing| <= s.limit
    && (forall n :: n in s.missing ==> s.maxReceived.Some? && n < s.maxReceived.value)
  }

  // ----- asking -----

  predicate Expired(e: Option<Stamp>, now: nat) { e.Some? && Since(now, e.value.first) >= EXPIRY }

  /** To be asked for now: never asked for, or not for a while and not given up. */
  predicate Due(e: Option<Stamp>, now: nat) {
    e.None? || (!Expired(e, now) && Since(now, e.value.last) >= RETRY)
  }

  function Stamped(e: Option<Stamp>, now: nat): Stamp {
    if e.None? then Stamp(now, now) else if Due(e, now) then e.value.(last := now) else e.value
  }

  function Retained(m: Missing, now: nat): Missing {
    map n | n in m && !Expired(m[n], now) :: Some(Stamped(m[n], now))
  }

  predicate AnyDue(m: Missing, now: nat) { exists n :: n in m && Due(m[n], now) }

  /** The numbers asked for: those whose last request is now, if any is due at all. */
  function Requests(m: Missing, now: nat): set<nat> {
    if AnyDue(m, now) then set n | n in m && !Expired(m[n], now) && Stamped(m[n], now).last == now else {}
  }

  class NackSender {
    const limit: nat
    var sentBySeqnum: KeySortedCache<Option<Stamp>>
    var maxReceived: Option<nat>

    ghost function State(): Sender
      reads this, sentBySeqnum
    {
      Sender(limit, sentBySeqnum.valueByKey, maxReceived)
    }

    ghost predicate Valid()
      reads this, sentBySeqnum
    {
      sentBySeqnum.limit == limit && Consistent(State())
    }

    constructor (limit: nat)
      ensures Valid() && State() == Sender(limit, map[], None)
      ensures fresh(sentBySeqnum)
    {
      this.limit := limit;
      sentBySeqnum := new KeySortedCache(limit);
      maxReceived := None;
    }

    /** Mark the numbers from `first` up to `end` as missing, one by one. */
    method InsertMissing(first: nat, end: nat)
      requires first <= end && sentBySeqnum.limit == limit
      modifies sentBySeqnum
      ensures sentBySeqnum.valueByKey == InsertedRange(old(sentBySeqnum.valueByKey), limit, first, end, None)
    {
      hide Inserted;
      var n := first;
      while n < end
        invariant first <= n <= end
        invariant sentBySeqnum.valueByKey == InsertedRange(old(sentBySeqnum.valueByKey), limit, first, n, None)
      {
        sentBySeqnum.Insert(n, None);
        n := n + 1;
      }
    }

    /** A jump past more numbers than fit starts a new cache and inserts only the last of them. */
    method Jump(first: nat, seqnum: nat)
      requires first <= seqnum && sentBySeqnum.limit == limit
      requires AllBelow(sentBySeqnum.valueByKey, limit, first)
      modifies this`sentBySeqnum, sentBySeqnum
      ensures sentBySeqnum.limit == limit && (sentBySeqnum == old(sentBySeqnum) || fresh(sentBySeqnum))
      ensures sentBySeqnum.valueByKey == InsertedRange(old(sentBySeqnum.valueByKey), limit, first, seqnum, None)
    {
      hide InsertedRange;
      if seqnum - first > limit {
        ShortcutAgrees(sentBySeqnum.valueByKey, limit, first, seqnum, None);
        sentBySeqnum := new KeySortedCache(limit);
        InsertMissing(seqnum - limit, seqnum);
      } else {
        InsertMissing(first, seqnum);
      }
    }

    method RememberReceived(seqnum: nat)
      requires Valid()
      modifies this, sentBySeqnum
      ensures Valid() && State() == Received(old(State()), seqnum)
      ensures sentBySeqnum == old(sentBySeqnum) || fresh(sentBySeqnum)
    {
      hide InsertedRange, Consistent, AllBelow;
      ReceivedConsistent(State(), seqnum);
      if maxReceived.None? {
        maxReceived := Some(seqnum);
        return;
      }
      var max := maxReceived.value;
      if seqnum <= max {
        sentBySeqnum.Remove(seqnum);
      } else {
        AllPassed(State(), max);
        maxReceived := Some(seqnum);
        Jump(max + 1, seqnum);
      }
    }

    /** The retain pass: what has expired goes, what is due is stamped; true if anything was due. */
    method RetainPass(now: nat) returns (sendAny: bool)
      modifies sentBySeqnum
      ensures sentBySeqnum.valueByKey == Retained(old(sentBySeqnum.valueByKey), now)
      ensures sendAny <==> AnyDue(old(sentBySeqnum.valueByKey), now)
    {
      hide Expired, Stamped, Due;
      ghost var m := sentBySeqnum.valueByKey;
      sendAny := false;
      var todo := sentBySeqnum.valueByKey.Keys;
      ghost var done: set<nat> := {};
      assert PartRetained(m, {}, now) == m;
      while todo != {}
        invariant todo !! done && todo + done == m.Keys
        invariant sentBySeqnum.valueByKey == PartRetained(m, done, now)
        invariant sendAny <==> exists n :: n in done && Due(m[n], now)
        decreases |todo|
      {
        var n :| n in todo;
        todo := todo - {n};
        PartRetainedGrows(m, done, n, now);
        done := done + {n};
        var keep, value, due := Visit(sentBySeqnum.valueByKey[n], now);
        sendAny := sendAny || due;
        sentBySeqnum.valueByKey :=
          if keep then sentBySeqnum.valueByKey[n := value] else sentBySeqnum.valueByKey - {n};
      }
      assert done == m.Keys;
      assert PartRetained(m, m.Keys, now) == Retained(m, now);
    }

    /** What the retain pass does with one entry. */
    static method Visit(sent: Option<Stamp>, now: nat) returns (keep: bool, value: Option<Stamp>, due: bool)
      ensures keep == !Expired(sent, now) && due == Due(sent, now)
      ensures keep ==> value == Some(Stamped(sent, now))
    {
      keep, value, due := true, sent, false;
      if sent.Some? {
        if Since(now, sent.value.first) >= EXPIRY {
          keep := false;
        } else if Since(now, sent.value.last) >= RETRY {
          due := true;
          value := Some(sent.value.(last := now));
        }
      } else {
        due := true;
        value := Some(Stamp(now, now));
      }
    }

    /** The retain pass, then the numbers stamped with this call's time, in ascending order: every
        entry left has a stamp. */
    method SendNacks(now: nat) returns (r: Option<seq<nat>>)
      requires Valid()
      modifies sentBySeqnum
      ensures Valid()
      ensures State() == old(State()).(missing := Retained(old(State()).missing, now))
      ensures r.Some? <==> AnyDue(old(State()).missing, now)
      ensures r.Some? ==> Ascending(r.value) && forall n :: n in r.value <==> n in Requests(old(State()).missing, now)
    {
      RetainedConsistent(State(), now);
      var sendAny := RetainPass(now);
      if sendAny {
        var requests := StampedAt(sentBySeqnum.valueByKey, now);
        return Some(requests);
      }
      return None;
    }

    /** The iteration over the sorted cache, filtered. */
    static method StampedAt(kept: Missing, now: nat) returns (r: seq<nat>)
      requires forall n :: n in kept ==> kept[n].Some?
      ensures Ascending(r) && forall n :: n in r <==> n in kept && kept[n].value.last == now
    {
      r := [];
      var todo := kept.Keys;
      while todo != {}
        invariant todo <= kept.Keys && Ascending(r)
        invariant forall n :: n in r <==> n in kept && n !in todo && kept[n].value.last == now
        invariant forall k, n :: 0 <= k < |r| && n in todo ==> r[k] < n
        decreases |todo|
      {
        SmallestExists(todo);
        var n :| n in todo && IsSmallest(todo, n);
        todo := todo - {n};
        if kept[n].value.last == now {
          r := r + [n];
        }
      }
    }
  }

  predicate Ascending(s: seq<nat>) { forall i, j :: 0 <= i < j < |s| ==> s[i] < s[j] }

  /** The cache when the retain pass has visited the numbers in `done`. */
  ghost function PartRetained(m: Missing, done: set<nat>, now: nat): Missing {
    map n | n in m && (n in done ==> !Expired(m[n], now)) :: if n in done then Some(Stamped(m[n], now)) else m[n]
  }

  lemma PartRetainedGrows(m: Missing, done: set<nat>, n: nat, now: nat)
    requires n in m && n !in done
    ensures n in PartRetained(m, done, now) && PartRetained(m, done, now)[n] == m[n]
    ensures PartRetained(m, done + {n}, now)
         == if Expired(m[n], now) then PartRetained(m, done, now) - {n}
            else PartRetained(m, done, now)[n := Some(Stamped(m[n], now))]
  {
    hide Expired, Stamped;
  }

  ghost predicate AllBelow(m: Missing, limit: nat, end: nat) {
    |m| <= limit && forall n :: n in m ==> n < end
  }

  lemma AllPassed(s: Sender, max: nat)
    requires Consistent(s) && s.maxReceived == Some(max)
    ensures AllBelow(s.missing, s.limit, max + 1)
  {
  }

  lemma RangeAllBelow(m: Missing, limit: nat, first: nat, end: nat)
    requires first <= end && AllBelow(m, limit, first)
    ensures AllBelow(InsertedRange(m, limit, first, end, None), limit, end)
  {
    hide InsertedRange, InWindow;
    RangeKeepsWindow(m, limit, first, end, None);
  }

  lemma ReceivedConsistent(s: Sender, seqnum: nat)
    requires Consistent(s)
    ensures Consistent(Received(s, seqnum))
  {
    hide InsertedRange;
    if s.maxReceived.Some? {
      var max := s.maxReceived.value;
      if seqnum <= max {
        SizeAfterRemove(s.missing, {seqnum});
      } else {
        RangeAllBelow(s.missing, s.limit, max + 1, seqnum);
      }
    }
  }

  lemma SizeAfterRemove<V>(m: map<nat, V>, gone: set<nat>)
    ensures |m - gone| <= |m|
  {
    assert (m - gone).Keys == m.Keys - gone;
    assert |m.Keys - gone| <= |m.Keys|;
  }

  lemma SubsetSize(a: set<nat>, b: set<nat>)
    requires a <= b
    ensures |a| <= |b|
  {
    assert b == a + (b - a);
  }

  lemma RetainedConsistent(s: Sender, now: nat)
    requires Consistent(s)
    ensures Consistent(s.(missing := Retained(s.missing, now)))
  {
    SubsetSize(Retained(s.missing, now).Keys, s.missing.Keys);
  }

  /** What is asked for is what is due, and besides, whenever anything is due, what was last asked
      for at this very instant: so exactly what is due as long as each call comes after the last. */
  lemma RequestsAreDue(m: Missing, now: nat)
    ensures Requests(m, now) == (set n | n in m && Due(m[n], now))
            <==> !AnyDue(m, now) || forall n :: n in m && m[n].Some? && m[n].value.last == now ==> Expired(m[n], now)
  {
    var due := set n | n in m && Due(m[n], now);
    if AnyDue(m, now) {
      forall n | n in m
        ensures n in Requests(m, now) <==> n in due || (m[n].Some? && m[n].value.last == now && !Expired(m[n], now))
      {
      }
      if n :| n in m && m[n].Some? && m[n].value.last == now && !Expired(m[n], now) {
        assert n in Requests(m, now) && n !in due;
      }
    } else {
      assert due == {};
    }
  }

  // ----- whole runs -----

  datatype Event = Arrived(seqnum: nat) | Asked(now: nat)

  ghost function Step(s: Sender, e: Event): Sender {
    match e
    case Arrived(seqnum) => Received(s, seqnum)
    case Asked(now) => s.(missing := Retained(s.missing, now))
  }

  ghost function Run(limit: nat, es: seq<Event>): Sender {
    if es == [] then Sender(limit, map[], None) else Step(Run(limit, es[..|es| - 1]), es[|es| - 1])
  }

  /** The time of the last call, -1 before the first. */
  function LastAsked(es: seq<Event>): int {
    if es == [] then -1
    else match es[|es| - 1]
      case Arrived(_) => LastAsked(es[..|es| - 1])
      case Asked(now) => now
  }

  /** Each call comes after the one before. */
  predicate Increasing(es: seq<Event>) {
    es != [] ==>
      && Increasing(es[..|es| - 1])
      && (es[|es| - 1].Asked? ==> LastAsked(es[..|es| - 1]) < es[|es| - 1].now)
  }

  /** How many calls asked for `n`. */
  ghost function TimesAsked(limit: nat, es: seq<Event>, n: nat): nat {
    if es == [] then 0
    else
      var (before, e) := (es[..|es| - 1], es[|es| - 1]);
      TimesAsked(limit, before, n) + (if e.Asked? && n in Requests(Run(limit, before).missing, e.now) then 1 else 0)
  }

  predicate HasArrived(es: seq<Event>, n: nat) { Arrived(n) in es }

  /** The largest number to arrive. */
  function Largest(es: seq<Event>): Option<nat> {
    if es == [] then None
    else
      var m := Largest(es[..|es| - 1]);
      match es[|es| - 1]
      case Asked(_) => m
      case Arrived(seqnum) => if m.None? || seqnum > m.value then Some(seqnum) else m
  }

  /** The time of the first call after a number larger than `n` had arrived. */
  function FirstCall(es: seq<Event>, n: nat): Option<nat> {
    if es == [] then None
    else
      var (before, e) := (es[..|es| - 1], es[|es| - 1]);
      var f := FirstCall(before, n);
      if f.None? && e.Asked? && Largest(before).Some? && n < Largest(before).value then Some(e.now) else f
  }

  /** Some call came two seconds or more after that first one. */
  predicate TimedOut(es: seq<Event>, n: nat) {
    es != [] &&
      var (before, e) := (es[..|es| - 1], es[|es| - 1]);
      || TimedOut(before, n)
      || (e.Asked? && GivenUp(before, n, e.now))
  }

  /** A call at `now` comes two seconds or more after the first one. */
  predicate GivenUp(es: seq<Event>, n: nat, now: nat) {
    FirstCall(es, n).Some? && now >= FirstCall(es, n).value + 2_000_000_000
  }

  /** The first number to arrive. */
  function FirstArrived(es: seq<Event>): Option<nat> {
    if es == [] then None
    else
      var f := FirstArrived(es[..|es| - 1]);
      if f.Some? then f else match es[|es| - 1]
        case Arrived(seqnum) => Some(seqnum)
        case Asked(_) => None
  }

  /** What the state knows of one number after `asked` requests for it, the last call being at `clock`. */
  ghost predicate Agrees(s: Sender, n: nat, asked: nat, clock: int) {
    && (s.maxReceived.None? || n >= s.maxReceived.value ==> asked == 0 && n !in s.missing)
    && asked <= 10
    && (n in s.missing ==>
          match s.missing[n]
          case None => asked == 0
          case Some(x) =>
            asked > 0 && x.first <= x.last <= clock && (asked - 1) * RETRY <= x.last - x.first < EXPIRY)
  }

  lemma ArrivalAgrees(s: Sender, n: nat, asked: nat, clock: int, seqnum: nat)
    requires Consistent(s) && Agrees(s, n, asked, clock)
    ensures Agrees(Received(s, seqnum), n, asked, clock)
  {
    hide InsertedRange, InWindow;
    if s.maxReceived.Some? && seqnum > s.maxReceived.value {
      RangeKeepsWindow(s.missing, s.limit, s.maxReceived.value + 1, seqnum, None);
    }
  }

  lemma RequestedWhenDue(m: Missing, n: nat, now: nat)
    requires n in m && (m[n].Some? ==> m[n].value.last < now)
    ensures n in Requests(m, now) <==> Due(m[n], now)
  {
  }

  lemma CallAgrees(s: Sender, n: nat, asked: nat, clock: int, now: nat)
    requires Consistent(s) && Agrees(s, n, asked, clock) && clock < now
    ensures Agrees(Step(s, Asked(now)), n, asked + (if n in Requests(s.missing, now) then 1 else 0), now)
  {
    if n in s.missing {
      RequestedWhenDue(s.missing, n, now);
    }
  }

  lemma {:induction false} RunConsistent(limit: nat, es: seq<Event>)
    ensures Consistent(Run(limit, es)) && Run(limit, es).limit == limit
  {
    hide Received, Retained, Consistent;
    if es == [] {
      StartAgrees(limit, 0);
    } else {
      var s := Run(limit, es[..|es| - 1]);
      RunConsistent(limit, es[..|es| - 1]);
      match es[|es| - 1] {
        case Arrived(seqnum) =>
          ReceivedConsistent(s, seqnum);
          ReceivedKeepsLimit(s, seqnum);
        case Asked(now) => RetainedConsistent(s, now);
      }
    }
  }

  lemma {:induction false} RunAgrees(limit: nat, es: seq<Event>, n: nat)
    requires Increasing(es)
    ensures Agrees(Run(limit, es), n, TimesAsked(limit, es, n), LastAsked(es))
  {
    hide Received, Retained, Agrees, Consistent, Requests;
    if es == [] {
      StartAgrees(limit, n);
    } else {
      var (before, e) := (es[..|es| - 1], es[|es| - 1]);
      var s := Run(limit, before);
      RunAgrees(limit, before, n);
      RunConsistent(limit, before);
      match e {
        case Arrived(seqnum) =>
          ArrivalAgrees(s, n, TimesAsked(limit, before, n), LastAsked(before), seqnum);
        case Asked(now) =>
          CallAgrees(s, n, TimesAsked(limit, before, n), LastAsked(before), now);
      }
    }
  }

  lemma StartAgrees(limit: nat, n: nat)
    ensures Consistent(Sender(limit, map[], None)) && Agrees(Sender(limit, map[], None), n, 0, -1)
  {
  }

  lemma ReceivedKeepsLimit(s: Sender, seqnum: nat)
    ensures Received(s, seqnum).limit == s.limit
  {
  }

  /** Over every run, no number is asked for more than ten times. */
  lemma AtMostTenRequests(limit: nat, es: seq<Event>, n: nat)
    requires Increasing(es)
    ensures TimesAsked(limit, es, n) <= 10
  {
    RunAgrees(limit, es, n);
  }

  /** Over every run, a call later than the last asks for exactly what is due. */
  lemma AsksForExactlyDue(limit: nat, es: seq<Event>, now: nat)
    requires Increasing(es) && LastAsked(es) < now
    ensures var m := Run(limit, es).missing; Requests(m, now) == set n | n in m && Due(m[n], now)
  {
    var m := Run(limit, es).missing;
    forall n | n in m && m[n].Some?
      ensures m[n].value.last < now
    {
      RunAgrees(limit, es, n);
    }
    RequestsAreDue(m, now);
  }

  /** A number that has arrived, or lies before the first arrival, is not tracked and has been passed. */
  ghost predicate Settled(s: Sender, n: nat) {
    n !in s.missing && s.maxReceived.Some? && n <= s.maxReceived.value
  }

  lemma SettledStays(s: Sender, n: nat, e: Event)
    requires Consistent(s) && Settled(s, n)
    ensures Settled(Step(s, e), n)
  {
    hide InsertedRange, InWindow;
    if e.Arrived? && e.seqnum > s.maxReceived.value {
      RangeKeepsWindow(s.missing, s.limit, s.maxReceived.value + 1, e.seqnum, None);
    }
  }

  lemma ArrivalSettles(s: Sender, n: nat)
    requires Consistent(s)
    ensures Settled(Received(s, n), n)
  {
    hide InsertedRange, InWindow;
    if s.maxReceived.Some? && n > s.maxReceived.value {
      RangeKeepsWindow(s.missing, s.limit, s.maxReceived.value + 1, n, None);
    }
  }

  /** Over every run, a number that has arrived is never asked for again. */
  lemma {:induction false} NeverAskedAfterArrival(limit: nat, es: seq<Event>, n: nat, now: nat)
    requires HasArrived(es, n)
    ensures Settled(Run(limit, es), n) && n !in Requests(Run(limit, es).missing, now)
  {
    var (before, e) := (es[..|es| - 1], es[|es| - 1]);
    RunConsistent(limit, before);
    if e == Arrived(n) {
      ArrivalSettles(Run(limit, before), n);
    } else {
      assert es == before + [e];
      NeverAskedAfterArrival(limit, before, n, now);
      SettledStays(Run(limit, before), n, e);
    }
  }

  /** The numbers that must be tracked, told by the events alone: passed since the first arrival, not
      arrived and not timed out. */
  predicate Wanted(es: seq<Event>, n: nat) {
    var (f, max) := (FirstArrived(es), Largest(es));
    f.Some? && max.Some? && f.value < n < max.value && !HasArrived(es, n) && !TimedOut(es, n)
  }

  /** What a call at `now` must ask for, by the events alone: what is wanted, is not given up by this
      very call, and was never asked for or last asked for at least 200 milliseconds ago. */
  predicate AsksNow(es: seq<Event>, n: nat, now: nat)
    decreases |es|, 1
  {
    && Wanted(es, n) && !GivenUp(es, n, now)
    && (LastAskedFor(es, n).None? || now >= LastAskedFor(es, n).value + 200_000_000)
  }

  /** The time of the last call that had to ask for `n`. */
  function LastAskedFor(es: seq<Event>, n: nat): Option<nat>
    decreases |es|, 0
  {
    if es == [] then None
    else
      var (before, e) := (es[..|es| - 1], es[|es| - 1]);
      if e.Asked? && AsksNow(before, n, e.now) then Some(e.now) else LastAskedFor(before, n)
  }

  lemma {:induction false} AskedIsPassed(es: seq<Event>, n: nat)
    ensures LastAskedFor(es, n).Some? ==> Largest(es).Some? && n < Largest(es).value
  {
    if es != [] {
      var (before, e) := (es[..|es| - 1], es[|es| - 1]);
      AskedIsPassed(before, n);
      if e.Asked? {
        AsksWanted(before, n, e.now);
      }
    }
  }

  lemma ReceivedLargest(s: Sender, seqnum: nat)
    ensures Received(s, seqnum).maxReceived
         == Some(if s.maxReceived.None? || seqnum > s.maxReceived.value then seqnum else s.maxReceived.value)
  {
    hide InsertedRange;
  }

  lemma {:induction false} LargestOfRun(limit: nat, es: seq<Event>)
    ensures Run(limit, es).maxReceived == Largest(es)
  {
    hide Received, Retained;
    if es != [] {
      LargestOfRun(limit, es[..|es| - 1]);
      if es[|es| - 1].Arrived? {
        ReceivedLargest(Run(limit, es[..|es| - 1]), es[|es| - 1].seqnum);
      }
    }
  }

  /** Nothing above the largest arrival has arrived, been called for or timed out, and that arrival is one. */
  lemma {:induction false} OnlyPassed(es: seq<Event>, n: nat)
    ensures var max := Largest(es);
            && (max.None? ==> FirstArrived(es).None? && !HasArrived(es, n))
            && (max.Some? ==>
                  && HasArrived(es, max.value)
                  && FirstArrived(es).Some? && FirstArrived(es).value <= max.value
                  && (HasArrived(es, n) ==> n <= max.value))
            && (FirstCall(es, n).Some? ==> max.Some? && n < max.value)
            && (TimedOut(es, n) ==> FirstCall(es, n).Some?)
  {
    if es != [] {
      var (before, e) := (es[..|es| - 1], es[|es| - 1]);
      OnlyPassed(before, n);
      assert es == before + [e];
    }
  }

  /** The times noted for a number are those of the first call for it and of the last that asked. */
  ghost predicate Noted(stamp: Option<Stamp>, es: seq<Event>, n: nat) {
    match stamp
    case None => FirstCall(es, n).None? && LastAskedFor(es, n).None?
    case Some(x) => FirstCall(es, n) == Some(x.first) && LastAskedFor(es, n) == Some(x.last)
  }

  /** Only wanted numbers are tracked, with their times, and within the window all of them are. */
  ghost predicate TrackedAs(m: Missing, limit: nat, es: seq<Event>, n: nat) {
    && (n in m ==> Wanted(es, n) && Noted(m[n], es, n))
    && (Wanted(es, n) && InWindow(n, limit, Largest(es).value) ==> n in m)
  }

  lemma NotedIsDue(stamp: Option<Stamp>, es: seq<Event>, n: nat, now: nat)
    requires Wanted(es, n) && Noted(stamp, es, n)
    ensures GivenUp(es, n, now) <==> Expired(stamp, now)
    ensures AsksNow(es, n, now) <==> Due(stamp, now)
  {
    hide Wanted;
  }

  lemma TrackedAfterCall(m: Missing, limit: nat, before: seq<Event>, n: nat, now: nat)
    requires TrackedAs(m, limit, before, n)
    ensures TrackedAs(Retained(m, now), limit, before + [Asked(now)], n)
  {
    hide Expired, Due, AsksNow, GivenUp;
    var es := before + [Asked(now)];
    assert es[..|es| - 1] == before;
    OnlyPassed(before, n);
    if n in m {
      NotedIsDue(m[n], before, n, now);
      ExpiredIsNotDue(m[n], now);
    }
  }

  lemma ExpiredIsNotDue(stamp: Option<Stamp>, now: nat)
    ensures stamp.None? ==> !Expired(stamp, now) && Due(stamp, now)
  {
  }

  /** An arrival keeps tracking what was tracked and tracks what it jumps over, less itself, and less
      what the window then leaves out. */
  lemma ReceivedTracks(s: Sender, n: nat, seqnum: nat)
    requires Consistent(s) && s.maxReceived.Some?
    ensures var (m, max) := (Received(s, seqnum).missing, s.maxReceived.value);
            var tracked := if seqnum <= max then n in s.missing && n != seqnum else n in s.missing || max < n < seqnum;
            && (n in m ==> tracked)
            && (tracked && InWindow(n, s.limit, if seqnum > max then seqnum else max) ==> n in m)
            && (n in m ==> m[n] == if n in s.missing then s.missing[n] else None)
    ensures n in s.missing ==> n < s.maxReceived.value
  {
    hide InsertedRange;
    if seqnum > s.maxReceived.value {
      RangeKeepsWindow(s.missing, s.limit, s.maxReceived.value + 1, seqnum, None);
    }
  }

  lemma TrackedAfterArrival(s: Sender, before: seq<Event>, n: nat, seqnum: nat)
    requires Consistent(s) && s.maxReceived == Largest(before) && TrackedAs(s.missing, s.limit, before, n)
    ensures TrackedAs(Received(s, seqnum).missing, s.limit, before + [Arrived(seqnum)], n)
  {
    hide Received, Consistent, AsksNow, GivenUp;
    var es := before + [Arrived(seqnum)];
    assert es[..|es| - 1] == before;
    OnlyPassed(before, n);
    AskedIsPassed(before, n);
    if s.maxReceived.Some? {
      OnlyPassed(before, s.maxReceived.value);
      ReceivedTracks(s, n, seqnum);
    } else {
      FirstArrival(s, n, seqnum);
    }
  }

  lemma FirstArrival(s: Sender, n: nat, seqnum: nat)
    requires Consistent(s) && s.maxReceived.None?
    ensures n !in Received(s, seqnum).missing && Received(s, seqnum).maxReceived == Some(seqnum)
  {
  }

  lemma {:induction false} RunTracks(limit: nat, es: seq<Event>, n: nat)
    ensures TrackedAs(Run(limit, es).missing, limit, es, n)
  {
    if es != [] {
      hide Received, Retained, TrackedAs;
      var (before, e) := (es[..|es| - 1], es[|es| - 1]);
      assert es == before + [e];
      RunTracks(limit, before, n);
      RunConsistent(limit, before);
      LargestOfRun(limit, before);
      match e {
        case Asked(now) => TrackedAfterCall(Run(limit, before).missing, limit, before, n, now);
        case Arrived(seqnum) => TrackedAfterArrival(Run(limit, before), before, n, seqnum);
      }
    }
  }

  /** Over every run, the numbers tracked are passed since the first arrival, not arrived, and not
      given up by a call two seconds or more after the first one that could ask for them; of the last
      `limit` numbers below the largest to arrive, they are all such numbers. */
  lemma TrackedExactly(limit: nat, es: seq<Event>, n: nat)
    ensures n in Run(limit, es).missing ==> Wanted(es, n)
    ensures Wanted(es, n) && InWindow(n, limit, Largest(es).value) ==> n in Run(limit, es).missing
  {
    RunTracks(limit, es, n);
  }

  /** Over every run, a call later than the last asks only for numbers it must ask for, and within the
      window for all of them. */
  lemma AsksByTheClock(limit: nat, es: seq<Event>, n: nat, now: nat)
    requires Increasing(es) && LastAsked(es) < now
    ensures n in Requests(Run(limit, es).missing, now) ==> AsksNow(es, n, now)
    ensures AsksNow(es, n, now) && InWindow(n, limit, Largest(es).value) ==> n in Requests(Run(limit, es).missing, now)
  {
    hide Requests, Due, AsksNow;
    var m := Run(limit, es).missing;
    AsksForExactlyDue(limit, es, now);
    RunTracks(limit, es, n);
    AsksWanted(es, n, now);
    if n in m {
      NotedIsDue(m[n], es, n, now);
    }
  }

  lemma AsksWanted(es: seq<Event>, n: nat, now: nat)
    ensures AsksNow(es, n, now) ==> Wanted(es, n)
  {
  }

  // ----- a number that never comes -----

  /** Numbers 1 and 3 arrive, then there are `calls` calls, 200 milliseconds apart. */
  function Waiting(calls: nat): seq<Event> {
    if calls == 0 then [Arrived(1), Arrived(3)] else Waiting(calls - 1) + [Asked((calls - 1) * 200_000_000)]
  }

  /** What the events tell after `calls` calls. */
  ghost predicate StillWaiting(es: seq<Event>, calls: nat) {
    && Increasing(es) && LastAsked(es) == (if calls == 0 then -1 else (calls - 1) * 200_000_000)
    && FirstArrived(es) == Some(1) && Largest(es) == Some(3) && !HasArrived(es, 2)
    && FirstCall(es, 2) == (if calls == 0 then None else Some(0))
    && (TimedOut(es, 2) <==> calls > 10)
    && LastAskedFor(es, 2) == if calls == 0 then None else Some(Min(calls - 1, 9) * 200_000_000)
  }

  lemma WaitingStarts()
    ensures StillWaiting([Arrived(1), Arrived(3)], 0)
  {
    var (one, two) := ([Arrived(1)], [Arrived(1), Arrived(3)]);
    assert one[..0] == [] && two[..1] == one;
    assert FirstArrived(one) == Some(1) && Largest(one) == Some(1) && FirstCall(one, 2).None?;
    assert Increasing(one) && !TimedOut(one, 2) && LastAskedFor(one, 2).None? && LastAsked(one) == -1;
  }

  lemma WaitingGoesOn(before: seq<Event>, calls: nat)
    requires StillWaiting(before, calls)
    ensures StillWaiting(before + [Asked(calls * 200_000_000)], calls + 1)
  {
    var es := before + [Asked(calls * 200_000_000)];
    assert es[..|es| - 1] == before;
    AsksWhileWaiting(before, calls);
  }

  lemma AsksWhileWaiting(es: seq<Event>, calls: nat)
    requires StillWaiting(es, calls)
    ensures AsksNow(es, 2, calls * 200_000_000) <==> calls < 10
  {
  }

  lemma {:induction false} WaitingEvents(calls: nat)
    ensures StillWaiting(Waiting(calls), calls)
  {
    hide StillWaiting;
    if calls == 0 {
      WaitingStarts();
    } else {
      WaitingEvents(calls - 1);
      WaitingGoesOn(Waiting(calls - 1), calls - 1);
    }
  }

  lemma NotAskedYet(limit: nat)
    ensures TimesAsked(limit, [Arrived(1), Arrived(3)], 2) == 0
  {
    var (one, two) := ([Arrived(1)], [Arrived(1), Arrived(3)]);
    assert one[..0] == [] && two[..1] == one;
    assert TimesAsked(limit, one, 2) == 0;
  }

  lemma OneMoreCall(limit: nat, before: seq<Event>, now: nat)
    ensures TimesAsked(limit, before + [Asked(now)], 2)
         == TimesAsked(limit, before, 2) + (if 2 in Requests(Run(limit, before).missing, now) then 1 else 0)
  {
    hide Requests, Run;
    assert (before + [Asked(now)])[..|before|] == before;
  }

  lemma AskedWhileWaiting(limit: nat, es: seq<Event>, calls: nat)
    requires limit > 0 && StillWaiting(es, calls)
    ensures 2 in Requests(Run(limit, es).missing, calls * 200_000_000) <==> calls < 10
  {
    hide Requests, AsksNow, Run, Increasing, FirstArrived, HasArrived, FirstCall, TimedOut, LastAskedFor;
    AsksWhileWaiting(es, calls);
    AsksByTheClock(limit, es, 2, calls * 200_000_000);
  }

  /** It is asked for by the first ten calls, and by no other. */
  lemma {:induction false} AskedTenTimes(limit: nat, calls: nat)
    requires limit > 0
    ensures TimesAsked(limit, Waiting(calls), 2) == Min(calls, 10)
  {
    hide TimesAsked, StillWaiting, Requests, Run;
    if calls == 0 {
      NotAskedYet(limit);
    } else {
      AskedTenTimes(limit, calls - 1);
      WaitingEvents(calls - 1);
      AskedWhileWaiting(limit, Waiting(calls - 1), calls - 1);
      OneMoreCall(limit, Waiting(calls - 1), (calls - 1) * 200_000_000);
    }
  }
}
