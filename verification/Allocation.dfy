/** Sharing a receiver's bandwidth among video sources (media/src/stream.rs, `loop_allocatoins`).
    Round after round every source is offered its next simulcast layer; a layer that does not fit
    ends the allocation, except that the first one is granted whatever it costs. */
module Allocation {
  import opened Bytes
  import opened Vp8Header

  const MAX_AGE := 3

  type Uuid = nat

  /** A layer on offer: when it was last heard of, in seconds, and what is known of it. */
  datatype Layer = Layer(updated: nat, rid: string, ssrc: U32, size: PixelSize, rate: Option<nat>)

  datatype Source = Source(
    uuid: Uuid,
    isScreenShare: bool,
    lastKeySpeaker: nat,
    requestedHeight: nat,
    layers: seq<Layer>)

  datatype Allocated = Allocated(rid: string, uuid: Uuid, ssrc: U32, rate: nat, size: PixelSize)

  type Allocations = map<Uuid, Allocated>

  /** The measured rate, or a guess from the height. */
  function LayerRate(l: Layer): nat {
    match l.rate
    case Some(rate) => rate
    case None => if l.size.height <= 180 then 200_000 else if l.size.height <= 360 then 400_000 else 900_000
  }

  /** A layer with a size that, unless it is a screen share, was heard of in the last seconds. */
  predicate Eligible(s: Source, l: Layer, now: nat) {
    l.size.width != 0 && (s.isScreenShare || now <= l.updated + MAX_AGE)
  }

  /** The layer is within a factor of one and a half of the requested height. */
  predicate Enough(s: Source, l: Layer) {
    s.requestedHeight > 0 && l.size.height * 3 >= s.requestedHeight * 2
  }

  function Rate(given: Allocations, uuid: Uuid): nat {
    if uuid in given then given[uuid].rate else 0
  }

  function Grant(s: Source, l: Layer): Allocated {
    Allocated(l.rid, s.uuid, l.ssrc, LayerRate(l), l.size)
  }

  /** Whether the layer at hand is worth granting: a camera layer slower than the one held is not. */
  predicate Wanted(s: Source, l: Layer, given: Allocations, now: nat) {
    Eligible(s, l, now) && (s.isScreenShare || LayerRate(l) >= Rate(given, s.uuid))
  }

  ghost predicate Distinct(sources: seq<Source>) {
    forall i, j :: 0 <= i < j < |sources| ==> sources[i].uuid != sources[j].uuid
  }

  function LayersLeft(sources: seq<Source>): nat {
    if sources == [] then 0 else |sources[0].layers| + LayersLeft(sources[1..])
  }

  lemma {:induction false} FewerLayers(sources: seq<Source>, k: nat, s: Source)
    requires k < |sources| && |s.layers| < |sources[k].layers|
    ensures LayersLeft(sources[k := s]) < LayersLeft(sources)
  {
    if k > 0 {
      assert sources[k := s][1..] == sources[1..][k - 1 := s];
      FewerLayers(sources[1..], k - 1, s);
    }
  }

  /** The sources after source `k` was offered its next layer. */
  function Offered(sources: seq<Source>, k: nat, given: Allocations, now: nat): (r: seq<Source>)
    requires k < |sources| && sources[k].layers != []
    ensures |r| == |sources| && LayersLeft(r) < LayersLeft(sources)
  {
    var (s, l) := (sources[k], sources[k].layers[0]);
    var t := s.(layers := if Wanted(s, l, given, now) && Enough(s, l) then [] else s.layers[1..]);
    FewerLayers(sources, k, t);
    sources[k := t]
  }

  /** The grants in the order they would be made with no limit on the bandwidth: from source `k` of a
      round on, when `taken` says whether the round has offered a layer yet. */
  function Plan(sources: seq<Source>, k: nat, taken: bool, given: Allocations, now: nat): seq<Allocated>
    requires k <= |sources|
    decreases LayersLeft(sources), taken, |sources| - k
  {
    if k == |sources| then
      if taken then Plan(sources, 0, false, given, now) else []
    else if sources[k].layers == [] then Plan(sources, k + 1, taken, given, now)
    else
      var (s, l) := (sources[k], sources[k].layers[0]);
      var rest := Offered(sources, k, given, now);
      if Wanted(s, l, given, now) then
        [Grant(s, l)] + Plan(rest, k + 1, true, given[s.uuid := Grant(s, l)], now)
      else Plan(rest, k + 1, true, given, now)
  }

  /** Grants made one after the other while the running total fits, the first one in any case. */
  function Spend(plan: seq<Allocated>, given: Allocations, total: int, limit: nat): Allocations
    decreases |plan|
  {
    if plan == [] then given
    else
      var a := plan[0];
      var next := total + a.rate - Rate(given, a.uuid);
      if next > limit && given != map[] then given
      else Spend(plan[1..], given[a.uuid := a], next, limit)
  }

  /** What one offer does to what is granted in the end. */
  lemma SpendOffer(sources: seq<Source>, k: nat, taken: bool, given: Allocations, now: nat, total: int, limit: nat)
    requires k < |sources| && sources[k].layers != []
    ensures var (s, l, rest) := (sources[k], sources[k].layers[0], Offered(sources, k, given, now));
            var next := total + LayerRate(l) - Rate(given, s.uuid);
            Spend(Plan(sources, k, taken, given, now), given, total, limit)
              == if !Wanted(s, l, given, now) then Spend(Plan(rest, k + 1, true, given, now), given, total, limit)
                 else if next > limit && given != map[] then given
                 else Spend(Plan(rest, k + 1, true, given[s.uuid := Grant(s, l)], now),
                            given[s.uuid := Grant(s, l)], next, limit)
  {
    var (s, l, rest) := (sources[k], sources[k].layers[0], Offered(sources, k, given, now));
    if Wanted(s, l, given, now) {
      var more := Plan(rest, k + 1, true, given[s.uuid := Grant(s, l)], now);
      assert ([Grant(s, l)] + more)[1..] == more;
    }
  }

  /** The body of the inner loop, for a source with a layer left: `total` never falls below what is
      taken off it. */
  method OfferLayer(ghost initial: seq<Source>, sources: seq<Source>, k: nat, granted: Allocations, total: nat,
                    availableRate: nat, now: nat)
      returns (sources': seq<Source>, granted': Allocations, total': nat, full: bool)
    requires Distinct(initial) && SameUuids(initial, sources) && total == Sum(initial, granted)
    requires k < |sources| && sources[k].layers != []
    ensures !full ==> SameUuids(initial, sources') && sources' == Offered(sources, k, granted, now)
    ensures full ==> forall taken ::
              Spend(Plan(sources, k, taken, granted, now), granted, total, availableRate) == granted
    ensures !full ==> total' == Sum(initial, granted')
    ensures !full ==> forall taken ::
              Spend(Plan(sources, k, taken, granted, now), granted, total, availableRate)
                == Spend(Plan(sources', k + 1, true, granted', now), granted', total', availableRate)
  {
    hide Plan, Spend, LayersLeft, Distinct;
    var (s, l) := (sources[k], sources[k].layers[0]);
    forall taken {
      SpendOffer(sources, k, taken, granted, now, total, availableRate);
    }
    sources', granted', total', full := sources[k := s.(layers := s.layers[1..])], granted, total, false;
    if l.size.width == 0 {
      return;
    }
    if !s.isScreenShare && now > l.updated + MAX_AGE {
      return;
    }
    var allocatedRate := Rate(granted, s.uuid);
    var layerRate := LayerRate(l);
    if !s.isScreenShare && layerRate < allocatedRate {
      return;
    }
    SumAtLeast(initial, granted, k);
    total' := total' + layerRate;
    total' := total' - allocatedRate;
    SumAfterGrant(initial, granted, k, Grant(s, l));
    if total' > availableRate && granted != map[] {
      full := true;
      return;
    }
    granted' := granted[s.uuid := Grant(s, l)];
    if s.requestedHeight > 0 && l.size.height * 3 >= s.requestedHeight * 2 {
      sources' := sources[k := s.(layers := [])];
    }
  }

  /** The allocation loops. */
  method LoopAllocations(initial: seq<Source>, availableRate: nat, now: nat) returns (granted: Allocations)
    requires Distinct(initial)
    ensures granted == Spend(Plan(initial, 0, false, map[], now), map[], 0, availableRate)
  {
    hide Spend, Distinct, Offered;
    var sources := initial;
    granted := map[];
    var total: nat := 0;
    NothingGranted(initial);
    ghost var goal := Spend(Plan(initial, 0, false, map[], now), map[], 0, availableRate);
    var layerAllocated := true;
    while layerAllocated
      invariant SameUuids(initial, sources) && total == Sum(initial, granted)
      invariant if layerAllocated
                then Spend(Plan(sources, 0, false, granted, now), granted, total, availableRate) == goal
                else granted == goal
      decreases LayersLeft(sources), layerAllocated
    {
      layerAllocated := false;
      ghost var left := LayersLeft(sources);
      var k := 0;
      while k < |sources|
        invariant k <= |sources|
        invariant SameUuids(initial, sources) && total == Sum(initial, granted)
        invariant Spend(Plan(sources, k, layerAllocated, granted, now), granted, total, availableRate) == goal
        invariant if layerAllocated then LayersLeft(sources) < left else LayersLeft(sources) == left
      {
        if sources[k].layers != [] {
          var full;
          var before := granted;
          sources, granted, total, full := OfferLayer(initial, sources, k, granted, total, availableRate, now);
          if full {
            return before;
          }
          layerAllocated := true;
        }
        k := k + 1;
      }
      if !layerAllocated {
        SpendNothing(granted, total, availableRate);
      }
    }
  }

  lemma SpendNothing(given: Allocations, total: int, limit: nat)
    ensures Spend([], given, total, limit) == given
  {
  }

  // ----- totals -----

  ghost predicate SameUuids(a: seq<Source>, b: seq<Source>) {
    |a| == |b| && forall i :: 0 <= i < |a| ==> a[i].uuid == b[i].uuid
  }

  /** The rates granted to the sources, added up. */
  function Sum(sources: seq<Source>, given: Allocations): nat {
    if sources == [] then 0 else Rate(given, sources[0].uuid) + Sum(sources[1..], given)
  }

  lemma {:induction false} SumAtLeast(sources: seq<Source>, given: Allocations, k: nat)
    requires k < |sources|
    ensures Sum(sources, given) >= Rate(given, sources[k].uuid)
  {
    if k > 0 {
      SumAtLeast(sources[1..], given, k - 1);
    }
  }

  lemma {:induction false} SumUntouched(sources: seq<Source>, given: Allocations, a: Allocated)
    requires forall i :: 0 <= i < |sources| ==> sources[i].uuid != a.uuid
    ensures Sum(sources, given[a.uuid := a]) == Sum(sources, given)
  {
    if sources != [] {
      SumUntouched(sources[1..], given, a);
    }
  }

  lemma {:induction false} SumAfterGrant(sources: seq<Source>, given: Allocations, k: nat, a: Allocated)
    requires Distinct(sources) && k < |sources| && sources[k].uuid == a.uuid
    ensures Sum(sources, given[a.uuid := a]) == Sum(sources, given) + a.rate - Rate(given, a.uuid)
  {
    if k == 0 {
      SumUntouched(sources[1..], given, a);
    } else {
      SumAfterGrant(sources[1..], given, k - 1, a);
    }
  }

  lemma {:induction false} NothingGranted(sources: seq<Source>)
    ensures Sum(sources, map[]) == 0
  {
    if sources != [] {
      NothingGranted(sources[1..]);
    }
  }

  // ----- what is granted -----

  /** The grants of a plan all made. */
  function Apply(plan: seq<Allocated>, given: Allocations): Allocations {
    if plan == [] then given else Apply(plan[1..], given[plan[0].uuid := plan[0]])
  }

  /** How many grants of a plan are made before one does not fit. */
  function Afforded(plan: seq<Allocated>, given: Allocations, total: int, limit: nat): (n: nat)
    ensures n <= |plan|
    decreases |plan|
  {
    if plan == [] then 0
    else
      var a := plan[0];
      var next := total + a.rate - Rate(given, a.uuid);
      if next > limit && given != map[] then 0
      else 1 + Afforded(plan[1..], given[a.uuid := a], next, limit)
  }

  predicate Lists(sources: seq<Source>, uuid: Uuid) {
    exists j :: 0 <= j < |sources| && sources[j].uuid == uuid
  }

  /** Every grant goes to a source on the list. */
  ghost predicate Addressed(plan: seq<Allocated>, sources: seq<Source>) {
    forall a :: a in plan ==> Lists(sources, a.uuid)
  }

  lemma GrantKeepsTotal(sources: seq<Source>, a: Allocated, given: Allocations)
    requires Distinct(sources) && Lists(sources, a.uuid)
    ensures Sum(sources, given[a.uuid := a]) == Sum(sources, given) + a.rate - Rate(given, a.uuid)
  {
    var j :| 0 <= j < |sources| && sources[j].uuid == a.uuid;
    SumAfterGrant(sources, given, j, a);
  }

  /** A cut of a plan is affordable when every step of it but the very first grant fits the limit. */
  ghost predicate Affordable(sources: seq<Source>, plan: seq<Allocated>, n: nat, given: Allocations, limit: nat)
    requires n <= |plan|
  {
    forall m :: 0 < m <= n && (given != map[] || m > 1) ==> Sum(sources, Apply(plan[..m], given)) <= limit
  }

  lemma ApplyFront(plan: seq<Allocated>, n: nat, given: Allocations)
    requires 0 < n <= |plan|
    ensures Apply(plan[..n], given) == Apply(plan[1..][..n - 1], given[plan[0].uuid := plan[0]])
  {
    assert plan[..n][1..] == plan[1..][..n - 1];
  }

  lemma AffordableFront(sources: seq<Source>, plan: seq<Allocated>, n: nat, given: Allocations, limit: nat)
    requires 0 < n <= |plan|
    requires var g := given[plan[0].uuid := plan[0]];
             && (given != map[] ==> Sum(sources, g) <= limit)
             && Affordable(sources, plan[1..], n - 1, g, limit)
    ensures Affordable(sources, plan, n, given, limit)
  {
    forall m | 0 < m <= n && (given != map[] || m > 1)
      ensures Sum(sources, Apply(plan[..m], given)) <= limit
    {
      ApplyFront(plan, m, given);
      assert plan[0].uuid in given[plan[0].uuid := plan[0]];
      assert m == 1 ==> plan[1..][..m - 1] == [];
    }
  }

  lemma UnaffordableFront(sources: seq<Source>, plan: seq<Allocated>, n: nat, given: Allocations, limit: nat)
    requires 0 < n <= |plan|
    requires var g := given[plan[0].uuid := plan[0]];
             (given != map[] && Sum(sources, g) > limit) || !Affordable(sources, plan[1..], n - 1, g, limit)
    ensures !Affordable(sources, plan, n, given, limit)
  {
    var g := given[plan[0].uuid := plan[0]];
    if given != map[] && Sum(sources, g) > limit {
      ApplyFront(plan, 1, given);
      assert plan[1..][..0] == [];
    } else {
      var m :| 0 < m <= n - 1 && (g != map[] || m > 1) && Sum(sources, Apply(plan[1..][..m], g)) > limit;
      ApplyFront(plan, m + 1, given);
    }
  }

  lemma AffordableNone(sources: seq<Source>, plan: seq<Allocated>, given: Allocations, limit: nat)
    ensures Affordable(sources, plan, 0, given, limit) && Apply(plan[..0], given) == given
  {
  }

  /** The result is the plan cut short: the cut is affordable, and with one more grant, if there is
      one, it would not be. */
  lemma {:induction false} SpendIsLongestAffordable(sources: seq<Source>, plan: seq<Allocated>,
                                                    given: Allocations, limit: nat)
    requires Distinct(sources) && Addressed(plan, sources)
    ensures var n := Afforded(plan, given, Sum(sources, given), limit);
            && Spend(plan, given, Sum(sources, given), limit) == Apply(plan[..n], given)
            && Affordable(sources, plan, n, given, limit)
            && (n < |plan| ==> !Affordable(sources, plan, n + 1, given, limit))
    decreases |plan|
  {
    hide Sum, Affordable, Apply, Distinct;
    AffordableNone(sources, plan, given, limit);
    if plan != [] {
      var (a, rest) := (plan[0], plan[1..]);
      var g := given[a.uuid := a];
      assert a in plan;
      GrantKeepsTotal(sources, a, given);
      var n := Afforded(plan, given, Sum(sources, given), limit);
      if n == 0 {
        UnaffordableFront(sources, plan, 1, given, limit);
      } else {
        SpendIsLongestAffordable(sources, rest, g, limit);
        ApplyFront(plan, n, given);
        AffordableFront(sources, plan, n, given, limit);
        if n < |plan| {
          UnaffordableFront(sources, plan, n + 1, given, limit);
        }
      }
    }
  }

  // ----- what a plan offers -----

  /** A grant that names one of the source's own layers, eligible, under its own rate. */
  predicate Justified(sources: seq<Source>, a: Allocated, now: nat) {
    exists i, j ::
      && 0 <= i < |sources| && 0 <= j < |sources[i].layers|
      && Eligible(sources[i], sources[i].layers[j], now)
      && a == Grant(sources[i], sources[i].layers[j])
  }

  /** A grant justified by what is left of the layers was justified before. */
  lemma JustifiedBefore(sources: seq<Source>, k: nat, given: Allocations, now: nat, a: Allocated)
    requires k < |sources| && sources[k].layers != []
    requires Justified(Offered(sources, k, given, now), a, now)
    ensures Justified(sources, a, now)
  {
    var rest := Offered(sources, k, given, now);
    var i, j :| 0 <= i < |rest| && 0 <= j < |rest[i].layers|
                && Eligible(rest[i], rest[i].layers[j], now) && a == Grant(rest[i], rest[i].layers[j]);
    var m := if i == k then j + 1 else j;
    assert sources[i].layers[m] == rest[i].layers[j];
    assert Eligible(sources[i], sources[i].layers[m], now);
  }

  /** Every grant of a plan names a layer of its own source that is eligible. */
  lemma {:induction false} PlanIsJustified(sources: seq<Source>, k: nat, taken: bool, given: Allocations, now: nat)
    requires k <= |sources|
    ensures forall a :: a in Plan(sources, k, taken, given, now) ==> Justified(sources, a, now)
    decreases LayersLeft(sources), taken, |sources| - k
  {
    if k == |sources| {
      if taken {
        PlanIsJustified(sources, 0, false, given, now);
      }
    } else if sources[k].layers == [] {
      PlanIsJustified(sources, k + 1, taken, given, now);
    } else {
      var (s, l) := (sources[k], sources[k].layers[0]);
      var rest := Offered(sources, k, given, now);
      var g := if Wanted(s, l, given, now) then given[s.uuid := Grant(s, l)] else given;
      PlanIsJustified(rest, k + 1, true, g, now);
      forall a | a in Plan(rest, k + 1, true, g, now)
        ensures Justified(sources, a, now)
      {
        JustifiedBefore(sources, k, given, now, a);
      }
      if Wanted(s, l, given, now) {
        assert Justified(sources, Grant(s, l), now);
      }
    }
  }

  ghost predicate AnyEligible(sources: seq<Source>, now: nat) {
    exists i, j :: 0 <= i < |sources| && 0 <= j < |sources[i].layers| && Eligible(sources[i], sources[i].layers[j], now)
  }

  /** With nothing granted yet, a plan is empty exactly when no layer left is eligible. */
  lemma {:induction false} PlanEmptyIff(sources: seq<Source>, k: nat, taken: bool, now: nat)
    requires k <= |sources|
    requires !taken ==> forall i :: 0 <= i < k ==> sources[i].layers == []
    ensures Plan(sources, k, taken, map[], now) != [] <==> AnyEligible(sources, now)
    decreases LayersLeft(sources), taken, |sources| - k
  {
    if k == |sources| {
      if taken {
        PlanEmptyIff(sources, 0, false, now);
      }
    } else if sources[k].layers == [] {
      PlanEmptyIff(sources, k + 1, taken, now);
    } else {
      var (s, l) := (sources[k], sources[k].layers[0]);
      if !Wanted(s, l, map[], now) {
        var rest := Offered(sources, k, map[], now);
        PlanEmptyIff(rest, k + 1, true, now);
        EligibleAfterOffer(sources, k, now);
      } else {
        assert Eligible(sources[k], sources[k].layers[0], now);
      }
    }
  }

  lemma EligibleAfterOffer(sources: seq<Source>, k: nat, now: nat)
    requires k < |sources| && sources[k].layers != []
    requires !Wanted(sources[k], sources[k].layers[0], map[], now)
    ensures AnyEligible(Offered(sources, k, map[], now), now) <==> AnyEligible(sources, now)
  {
    var rest := Offered(sources, k, map[], now);
    assert rest[k].layers == sources[k].layers[1..];
    if AnyEligible(sources, now) {
      var i, j :| 0 <= i < |sources| && 0 <= j < |sources[i].layers| && Eligible(sources[i], sources[i].layers[j], now);
      var m := if i == k then j - 1 else j;
      assert Eligible(rest[i], rest[i].layers[m], now);
    }
    if AnyEligible(rest, now) {
      var i, j :| 0 <= i < |rest| && 0 <= j < |rest[i].layers| && Eligible(rest[i], rest[i].layers[j], now);
      var m := if i == k then j + 1 else j;
      assert Eligible(sources[i], sources[i].layers[m], now);
    }
  }

  // ----- the main results -----

  function Allocate(sources: seq<Source>, limit: nat, now: nat): Allocations {
    Spend(Plan(sources, 0, false, map[], now), map[], 0, limit)
  }

  /** What applying a plan leaves under a key was there before or is the key's own grant. */
  lemma {:induction false} ApplyEntry(plan: seq<Allocated>, given: Allocations, u: Uuid)
    ensures u in given ==> u in Apply(plan, given)
    ensures u in Apply(plan, given) ==>
              var a := Apply(plan, given)[u];
              (a in plan && a.uuid == u) || (u in given && a == given[u])
    decreases |plan|
  {
    if plan != [] {
      ApplyEntry(plan[1..], given[plan[0].uuid := plan[0]], u);
    }
  }

  lemma {:induction false} ApplyTwo(plan: seq<Allocated>, n: nat, given: Allocations)
    requires n <= |plan|
    ensures Apply(plan, given) == Apply(plan[n..], Apply(plan[..n], given))
    decreases n
  {
    if n == 0 {
      assert plan[0..] == plan && plan[..0] == [];
    } else {
      ApplyTwo(plan[1..], n - 1, given[plan[0].uuid := plan[0]]);
      ApplyFront(plan, n, given);
      assert plan[1..][n - 1..] == plan[n..];
    }
  }

  lemma PlanIsAddressed(sources: seq<Source>, now: nat)
    ensures Addressed(Plan(sources, 0, false, map[], now), sources)
  {
    var plan := Plan(sources, 0, false, map[], now);
    PlanIsJustified(sources, 0, false, map[], now);
    forall a | a in plan
      ensures Lists(sources, a.uuid)
    {
      assert Justified(sources, a, now);
    }
  }

  /** The allocation within a limit, as a cut of the plan. */
  lemma AllocateCuts(sources: seq<Source>, limit: nat, now: nat) returns (plan: seq<Allocated>, n: nat)
    requires Distinct(sources)
    ensures plan == Plan(sources, 0, false, map[], now) && n <= |plan|
    ensures Allocate(sources, limit, now) == Apply(plan[..n], map[])
    ensures Affordable(sources, plan, n, map[], limit)
    ensures n < |plan| ==> !Affordable(sources, plan, n + 1, map[], limit)
    ensures plan != [] ==> n > 0
  {
    plan := Plan(sources, 0, false, map[], now);
    PlanIsAddressed(sources, now);
    NothingGranted(sources);
    SpendIsLongestAffordable(sources, plan, map[], limit);
    n := Afforded(plan, map[], 0, limit);
  }

  /** The rates granted fit the limit, or exactly one source is granted anything. */
  lemma FitsOrSingle(sources: seq<Source>, limit: nat, now: nat)
    requires Distinct(sources)
    ensures var r := Allocate(sources, limit, now);
            Sum(sources, r) <= limit || exists u :: r.Keys == {u}
  {
    var plan, n := AllocateCuts(sources, limit, now);
    var r := Allocate(sources, limit, now);
    assert n > 1 ==> Sum(sources, Apply(plan[..n], map[])) <= limit;
    if n == 0 {
      assert plan[..0] == [];
      NothingGranted(sources);
    } else if n == 1 {
      ApplyFront(plan, 1, map[]);
      assert plan[1..][..0] == [];
      assert r == map[plan[0].uuid := plan[0]];
      assert r.Keys == {plan[0].uuid};
    }
  }

  /** Something is granted exactly when some source has an eligible layer. */
  lemma GrantsWheneverEligible(sources: seq<Source>, limit: nat, now: nat)
    requires Distinct(sources)
    ensures Allocate(sources, limit, now) != map[] <==> AnyEligible(sources, now)
  {
    var plan, n := AllocateCuts(sources, limit, now);
    PlanEmptyIff(sources, 0, false, now);
    if plan != [] {
      ApplyFront(plan, n, map[]);
      var g: Allocations := map[plan[0].uuid := plan[0]];
      assert map[][plan[0].uuid := plan[0]] == g;
      ApplyEntry(plan[1..][..n - 1], g, plan[0].uuid);
    } else {
      assert plan[..n] == [];
    }
  }

  /** Every source granted something is granted one of its own eligible layers. */
  lemma GrantsOwnLayers(sources: seq<Source>, limit: nat, now: nat, u: Uuid)
    requires Distinct(sources) && u in Allocate(sources, limit, now)
    ensures var a := Allocate(sources, limit, now)[u]; a.uuid == u && Justified(sources, a, now)
  {
    var plan, n := AllocateCuts(sources, limit, now);
    ApplyEntry(plan[..n], map[], u);
    PlanIsJustified(sources, 0, false, map[], now);
  }

  // ----- more bandwidth -----

  /** A screen share that offers several layers: only such a source can be granted a lower rate than it holds. */
  ghost predicate Demotable(sources: seq<Source>, u: Uuid) {
    exists i :: 0 <= i < |sources| && sources[i].uuid == u && sources[i].isScreenShare && |sources[i].layers| > 1
  }

  /** No grant of a plan lowers the rate of any other source. */
  ghost predicate Rising(sources: seq<Source>, plan: seq<Allocated>, given: Allocations)
    decreases |plan|
  {
    plan != [] ==>
      && (!Demotable(sources, plan[0].uuid) ==> plan[0].rate >= Rate(given, plan[0].uuid))
      && Rising(sources, plan[1..], given[plan[0].uuid := plan[0]])
  }

  /** The sources as they were, some with fewer layers; a screen share that had one layer and still
      has it has not been granted it. */
  ghost predicate OfferedFrom(a: seq<Source>, b: seq<Source>, given: Allocations) {
    |a| == |b| && forall i :: 0 <= i < |a| ==> OfferedSource(a[i], b[i], given)
  }

  ghost predicate OfferedSource(a: Source, b: Source, given: Allocations) {
    && a.uuid == b.uuid && a.isScreenShare == b.isScreenShare && |b.layers| <= |a.layers|
    && (b.isScreenShare && |a.layers| <= 1 && b.layers != [] ==> b.uuid !in given)
  }

  lemma OfferKeeps(initial: seq<Source>, sources: seq<Source>, k: nat, given: Allocations, g: Allocations, now: nat)
    requires Distinct(initial) && OfferedFrom(initial, sources, given)
    requires k < |sources| && sources[k].layers != []
    requires forall u :: u in g ==> u in given || u == sources[k].uuid
    ensures OfferedFrom(initial, Offered(sources, k, given, now), g)
  {
    var rest := Offered(sources, k, given, now);
    forall i | 0 <= i < |initial|
      ensures OfferedSource(initial[i], rest[i], g)
    {
      assert OfferedSource(initial[i], sources[i], given);
      if i != k {
        assert OfferedSource(initial[k], sources[k], given) && initial[i].uuid != initial[k].uuid;
      }
    }
  }

  lemma {:induction false} PlanIsRising(initial: seq<Source>, sources: seq<Source>, k: nat, taken: bool,
                                        given: Allocations, now: nat)
    requires k <= |sources| && Distinct(initial) && OfferedFrom(initial, sources, given)
    ensures Rising(initial, Plan(sources, k, taken, given, now), given)
    decreases LayersLeft(sources), taken, |sources| - k
  {
    hide OfferedFrom;
    if k == |sources| {
      if taken {
        PlanIsRising(initial, sources, 0, false, given, now);
      }
    } else if sources[k].layers == [] {
      PlanIsRising(initial, sources, k + 1, taken, given, now);
    } else {
      var (s, l) := (sources[k], sources[k].layers[0]);
      var rest := Offered(sources, k, given, now);
      var g := if Wanted(s, l, given, now) then given[s.uuid := Grant(s, l)] else given;
      OfferKeeps(initial, sources, k, given, g, now);
      PlanIsRising(initial, rest, k + 1, true, g, now);
      if Wanted(s, l, given, now) {
        var plan := Plan(sources, k, taken, given, now);
        assert plan[1..] == Plan(rest, k + 1, true, g, now);
        GrantRises(initial, sources, k, given, now);
      }
    }
  }

  lemma GrantRises(initial: seq<Source>, sources: seq<Source>, k: nat, given: Allocations, now: nat)
    requires OfferedFrom(initial, sources, given) && k < |sources| && sources[k].layers != []
    requires Wanted(sources[k], sources[k].layers[0], given, now)
    ensures !Demotable(initial, sources[k].uuid) ==> LayerRate(sources[k].layers[0]) >= Rate(given, sources[k].uuid)
  {
    assert OfferedSource(initial[k], sources[k], given);
  }

  lemma {:induction false} RisingRates(sources: seq<Source>, plan: seq<Allocated>, given: Allocations, u: Uuid)
    requires Rising(sources, plan, given) && !Demotable(sources, u)
    ensures Rate(given, u) <= Rate(Apply(plan, given), u)
    decreases |plan|
  {
    if plan != [] {
      RisingRates(sources, plan[1..], given[plan[0].uuid := plan[0]], u);
    }
  }

  lemma {:induction false} RisingSuffix(sources: seq<Source>, plan: seq<Allocated>, n: nat, given: Allocations)
    requires Rising(sources, plan, given) && n <= |plan|
    ensures Rising(sources, plan[n..], Apply(plan[..n], given))
    decreases n
  {
    if n == 0 {
      assert plan[0..] == plan && plan[..0] == [];
    } else {
      RisingSuffix(sources, plan[1..], n - 1, given[plan[0].uuid := plan[0]]);
      ApplyFront(plan, n, given);
      assert plan[1..][n - 1..] == plan[n..];
    }
  }

  lemma AffordableShorter(sources: seq<Source>, plan: seq<Allocated>, m: nat, n: nat, given: Allocations,
                          less: nat, more: nat)
    requires m <= n <= |plan| && less <= more && Affordable(sources, plan, n, given, less)
    ensures Affordable(sources, plan, m, given, more)
  {
  }

  /** With more bandwidth and everything else the same, every source granted something before still
      is, and none gets a lower rate, but for screen shares that offer several layers; the caller
      offers one for each. */
  lemma MoreBandwidthNeverHurts(sources: seq<Source>, less: nat, more: nat, now: nat, u: Uuid)
    requires Distinct(sources) && less <= more
    ensures u in Allocate(sources, less, now) ==> u in Allocate(sources, more, now)
    ensures !Demotable(sources, u) ==> Rate(Allocate(sources, less, now), u) <= Rate(Allocate(sources, more, now), u)
  {
    hide Affordable, Plan, Apply, Allocate, Rising;
    var plan, m := AllocateCuts(sources, less, now);
    var _, n := AllocateCuts(sources, more, now);
    if m > n {
      AffordableShorter(sources, plan, n + 1, m, map[], less, more);
      assert false;
    }
    var cut := plan[..n];
    assert cut[..m] == plan[..m];
    ApplyTwo(cut, m, map[]);
    ApplyEntry(cut[m..], Apply(cut[..m], map[]), u);
    if !Demotable(sources, u) {
      NothingGrantedYet(sources);
      PlanIsRising(sources, sources, 0, false, map[], now);
      RisingPrefix(sources, plan, n, map[]);
      RisingSuffix(sources, cut, m, map[]);
      RisingRates(sources, cut[m..], Apply(cut[..m], map[]), u);
    }
  }

  lemma NothingGrantedYet(sources: seq<Source>)
    ensures OfferedFrom(sources, sources, map[])
  {
  }

  lemma {:induction false} RisingPrefix(sources: seq<Source>, plan: seq<Allocated>, n: nat, given: Allocations)
    requires Rising(sources, plan, given) && n <= |plan|
    ensures Rising(sources, plan[..n], given)
    decreases n
  {
    if n > 0 {
      RisingPrefix(sources, plan[1..], n - 1, given[plan[0].uuid := plan[0]]);
      assert plan[..n][1..] == plan[1..][..n - 1];
    }
  }

  const SMALL_SIZE := PixelSize(640, 100)
  const FAST_LAYER := Layer(0, "a", 1, SMALL_SIZE, Some(300))
  const SLOW_LAYER := Layer(0, "b", 2, SMALL_SIZE, Some(200))
  const CAMERA_LAYER := Layer(0, "c", 3, SMALL_SIZE, Some(50))
  const TWO_LAYER_SCREEN := Source(1, true, 0, 0, [FAST_LAYER, SLOW_LAYER])
  const ONE_LAYER_CAMERA := Source(2, false, 0, 0, [CAMERA_LAYER])

  /** The exemption is needed: a screen share with a fast layer in front of a slow one loses rate when
      there is just enough bandwidth for the camera beside it. */
  lemma DemotedScreen()
    ensures var sources := [TWO_LAYER_SCREEN, ONE_LAYER_CAMERA];
            && Rate(Allocate(sources, 340, 0), 1) == 300
            && Rate(Allocate(sources, 350, 0), 1) == 200
  {
    hide Plan;
    var (s, t) := (TWO_LAYER_SCREEN, ONE_LAYER_CAMERA);
    var (ga, gb, gc) := (Grant(s, FAST_LAYER), Grant(s, SLOW_LAYER), Grant(t, CAMERA_LAYER));
    DemotingPlan();
    var (g1, g2, g3) := (map[][1 := ga], map[][1 := ga][2 := gc], map[][1 := ga][2 := gc][1 := gb]);
    assert [ga, gc, gb][1..] == [gc, gb] && [gc, gb][1..] == [gb] && [gb][1..] == [];
    assert Spend([gb], g2, 350, 350) == Spend([], g3, 250, 350) == g3;
    assert Spend([gc, gb], g1, 300, 350) == Spend([gb], g2, 350, 350);
    assert Spend([gc, gb], g1, 300, 340) == g1;
  }

  /** The fast layer, the camera, and in the second round the slow layer in place of the fast one. */
  lemma DemotingPlan()
    ensures var (s, t) := (TWO_LAYER_SCREEN, ONE_LAYER_CAMERA);
            Plan([s, t], 0, false, map[], 0) == [Grant(s, FAST_LAYER), Grant(t, CAMERA_LAYER), Grant(s, SLOW_LAYER)]
  {
    var (s, t) := (TWO_LAYER_SCREEN, ONE_LAYER_CAMERA);
    var (a, b, c) := (FAST_LAYER, SLOW_LAYER, CAMERA_LAYER);
    var (s1, s2, t1) := (s.(layers := [b]), s.(layers := []), t.(layers := []));
    var (ga, gb, gc) := (Grant(s, a), Grant(s, b), Grant(t, c));
    var (g1, g2, g3) := (map[1 := ga], map[1 := ga, 2 := gc], map[1 := gb, 2 := gc]);
    assert [a, b][1..] == [b] && [b][1..] == [] && [c][1..] == [];
    assert [s, t][0 := s1] == [s1, t] && [s1, t][1 := t1] == [s1, t1] && [s1, t1][0 := s2] == [s2, t1];
    assert g2[1 := gb] == g3 && g1[2 := gc] == g2 && map[][1 := ga] == g1;
    PlanOfNothing([s2, t1], g3);
    assert Plan([s2, t1], 1, true, g3, 0) == Plan([s2, t1], 2, true, g3, 0) == Plan([s2, t1], 0, false, g3, 0);
    assert Plan([s1, t1], 2, true, g2, 0) == Plan([s1, t1], 0, false, g2, 0) == [gb];
    assert Plan([s1, t], 1, true, g1, 0) == [gc, gb];
  }

  lemma PlanOfNothing(sources: seq<Source>, given: Allocations)
    requires |sources| == 2 && sources[0].layers == [] && sources[1].layers == []
    ensures Plan(sources, 0, false, given, 0) == []
  {
    assert Plan(sources, 0, false, given, 0) == Plan(sources, 1, false, given, 0) == Plan(sources, 2, false, given, 0);
  }

  // ----- the order of the sources -----

  /** The sort key, greatest first: screen shares, then recent speakers, then larger requests, then ids. */
  predicate Before(a: Source, b: Source) {
    if a.isScreenShare != b.isScreenShare then a.isScreenShare
    else if a.lastKeySpeaker != b.lastKeySpeaker then a.lastKeySpeaker > b.lastKeySpeaker
    else if a.requestedHeight != b.requestedHeight then a.requestedHeight > b.requestedHeight
    else a.uuid > b.uuid
  }

  ghost predicate Sorted(sources: seq<Source>) {
    forall i, j :: 0 <= i < j < |sources| ==> Before(sources[i], sources[j])
  }

  lemma BeforeIsAsymmetric(a: Source, b: Source)
    ensures !(Before(a, b) && Before(b, a))
  {
  }

  lemma WithoutFirst(a: seq<Source>)
    requires a != []
    ensures multiset(a[1..]) == multiset(a) - multiset{a[0]}
  {
    assert a == [a[0]] + a[1..];
  }

  lemma SameFirst(a: seq<Source>, b: seq<Source>)
    requires Sorted(a) && Sorted(b) && a != [] && a[0] in b && b != [] && b[0] in a
    ensures a[0] == b[0]
  {
    hide Before;
    var j :| 0 <= j < |b| && b[j] == a[0];
    var i :| 0 <= i < |a| && a[i] == b[0];
    BeforeIsAsymmetric(a[0], b[0]);
  }

  /** Sources listed in any order sort to one list, so the hash map they come from does not matter. */
  lemma {:induction false} OrderIsUnique(a: seq<Source>, b: seq<Source>)
    requires Sorted(a) && Sorted(b) && multiset(a) == multiset(b)
    ensures a == b
    decreases |a|
  {
    hide Before;
    assert |a| == |multiset(a)| == |multiset(b)| == |b|;
    if a != [] {
      assert a[0] in multiset(b) && b[0] in multiset(a);
      SameFirst(a, b);
      WithoutFirst(a);
      WithoutFirst(b);
      OrderIsUnique(a[1..], b[1..]);
      assert a == [a[0]] + a[1..] && b == [b[0]] + b[1..];
    }
  }

  /** The source that sorts first is served whenever its first layer is eligible; if anyone shares a
      screen, that source is a screen share. */
  lemma FirstSourceIsServed(sources: seq<Source>, limit: nat, now: nat)
    requires Distinct(sources) && Sorted(sources) && sources != []
    requires sources[0].layers != [] && Eligible(sources[0], sources[0].layers[0], now)
    ensures sources[0].uuid in Allocate(sources, limit, now)
    ensures (exists i :: 0 <= i < |sources| && sources[i].isScreenShare) ==> sources[0].isScreenShare
  {
    var plan, n := AllocateCuts(sources, limit, now);
    assert plan != [] && plan[0].uuid == sources[0].uuid;
    ApplyFront(plan, n, map[]);
    var g: Allocations := map[][plan[0].uuid := plan[0]];
    ApplyEntry(plan[1..][..n - 1], g, plan[0].uuid);
  }
}
