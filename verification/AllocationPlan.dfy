/** Which layers an allocation of media/src/stream.rs goes through, told for each source by its own
    layers alone, and in which order the sources take turns. */
module AllocationPlans {
  import opened Bytes
  import opened Vp8Header
  import opened Allocation

  // ----- one source -----

  /** A layer that may be granted: it has a size and is no more than three seconds old, or of a screen share. */
  predicate Usable(s: Source, i: nat, now: nat)
    requires i < |s.layers|
  {
    var l := s.layers[i];
    l.size.width != 0 && (s.isScreenShare || now <= l.updated + 3)
  }

  /** Its height times one and a half reaches the height asked for. */
  predicate NearEnough(s: Source, i: nat)
    requires i < |s.layers|
  {
    s.requestedHeight != 0 && 3 * s.layers[i].size.height >= 2 * s.requestedHeight
  }

  /** With enough bandwidth the source moves to layer `i` when it holds layer `held`. */
  predicate Moves(s: Source, held: Option<nat>, i: nat, now: nat)
    requires held.Some? ==> held.value < |s.layers|
  {
    && i < |s.layers| && Usable(s, i, now)
    && (held.Some? ==>
          && !NearEnough(s, held.value)
          && (s.isScreenShare || LayerRate(s.layers[held.value]) <= LayerRate(s.layers[i])))
  }

  /** The layer it holds when its first `r` layers have been offered. */
  function Climb(s: Source, r: nat, now: nat): (held: Option<nat>)
    ensures held.Some? ==> held.value < |s.layers| && held.value < r
  {
    if r == 0 then None
    else if Moves(s, Climb(s, r - 1, now), r - 1, now) then Some(r - 1)
    else Climb(s, r - 1, now)
  }

  /** Layer `r` is one the source moves to. */
  predicate Reached(s: Source, r: nat, now: nat) { Moves(s, Climb(s, r, now), r, now) }

  /** Nothing is left for it after `r` layers. */
  predicate Done(s: Source, r: nat, now: nat) {
    r >= |s.layers| || (Climb(s, r, now).Some? && NearEnough(s, Climb(s, r, now).value))
  }

  lemma {:induction false} DoneStays(s: Source, q: nat, r: nat, now: nat)
    requires q <= r && Done(s, q, now)
    ensures Done(s, r, now) && Climb(s, r, now) == Climb(s, q, now) && !Reached(s, r, now)
    decreases r
  {
    if q < r {
      DoneStays(s, q, r - 1, now);
    }
  }

  /** The rates of usable layers never fall. */
  predicate RatesRise(s: Source, now: nat) {
    forall i, j :: 0 <= i < j < |s.layers| && Usable(s, i, now) && Usable(s, j, now) ==>
      LayerRate(s.layers[i]) <= LayerRate(s.layers[j])
  }

  /** The first usable layer near enough to the height asked for, or else the last usable one. */
  ghost predicate FirstEnoughOrLast(s: Source, r: nat, held: Option<nat>, now: nat)
    requires r <= |s.layers|
  {
    match held
    case None => forall i :: 0 <= i < r ==> !Usable(s, i, now)
    case Some(h) =>
      && h < r && Usable(s, h, now)
      && (forall i :: 0 <= i < h && Usable(s, i, now) ==> !NearEnough(s, i))
      && (NearEnough(s, h) || forall i :: h < i < r ==> !Usable(s, i, now))
  }

  /** A source whose usable layers do not fall in rate, or a screen share, climbs to just that layer. */
  lemma {:induction false} ClimbsToEnough(s: Source, r: nat, now: nat)
    requires r <= |s.layers| && (s.isScreenShare || RatesRise(s, now))
    ensures FirstEnoughOrLast(s, r, Climb(s, r, now), now)
    decreases r
  {
    if r > 0 {
      ClimbsToEnough(s, r - 1, now);
    }
  }

  // ----- the turns -----

  /** Where source `s` stands when `q` of the layers of `initial` have been offered. */
  ghost predicate StandsAt(initial: Source, s: Source, given: Allocations, q: nat, now: nat) {
    && s == initial.(layers := if Done(initial, q, now) then [] else initial.layers[q..])
    && Holds(initial, Climb(initial, q, now), given)
  }

  /** The source holds just that layer. */
  ghost predicate Holds(s: Source, held: Option<nat>, given: Allocations)
    requires held.Some? ==> held.value < |s.layers|
  {
    match held
    case None => s.uuid !in given
    case Some(i) => s.uuid in given && given[s.uuid] == Grant(s, s.layers[i])
  }

  /** How many layers of source `m` have been offered when source `k` is next in round `r`. */
  function OffersMade(m: nat, k: nat, r: nat): nat { if m < k then r + 1 else r }

  ghost predicate AllStand(initial: seq<Source>, sources: seq<Source>, k: nat, given: Allocations, r: nat, now: nat) {
    |sources| == |initial| && forall m :: 0 <= m < |initial| ==>
      StandsAt(initial[m], sources[m], given, OffersMade(m, k, r), now)
  }

  /** A turn: round and source. */
  type Turn = (nat, nat)

  predicate Earlier(a: Turn, b: Turn) { a.0 < b.0 || (a.0 == b.0 && a.1 < b.1) }

  /** The turns at which a layer is granted, from turn `start` on. */
  ghost predicate IsTurn(initial: seq<Source>, start: Turn, t: Turn, now: nat) {
    t.1 < |initial| && !Earlier(t, start) && Reached(initial[t.1], t.0, now)
  }

  ghost predicate InTurn(turns: seq<Turn>) {
    forall i, j :: 0 <= i < j < |turns| ==> Earlier(turns[i], turns[j])
  }

  /** `turns` are exactly the turns from `start` on, in order, and `plan` the layers they grant. */
  ghost predicate Follows(initial: seq<Source>, plan: seq<Allocated>, turns: seq<Turn>, start: Turn, now: nat) {
    && InTurn(turns)
    && (forall t :: t in turns <==> IsTurn(initial, start, t, now))
    && |plan| == |turns|
    && forall i :: 0 <= i < |plan| ==>
         && IsTurn(initial, start, turns[i], now)
         && plan[i] == Grant(initial[turns[i].1], initial[turns[i].1].layers[turns[i].0])
  }

  lemma OfferStands(initial: Source, s: Source, given: Allocations, r: nat, now: nat)
    requires StandsAt(initial, s, given, r, now) && s.layers != []
    ensures r < |initial.layers| && s.layers[0] == initial.layers[r]
    ensures Wanted(s, s.layers[0], given, now) <==> Reached(initial, r, now)
    ensures Grant(s, s.layers[0]) == Grant(initial, initial.layers[r])
    ensures var taken := Wanted(s, s.layers[0], given, now);
            var t := s.(layers := if taken && Enough(s, s.layers[0]) then [] else s.layers[1..]);
            StandsAt(initial, t, if taken then given[s.uuid := Grant(s, s.layers[0])] else given, r + 1, now)
  {
  }

  /** The turn of source `k`, which has a layer left. */
  lemma OfferAllStand(initial: seq<Source>, sources: seq<Source>, k: nat, given: Allocations, r: nat, now: nat)
    requires Distinct(initial) && AllStand(initial, sources, k, given, r, now)
    requires k < |sources| && sources[k].layers != []
    ensures var (s, l) := (sources[k], sources[k].layers[0]);
            var taken := Wanted(s, l, given, now);
            && (taken <==> IsTurn(initial, (r, k), (r, k), now))
            && (taken ==> Grant(s, l) == Grant(initial[k], initial[k].layers[r]))
            && AllStand(initial, Offered(sources, k, given, now), k + 1,
                        if taken then given[s.uuid := Grant(s, l)] else given, r, now)
  {
    hide Wanted, Enough, Climb, Reached, Done, Grant;
    var (s, l) := (sources[k], sources[k].layers[0]);
    var taken := Wanted(s, l, given, now);
    var g := if taken then given[s.uuid := Grant(s, l)] else given;
    var rest := Offered(sources, k, given, now);
    OfferStands(initial[k], s, given, r, now);
    forall m | 0 <= m < |initial|
      ensures StandsAt(initial[m], rest[m], g, OffersMade(m, k + 1, r), now)
    {
      assert StandsAt(initial[m], sources[m], given, OffersMade(m, k, r), now);
      assert m != k ==> initial[m].uuid != initial[k].uuid;
    }
  }

  /** Source `k` has nothing left. */
  lemma SkipAllStand(initial: seq<Source>, sources: seq<Source>, k: nat, given: Allocations, r: nat, now: nat)
    requires AllStand(initial, sources, k, given, r, now) && k < |sources| && sources[k].layers == []
    ensures !IsTurn(initial, (r, k), (r, k), now)
    ensures AllStand(initial, sources, k + 1, given, r, now)
  {
    hide Climb, Reached, Holds;
    assert StandsAt(initial[k], sources[k], given, OffersMade(k, k, r), now);
    DoneStays(initial[k], r, r, now);
    DoneStays(initial[k], r, r + 1, now);
    forall m | 0 <= m < |initial|
      ensures StandsAt(initial[m], sources[m], given, OffersMade(m, k + 1, r), now)
    {
      assert StandsAt(initial[m], sources[m], given, OffersMade(m, k, r), now);
    }
  }

  /** Nothing left anywhere. */
  lemma NoTurnsLeft(initial: seq<Source>, sources: seq<Source>, given: Allocations, r: nat, now: nat)
    requires AllStand(initial, sources, |sources|, given, r, now)
    requires forall m :: 0 <= m < |sources| ==> sources[m].layers == []
    ensures forall t :: !IsTurn(initial, (r, |sources|), t, now)
    ensures forall m :: 0 <= m < |initial| ==> Holds(initial[m], Climb(initial[m], |initial[m].layers|, now), given)
  {
    forall m | 0 <= m < |initial|
      ensures Done(initial[m], r + 1, now)
      ensures Holds(initial[m], Climb(initial[m], |initial[m].layers|, now), given)
    {
      var n := |initial[m].layers|;
      assert StandsAt(initial[m], sources[m], given, OffersMade(m, |sources|, r), now);
      DoneStays(initial[m], if r + 1 < n then r + 1 else n, if r + 1 < n then n else r + 1, now);
    }
    forall t: Turn | t.1 < |initial| && t.0 > r
      ensures !IsTurn(initial, (r, |sources|), t, now)
    {
      DoneStays(initial[t.1], r + 1, t.0, now);
    }
  }

  lemma FollowsSkip(initial: seq<Source>, plan: seq<Allocated>, turns: seq<Turn>, a: Turn, b: Turn, now: nat)
    requires Follows(initial, plan, turns, b, now)
    requires forall t :: IsTurn(initial, a, t, now) <==> IsTurn(initial, b, t, now)
    ensures Follows(initial, plan, turns, a, now)
  {
    hide IsTurn, InTurn;
  }

  lemma FollowsGrant(initial: seq<Source>, plan: seq<Allocated>, turns: seq<Turn>, a: Turn, b: Turn,
                     first: Allocated, now: nat)
    requires Follows(initial, plan, turns, b, now) && IsTurn(initial, a, a, now)
    requires forall t :: IsTurn(initial, a, t, now) <==> t == a || IsTurn(initial, b, t, now)
    requires forall t :: IsTurn(initial, b, t, now) ==> Earlier(a, t)
    requires first == Grant(initial[a.1], initial[a.1].layers[a.0])
    ensures Follows(initial, [first] + plan, [a] + turns, a, now)
  {
    hide IsTurn, Earlier, Grant;
    var all := [a] + turns;
    forall i, j | 0 <= i < j < |all|
      ensures Earlier(all[i], all[j])
    {
      assert all[j] == turns[j - 1] && turns[j - 1] in turns;
      assert i > 0 ==> all[i] == turns[i - 1];
    }
  }

  lemma NextTurn(initial: seq<Source>, k: nat, r: nat, now: nat)
    requires k < |initial|
    ensures forall t :: IsTurn(initial, (r, k), t, now)
              <==> (t == (r, k) && IsTurn(initial, (r, k), t, now)) || IsTurn(initial, (r, k + 1), t, now)
    ensures forall t :: IsTurn(initial, (r, k + 1), t, now) ==> Earlier((r, k), t)
  {
    hide Reached;
  }

  lemma NextRound(initial: seq<Source>, sources: seq<Source>, given: Allocations, r: nat, now: nat)
    ensures AllStand(initial, sources, |sources|, given, r, now) ==> AllStand(initial, sources, 0, given, r + 1, now)
    ensures forall t :: IsTurn(initial, (r, |initial|), t, now) <==> IsTurn(initial, (r + 1, 0), t, now)
  {
    hide StandsAt, Reached;
    if AllStand(initial, sources, |sources|, given, r, now) {
      forall m | 0 <= m < |initial|
        ensures StandsAt(initial[m], sources[m], given, OffersMade(m, 0, r + 1), now)
      {
        assert StandsAt(initial[m], sources[m], given, OffersMade(m, |sources|, r), now);
      }
    }
  }

  lemma NothingFollows(initial: seq<Source>, start: Turn, now: nat)
    requires forall t :: !IsTurn(initial, start, t, now)
    ensures Follows(initial, [], [], start, now)
  {
    hide IsTurn;
  }

  /** The plan from source `k` of round `r` on. */
  lemma {:induction false} PlanFollows(initial: seq<Source>, sources: seq<Source>, k: nat, taken: bool,
                                       given: Allocations, r: nat, now: nat) returns (turns: seq<Turn>)
    requires Distinct(initial) && |sources| == |initial| && k <= |sources|
    requires AllStand(initial, sources, k, given, r, now)
    requires !taken ==> forall m :: 0 <= m < k ==> sources[m].layers == []
    ensures var plan := Plan(sources, k, taken, given, now);
            && Follows(initial, plan, turns, (r, k), now)
            && forall m :: 0 <= m < |initial| ==>
                 Holds(initial[m], Climb(initial[m], |initial[m].layers|, now), Apply(plan, given))
    decreases LayersLeft(sources), taken, |sources| - k
  {
    hide IsTurn, AllStand, Holds, Climb, Wanted, Offered, Follows;
    var plan := Plan(sources, k, taken, given, now);
    if k == |sources| {
      if taken {
        NextRound(initial, sources, given, r, now);
        turns := PlanFollows(initial, sources, 0, false, given, r + 1, now);
        FollowsSkip(initial, plan, turns, (r, k), (r + 1, 0), now);
      } else {
        turns := [];
        NoTurnsLeft(initial, sources, given, r, now);
        NothingFollows(initial, (r, k), now);
      }
    } else {
      NextTurn(initial, k, r, now);
      if sources[k].layers == [] {
        SkipAllStand(initial, sources, k, given, r, now);
        turns := PlanFollows(initial, sources, k + 1, taken, given, r, now);
        FollowsSkip(initial, plan, turns, (r, k), (r, k + 1), now);
      } else {
        OfferAllStand(initial, sources, k, given, r, now);
        var (s, l) := (sources[k], sources[k].layers[0]);
        var rest := Offered(sources, k, given, now);
        if Wanted(s, l, given, now) {
          var g := given[s.uuid := Grant(s, l)];
          turns := PlanFollows(initial, rest, k + 1, true, g, r, now);
          FollowsGrant(initial, Plan(rest, k + 1, true, g, now), turns, (r, k), (r, k + 1), Grant(s, l), now);
          assert plan[1..] == Plan(rest, k + 1, true, g, now);
          turns := [(r, k)] + turns;
        } else {
          turns := PlanFollows(initial, rest, k + 1, true, given, r, now);
          FollowsSkip(initial, plan, turns, (r, k), (r, k + 1), now);
        }
      }
    }
  }

  lemma AllStandAtFirst(sources: seq<Source>, now: nat)
    ensures AllStand(sources, sources, 0, map[], 0, now)
  {
    forall m | 0 <= m < |sources|
      ensures StandsAt(sources[m], sources[m], map[], 0, now)
    {
      assert sources[m].layers[0..] == sources[m].layers;
    }
  }

  /** The plan grants exactly the layers each source moves to, whatever the other sources hold, round
      after round and within a round in the order of the sources. */
  lemma PlanExactly(sources: seq<Source>, now: nat) returns (turns: seq<Turn>)
    requires Distinct(sources)
    ensures InTurn(turns)
    ensures forall r: nat, m: nat :: (r, m) in turns <==> m < |sources| && Reached(sources[m], r, now)
    ensures var plan := Plan(sources, 0, false, map[], now);
            && |plan| == |turns|
            && forall i :: 0 <= i < |plan| ==>
                 var (r, m) := turns[i];
                 m < |sources| && r < |sources[m].layers| && plan[i] == Grant(sources[m], sources[m].layers[r])
    ensures forall m :: 0 <= m < |sources| ==>
              Holds(sources[m], Climb(sources[m], |sources[m].layers|, now),
                    Apply(Plan(sources, 0, false, map[], now), map[]))
  {
    hide Plan, Climb, Holds, AllStand, InTurn, Grant;
    AllStandAtFirst(sources, now);
    turns := PlanFollows(sources, sources, 0, false, map[], 0, now);
    forall r: nat, m: nat
      ensures (r, m) in turns <==> m < |sources| && Reached(sources[m], r, now)
    {
      assert (r, m) in turns <==> IsTurn(sources, (0, 0), (r, m), now);
    }
  }

  /** The grants that are made: none follows a grant to the same source that is near enough to the
      height the source asked for. */
  lemma NeverPastEnough(sources: seq<Source>, limit: nat, now: nat) returns (grants: seq<Allocated>)
    requires Distinct(sources)
    ensures grants <= Plan(sources, 0, false, map[], now) && Allocate(sources, limit, now) == Apply(grants, map[])
    ensures forall i, j, m ::
              0 <= i < j < |grants| && 0 <= m < |sources| && grants[i].uuid == grants[j].uuid == sources[m].uuid ==>
              var wanted := sources[m].requestedHeight;
              wanted == 0 || 3 * grants[i].size.height < 2 * wanted
  {
    hide Plan, Allocate, Affordable, Apply, Reached;
    var plan, n := AllocateCuts(sources, limit, now);
    var turns := PlanExactly(sources, now);
    grants := plan[..n];
    forall i, j, m | 0 <= i < j < |grants| && 0 <= m < |sources| && grants[i].uuid == grants[j].uuid == sources[m].uuid
      ensures sources[m].requestedHeight == 0 || 3 * grants[i].size.height < 2 * sources[m].requestedHeight
    {
      var ((q, x), (r, y)) := (turns[i], turns[j]);
      assert turns[i] in turns && turns[j] in turns && Earlier(turns[i], turns[j]);
      assert x == m && y == m;
      StopsWhenNear(sources[m], q, r, now);
    }
  }

  lemma StopsWhenNear(s: Source, q: nat, r: nat, now: nat)
    requires q < r && Reached(s, q, now) && Reached(s, r, now)
    ensures q < |s.layers| && !NearEnough(s, q)
  {
    if NearEnough(s, q) {
      DoneStays(s, q + 1, r, now);
    }
  }

  // ----- enough bandwidth -----

  function TotalRate(layers: seq<Layer>): nat {
    if layers == [] then 0 else LayerRate(layers[0]) + TotalRate(layers[1..])
  }

  /** The rates of all layers of all sources. */
  function Budget(sources: seq<Source>): nat {
    if sources == [] then 0 else TotalRate(sources[0].layers) + Budget(sources[1..])
  }

  lemma {:induction false} OneOfTotal(layers: seq<Layer>, i: nat)
    requires i < |layers|
    ensures LayerRate(layers[i]) <= TotalRate(layers)
  {
    if i > 0 {
      OneOfTotal(layers[1..], i - 1);
    }
  }

  lemma {:induction false} WithinBudget(sources: seq<Source>, given: Allocations)
    requires forall i :: 0 <= i < |sources| ==> Rate(given, sources[i].uuid) <= TotalRate(sources[i].layers)
    ensures Sum(sources, given) <= Budget(sources)
  {
    if sources != [] {
      WithinBudget(sources[1..], given);
    }
  }

  /** Whatever part of a plan is granted keeps within the budget. */
  lemma PrefixWithinBudget(sources: seq<Source>, n: nat, now: nat)
    requires Distinct(sources) && n <= |Plan(sources, 0, false, map[], now)|
    ensures Sum(sources, Apply(Plan(sources, 0, false, map[], now)[..n], map[])) <= Budget(sources)
  {
    hide Plan, Apply, LayerRate;
    var cut := Plan(sources, 0, false, map[], now)[..n];
    var given := Apply(cut, map[]);
    PlanIsJustified(sources, 0, false, map[], now);
    forall m | 0 <= m < |sources|
      ensures Rate(given, sources[m].uuid) <= TotalRate(sources[m].layers)
    {
      var u := sources[m].uuid;
      ApplyEntry(cut, map[], u);
      if u in given {
        assert given[u] in cut && Justified(sources, given[u], now);
        var i, j :| 0 <= i < |sources| && 0 <= j < |sources[i].layers|
                    && Eligible(sources[i], sources[i].layers[j], now)
                    && given[u] == Grant(sources[i], sources[i].layers[j]);
        assert i == m;
        OneOfTotal(sources[m].layers, j);
      }
    }
    WithinBudget(sources, given);
  }

  /** With bandwidth for all layers, every source gets the layer it climbs to; when its usable layers
      do not fall in rate, or it is a screen share, that is the first usable layer near enough to the
      height it asked for, or else the last usable one. */
  lemma EnoughBandwidth(sources: seq<Source>, limit: nat, now: nat, m: nat) returns (held: Option<nat>)
    requires Distinct(sources) && m < |sources| && Budget(sources) <= limit
    ensures held == Climb(sources[m], |sources[m].layers|, now)
    ensures Holds(sources[m], held, Allocate(sources, limit, now))
    ensures sources[m].isScreenShare || RatesRise(sources[m], now) ==>
              FirstEnoughOrLast(sources[m], |sources[m].layers|, held, now)
  {
    hide Plan, Allocate, Apply, Climb, Holds, Sum, Budget, FirstEnoughOrLast, RatesRise, Reached, InTurn, Grant,
         Distinct;
    var plan, n := AllocateCuts(sources, limit, now);
    forall i | 0 <= i <= |plan|
      ensures Sum(sources, Apply(plan[..i], map[])) <= limit
    {
      PrefixWithinBudget(sources, i, now);
    }
    assert n == |plan| && plan[..n] == plan;
    var turns := PlanExactly(sources, now);
    held := Climb(sources[m], |sources[m].layers|, now);
    if sources[m].isScreenShare || RatesRise(sources[m], now) {
      ClimbsToEnough(sources[m], |sources[m].layers|, now);
    }
  }

  // ----- layers whose rate was not measured -----

  const SMALL := Layer(0, "q", 1, PixelSize(320, 180), None)
  const MIDDLE := Layer(0, "h", 2, PixelSize(640, 360), None)
  const LARGE := Layer(0, "f", 3, PixelSize(1280, 720), None)
  const CAMERA := Source(1, false, 0, 720, [SMALL, MIDDLE, LARGE])

  lemma CameraPlan()
    ensures Plan([CAMERA], 0, false, map[], 3) == [Grant(CAMERA, SMALL), Grant(CAMERA, MIDDLE), Grant(CAMERA, LARGE)]
  {
    var (s, a, b, c) := (CAMERA, SMALL, MIDDLE, LARGE);
    var (s1, s2, s3) := (s.(layers := [b, c]), s.(layers := [c]), s.(layers := []));
    var (g1, g2, g3) := (map[1 := Grant(s, a)], map[1 := Grant(s, b)], map[1 := Grant(s, c)]);
    assert [a, b, c][1..] == [b, c] && [b, c][1..] == [c];
    assert [s][0 := s1] == [s1] && [s1][0 := s2] == [s2] && [s2][0 := s3] == [s3];
    assert map[][1 := Grant(s, a)] == g1 && g1[1 := Grant(s, b)] == g2 && g2[1 := Grant(s, c)] == g3;
    assert Plan([s3], 1, true, g3, 3) == Plan([s3], 0, false, g3, 3) == Plan([s3], 1, false, g3, 3) == [];
    assert Plan([s2], 1, true, g2, 3) == Plan([s2], 0, false, g2, 3) == [Grant(s, c)];
    assert Plan([s1], 1, true, g1, 3) == Plan([s1], 0, false, g1, 3) == [Grant(s, b), Grant(s, c)];
  }

  /** A camera asked for 720 lines, with layers of 180, 360 and 720 lines of unknown rate: what it gets
      within every limit. */
  lemma GuessedRates(limit: nat)
    ensures Rate(Allocate([CAMERA], limit, 3), 1)
         == if limit < 400_000 then 200_000 else if limit < 900_000 then 400_000 else 900_000
  {
    hide Plan;
    CameraPlan();
    var (a, b, c) := (Grant(CAMERA, SMALL), Grant(CAMERA, MIDDLE), Grant(CAMERA, LARGE));
    var (g1, g2, g3) := (map[][1 := a], map[][1 := a][1 := b], map[][1 := a][1 := b][1 := c]);
    assert [a, b, c][1..] == [b, c] && [b, c][1..] == [c] && [c][1..] == [];
    assert Spend([c], g2, 400_000, limit) == if limit < 900_000 then g2 else g3;
    assert Spend([b, c], g1, 200_000, limit) == if limit < 400_000 then g1 else Spend([c], g2, 400_000, limit);
  }

  // ----- the order -----

  /** What the sort compares, in this order. */
  function SortKey(s: Source): (k: seq<nat>)
    ensures |k| == 4
  {
    [if s.isScreenShare then 1 else 0, s.lastKeySpeaker, s.requestedHeight, s.uuid]
  }

  /** One source sorts before another exactly when its key is larger where they first differ. */
  lemma SortsByKey(a: Source, b: Source)
    ensures var (x, y) := (SortKey(a), SortKey(b));
            Before(a, b) <==> exists i :: 0 <= i < 4 && x[i] > y[i] && forall j :: 0 <= j < i ==> x[j] == y[j]
  {
    var (x, y) := (SortKey(a), SortKey(b));
    assert a.uuid == x[3] && a.requestedHeight == x[2] && a.lastKeySpeaker == x[1] && a.isScreenShare == (x[0] == 1);
    assert b.uuid == y[3] && b.requestedHeight == y[2] && b.lastKeySpeaker == y[1] && b.isScreenShare == (y[0] == 1);
    if Before(a, b) {
      var i := if x[0] != y[0] then 0 else if x[1] != y[1] then 1 else if x[2] != y[2] then 2 else 3;
      assert x[i] > y[i] && forall j :: 0 <= j < i ==> x[j] == y[j];
    }
  }
}
