/** The expiring cache of media/src/two_generation_cache.rs. Values sit in two maps; when the older
    one has expired, an insert throws it away and ages the younger one in its place. Instants and
    durations are nanosecond counts. */
module TwoGenerationCaches {
  import opened Bytes

  datatype Cache<K(==,!new), V> = Cache(lifetime: nat, gen0: map<K, V>, gen1: map<K, V>, expires: nat)

  function Fresh<K(==,!new), V>(lifetime: nat, now: nat): Cache<K, V> {
    Cache(lifetime, map[], map[], now + lifetime)
  }

  function Swapped<K(==,!new), V>(c: Cache<K, V>, now: nat): Cache<K, V> {
    if now >= c.expires then Cache(c.lifetime, map[], c.gen0, now + c.lifetime) else c
  }

  function Inserted<K(==,!new), V>(c: Cache<K, V>, key: K, value: V, now: nat): Cache<K, V> {
    var s := Swapped(c, now);
    s.(gen0 := s.gen0[key := value])
  }

  function Removed<K(==,!new), V>(c: Cache<K, V>, key: K): Cache<K, V> {
    c.(gen0 := c.gen0 - {key}, gen1 := c.gen1 - {key})
  }

  function Lookup<K(==,!new), V>(c: Cache<K, V>, key: K): Option<V> {
    if key in c.gen0 then Some(c.gen0[key]) else if key in c.gen1 then Some(c.gen1[key]) else None
  }

  /** The keys a lookup answers. */
  function Keys<K(==,!new), V>(c: Cache<K, V>): (ks: set<K>)
    ensures forall k :: k in ks <==> Lookup(c, k).Some?
  {
    c.gen0.Keys + c.gen1.Keys
  }

  class TwoGenerationCache<K(==,!new), V> {
    const lifetime: nat
    var gen0: map<K, V>
    var gen1: map<K, V>
    var expires: nat

    ghost function State(): Cache<K, V>
      reads this
    {
      Cache(lifetime, gen0, gen1, expires)
    }

    constructor (lifetime: nat, now: nat)
      ensures State() == Fresh(lifetime, now)
    {
      this.lifetime := lifetime;
      gen0, gen1 := map[], map[];
      expires := now + lifetime;
    }

    method SwapIfTooLong(now: nat) returns (removed: Option<map<K, V>>)
      modifies this
      ensures State() == Swapped(old(State()), now)
      ensures removed == if now >= old(expires) then Some(old(gen1)) else None
    {
      if now >= expires {
        removed := Some(gen1);
        gen1 := gen0;
        gen0 := map[];
        expires := now + lifetime;
      } else {
        removed := None;
      }
    }

    method Insert(key: K, value: V, now: nat)
      modifies this
      ensures State() == Inserted(old(State()), key, value, now)
    {
      var _ := SwapIfTooLong(now);
      gen0 := gen0[key := value];
    }

    method Get(key: K) returns (r: Option<V>)
      ensures r == Lookup(State(), key)
    {
      if key in gen0 {
        return Some(gen0[key]);
      }
      return if key in gen1 then Some(gen1[key]) else None;
    }

    method Remove(key: K) returns (r: Option<V>)
      modifies this
      ensures State() == Removed(old(State()), key)
      ensures r == Lookup(old(State()), key)
    {
      r := Get(key);
      gen0 := gen0 - {key};
      gen1 := gen1 - {key};
    }

    /** The keys returned are exactly those that can no longer be looked up. */
    method RemoveOld(now: nat) returns (keys: set<K>)
      modifies this
      ensures State() == Swapped(old(State()), now)
      ensures keys == Keys(old(State())) - Keys(State())
      ensures Keys(State()) <= Keys(old(State()))
    {
      var removed := SwapIfTooLong(now);
      if removed.Some? {
        var dropped := removed.value;
        keys := set k | k in dropped && k !in gen1;
      } else {
        keys := {};
      }
    }
  }

  // ----- whole runs against a timestamped log -----

  datatype Op<K, V> = Put(key: K, value: V, now: nat) | Drop(key: K) | Expire(now: nat)

  function Step<K(==,!new), V>(c: Cache<K, V>, op: Op<K, V>): Cache<K, V> {
    match op
    case Put(key, value, now) => Inserted(c, key, value, now)
    case Drop(key) => Removed(c, key)
    case Expire(now) => Swapped(c, now)
  }

  /** The cache created at time `start`, after all of `ops`. */
  function Run<K(==,!new), V>(lifetime: nat, start: nat, ops: seq<Op<K, V>>): Cache<K, V> {
    if ops == [] then Fresh(lifetime, start)
    else Step(Run(lifetime, start, ops[..|ops| - 1]), ops[|ops| - 1])
  }

  /** The latest time any operation was given. */
  function Clock<K, V>(start: nat, ops: seq<Op<K, V>>): nat {
    if ops == [] then start
    else
      var op := ops[|ops| - 1];
      if op.Drop? then Clock(start, ops[..|ops| - 1]) else op.now
  }

  /** Time never runs backwards. */
  predicate Monotonic<K, V>(start: nat, ops: seq<Op<K, V>>) {
    ops != [] ==>
      var (before, op) := (ops[..|ops| - 1], ops[|ops| - 1]);
      Monotonic(start, before) && (!op.Drop? ==> Clock(start, before) <= op.now)
  }

  /** What was last stored under a key and not dropped since: when, the first operation at least a
      lifetime later, and whether another came at least a lifetime after that one. */
  datatype Entry<V> = Entry(value: V, at: nat, late: Option<nat>, gone: bool)

  function Tick<V>(lifetime: nat, e: Option<Entry<V>>, now: nat): Option<Entry<V>> {
    match e
    case None => None
    case Some(x) =>
      if x.late.None? then Some(if now >= x.at + lifetime then x.(late := Some(now)) else x)
      else Some(if now >= x.late.value + lifetime then x.(gone := true) else x)
  }

  function Latest<K(==), V>(lifetime: nat, ops: seq<Op<K, V>>, key: K): Option<Entry<V>> {
    if ops == [] then None
    else
      var e := Latest(lifetime, ops[..|ops| - 1], key);
      match ops[|ops| - 1]
      case Put(k, value, now) => if k == key then Some(Entry(value, now, None, false)) else Tick(lifetime, e, now)
      case Drop(k) => if k == key then None else e
      case Expire(now) => Tick(lifetime, e, now)
  }

  /** Where the entry of one key can be, and how that bounds the expiry time. */
  ghost predicate Agrees<K(!new), V>(c: Cache<K, V>, key: K, e: Option<Entry<V>>, now: nat) {
    && c.expires <= now + c.lifetime
    && match e
       case None => key !in Keys(c)
       case Some(x) =>
         && x.at <= now
         && (x.late.Some? ==> key !in c.gen0 && x.at + c.lifetime <= x.late.value <= now)
         && (x.gone ==> x.late.Some? && key !in Keys(c))
         && (key in c.gen0 ==> c.gen0[key] == x.value && x.at <= c.expires <= x.at + c.lifetime)
         && (key in c.gen0 && c.lifetime > 0 ==> x.at < c.expires)
         && (key !in c.gen0 && key in c.gen1 ==>
               && c.gen1[key] == x.value
               && x.at + c.lifetime <= c.expires
               && (c.lifetime > 0 ==> x.at + c.lifetime < c.expires)
               && (x.late.Some? ==> c.expires <= x.late.value + c.lifetime))
         && (key !in Keys(c) ==> x.at + c.lifetime <= now && (c.lifetime > 0 ==> x.at + c.lifetime < now))
  }

  lemma SwapAgrees<K(!new), V>(c: Cache<K, V>, key: K, e: Option<Entry<V>>, before: nat, now: nat)
    requires Agrees(c, key, e, before) && before <= now
    ensures Agrees(Swapped(c, now), key, Tick(c.lifetime, e, now), now)
  {
  }

  lemma {:induction false} RunAgrees<K(!new), V>(lifetime: nat, start: nat, ops: seq<Op<K, V>>, key: K)
    requires Monotonic(start, ops)
    ensures Run(lifetime, start, ops).lifetime == lifetime
    ensures Agrees(Run(lifetime, start, ops), key, Latest(lifetime, ops, key), Clock(start, ops))
    decreases |ops|
  {
    if ops != [] {
      var (before, op) := (ops[..|ops| - 1], ops[|ops| - 1]);
      RunAgrees(lifetime, start, before, key);
      if !op.Drop? {
        SwapAgrees(Run(lifetime, start, before), key, Latest(lifetime, before, key), Clock(start, before), op.now);
      }
    }
  }

  /** Over every run: a lookup never returns anything but the latest value stored and not dropped. */
  lemma NeverStale<K(!new), V>(lifetime: nat, start: nat, ops: seq<Op<K, V>>, key: K)
    requires Monotonic(start, ops)
    ensures var r := Lookup(Run(lifetime, start, ops), key);
            r.Some? ==> Latest(lifetime, ops, key).Some? && r.value == Latest(lifetime, ops, key).value.value
  {
    RunAgrees(lifetime, start, ops, key);
  }

  /** Over every run: an entry is still there while no operation came more than a lifetime after it. */
  lemma Survives<K(!new), V>(lifetime: nat, start: nat, ops: seq<Op<K, V>>, key: K)
    requires Monotonic(start, ops) && lifetime > 0
    requires var e := Latest(lifetime, ops, key); e.Some? && Clock(start, ops) <= e.value.at + lifetime
    ensures Lookup(Run(lifetime, start, ops), key) == Some(Latest(lifetime, ops, key).value.value)
  {
    RunAgrees(lifetime, start, ops, key);
  }

  /** Over every run: two operations spaced by a lifetime, the first a lifetime after the entry, remove it. */
  lemma Expires<K(!new), V>(lifetime: nat, start: nat, ops: seq<Op<K, V>>, key: K)
    requires Monotonic(start, ops)
    requires var e := Latest(lifetime, ops, key); e.Some? && e.value.gone
    ensures Lookup(Run(lifetime, start, ops), key).None?
  {
    RunAgrees(lifetime, start, ops, key);
  }

  /** The lifetime has to be positive for `Survives`: with none, two operations at the very instant
      an entry was stored remove it. */
  lemma ZeroLifetimeLosesAtOnce(start: nat, now: nat, value: int)
    requires start <= now
    ensures var stored := Step(Fresh<int, int>(0, start), Put(1, value, now));
            && Lookup(stored, 1) == Some(value)
            && Lookup(Step(Step(stored, Expire(now)), Expire(now)), 1) == None
  {
    var stored := Step(Fresh<int, int>(0, start), Put(1, value, now));
    assert stored.expires == now;
  }
}
