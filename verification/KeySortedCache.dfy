/** The bounded sorted cache of media/src/key_sorted_cache.rs: it keeps the largest keys. */
module KeySortedCaches {
  lemma {:induction false} SmallestExists(keys: set<nat>)
    requires keys != {}
    ensures exists k :: IsSmallest(keys, k)
    decreases |keys|
  {
    var k :| k in keys;
    var rest := keys - {k};
    assert keys == rest + {k};
    if rest == {} {
      assert IsSmallest(keys, k);
    } else {
      SmallestExists(rest);
      var m :| IsSmallest(rest, m);
      assert IsSmallest(keys, if k < m then k else m);
    }
  }

  predicate IsSmallest(keys: set<nat>, k: nat) {
    k in keys && forall x :: x in keys ==> k <= x
  }

  ghost function Smallest(keys: set<nat>): (k: nat)
    requires keys != {}
    ensures IsSmallest(keys, k)
  {
    SmallestExists(keys);
    var k :| IsSmallest(keys, k);
    k
  }

  ghost function Inserted<V>(m: map<nat, V>, limit: nat, key: nat, value: V): map<nat, V> {
    var grown := m[key := value];
    if |grown| > limit then grown - {Smallest(grown.Keys)} else grown
  }

  class KeySortedCache<V> {
    const limit: nat
    var valueByKey: map<nat, V>

    constructor (limit: nat)
      ensures this.limit == limit && valueByKey == map[]
    {
      this.limit, valueByKey := limit, map[];
    }

    method Insert(key: nat, value: V)
      modifies this
      ensures valueByKey == Inserted(old(valueByKey), limit, key, value)
    {
      valueByKey := valueByKey[key := value];
      if |valueByKey| > limit {
        ghost var keys := valueByKey.Keys;
        assert key in keys;
        SmallestExists(keys);
        var smallest :| smallest in valueByKey && forall x :: x in valueByKey ==> smallest <= x;
        assert smallest == Smallest(keys);
        valueByKey := valueByKey - {smallest};
      }
    }

    method Remove(key: nat)
      modifies this
      ensures valueByKey == old(valueByKey) - {key}
    {
      valueByKey := valueByKey - {key};
    }
  }

  // ----- inserting a run of keys -----

  ghost function InsertedRange<V>(m: map<nat, V>, limit: nat, first: nat, end: nat, value: V): map<nat, V>
    requires first <= end
    decreases end
  {
    if first == end then m else Inserted(InsertedRange(m, limit, first, end - 1, value), limit, end - 1, value)
  }

  lemma {:induction false} BoundedSetSize(keys: set<nat>, low: nat, high: nat)
    requires low <= high && forall k :: k in keys ==> low <= k < high
    ensures |keys| <= high - low
    decreases high - low
  {
    if low < high {
      BoundedSetSize(keys - {high - 1}, low, high - 1);
    } else {
      assert keys == {};
    }
  }

  lemma {:induction false} FullRange(keys: set<nat>, low: nat, high: nat)
    requires low <= high && |keys| <= high - low && forall k :: low <= k < high ==> k in keys
    ensures forall k :: k in keys ==> low <= k < high
    decreases high - low
  {
    if low < high {
      FullRange(keys - {high - 1}, low, high - 1);
      assert forall k :: k in keys ==> k == high - 1 || k in keys - {high - 1};
    }
  }

  /** Keys that the last `limit` numbers below `end` cannot push out. */
  predicate InWindow(key: nat, limit: nat, end: nat) { key + limit >= end }

  /** `r` holds, within the window below `end`, exactly the keys of `m` and those from `first` on. */
  ghost predicate KeepsWindow<V>(m: map<nat, V>, r: map<nat, V>, limit: nat, first: nat, end: nat, value: V) {
    && |r| <= limit
    && (forall k :: k in r ==> (k in m && r[k] == m[k]) || (first <= k < end && r[k] == value))
    && (forall k :: k in m && InWindow(k, limit, end) ==> k in r)
    && (forall k :: first <= k < end && InWindow(k, limit, end) ==> k in r)
  }

  lemma EvictedIsOutside(keys: set<nat>, limit: nat, key: nat)
    requires |keys| > limit && forall k :: k in keys ==> k <= key
    ensures !InWindow(Smallest(keys), limit, key + 1)
  {
    BoundedSetSize(keys, Smallest(keys), key + 1);
  }

  lemma SizeAfterInsert<V>(m: map<nat, V>, limit: nat, key: nat, value: V)
    requires |m| <= limit
    ensures |Inserted(m, limit, key, value)| <= limit
  {
    var grown := m[key := value];
    assert grown.Keys == m.Keys + {key};
    assert |grown.Keys| <= |m.Keys| + 1;
    if |grown| > limit {
      var least := Smallest(grown.Keys);
      assert (grown - {least}).Keys == grown.Keys - {least};
    }
  }

  /** Inserting the next larger key can only cost a key outside the window. */
  lemma InsertKeepsWindow<V>(m: map<nat, V>, limit: nat, key: nat, value: V)
    requires |m| <= limit && forall k :: k in m ==> k < key
    ensures KeepsWindow(m, Inserted(m, limit, key, value), limit, key, key + 1, value)
  {
    hide Smallest, InWindow, KeepsWindow;
    var grown := m[key := value];
    SizeAfterInsert(m, limit, key, value);
    if |grown| > limit {
      EvictedIsOutside(grown.Keys, limit, key);
      GrownKeepsWindow(m, limit, key, value, {Smallest(grown.Keys)});
    } else {
      GrownKeepsWindow(m, limit, key, value, {});
      assert grown - {} == grown;
    }
  }

  lemma GrownKeepsWindow<V>(m: map<nat, V>, limit: nat, key: nat, value: V, gone: set<nat>)
    requires |m[key := value] - gone| <= limit && forall k :: k in gone ==> !InWindow(k, limit, key + 1)
    ensures KeepsWindow(m, m[key := value] - gone, limit, key, key + 1, value)
  {
    hide InWindow;
  }

  /** One more key on top of a range. */
  lemma WindowGrows<V>(m: map<nat, V>, mid: map<nat, V>, limit: nat, first: nat, end: nat, value: V)
    requires first <= end && KeepsWindow(m, mid, limit, first, end, value) && forall k :: k in m ==> k < first
    ensures KeepsWindow(m, Inserted(mid, limit, end, value), limit, first, end + 1, value)
  {
    hide Inserted;
    assert forall k :: k in mid ==> k < end;
    InsertKeepsWindow(mid, limit, end, value);
  }

  lemma NothingInserted<V>(m: map<nat, V>, limit: nat, first: nat, value: V)
    requires |m| <= limit
    ensures KeepsWindow(m, m, limit, first, first, value)
  {
  }

  /** After inserting the keys from `first` up to `end`, the cache holds, within the window, exactly
      the old keys and the new ones. */
  lemma {:induction false} RangeKeepsWindow<V>(m: map<nat, V>, limit: nat, first: nat, end: nat, value: V)
    requires first <= end && |m| <= limit && forall k :: k in m ==> k < first
    ensures KeepsWindow(m, InsertedRange(m, limit, first, end, value), limit, first, end, value)
    decreases end
  {
    hide Inserted, KeepsWindow;
    if first == end {
      NothingInserted(m, limit, first, value);
    } else {
      RangeKeepsWindow(m, limit, first, end - 1, value);
      WindowGrows(m, InsertedRange(m, limit, first, end - 1, value), limit, first, end - 1, value);
    }
  }

  /** The last `limit` numbers below `end`. */
  ghost function LastKeys(limit: nat, end: nat): set<nat> {
    set k: nat | k < end && InWindow(k, limit, end)
  }

  ghost function LastEntries<V>(limit: nat, end: nat, value: V): map<nat, V> {
    map k | k in LastKeys(limit, end) :: value
  }

  /** A run at least as long as the limit leaves exactly its last keys, whatever was in the cache. */
  lemma LongRange<V>(m: map<nat, V>, limit: nat, first: nat, end: nat, value: V)
    requires first <= end && end - first >= limit && |m| <= limit && forall k :: k in m ==> k < first
    ensures InsertedRange(m, limit, first, end, value) == LastEntries(limit, end, value)
  {
    hide InsertedRange;
    var r := InsertedRange(m, limit, first, end, value);
    RangeKeepsWindow(m, limit, first, end, value);
    FullRange(r.Keys, end - limit, end);
    assert r.Keys == LastKeys(limit, end);
  }

  /** The shortcut: for a run longer than the limit, starting afresh with its last keys leaves the
      same cache as inserting every key. */
  lemma ShortcutAgrees<V>(m: map<nat, V>, limit: nat, first: nat, end: nat, value: V)
    requires first <= end && end - first > limit && |m| <= limit && forall k :: k in m ==> k < first
    ensures InsertedRange(map[], limit, end - limit, end, value) == InsertedRange(m, limit, first, end, value)
  {
    hide InsertedRange, LastEntries;
    LongRange(m, limit, first, end, value);
    LongRange(map[], limit, end - limit, end, value);
  }
}
