/** The in-memory TTL cache of src/utils/cache.js: a keyed store whose entries carry an absolute
    expiry time. The clock is a parameter `now` (milliseconds) of every operation that reads it. */
module Cache {
  import opened Wrappers
  import Text

  /** `this.defaultTTL`: five minutes, in milliseconds. */
  const DefaultTtl: int := 5 * 60 * 1000

  /** What `set` stores under a key. */
  datatype Entry<V> = Entry(value: V, expiresAt: int, createdAt: int)

  /** The expiry test that `get` and `cleanup` share: strictly past the expiry time, so an entry is
      still live at exactly `expiresAt`. */
  predicate IsExpired<V>(e: Entry<V>, now: int)
  {
    now > e.expiresAt
  }

  // ---------------------------------------------------------------------------------------------
  // The store as a value: what each operation does to the map. The class below is proved against
  // these functions, and the lemmas after them relate several operations.

  /** The value `get(key)` returns at time `now`, and the map it leaves behind. */
  function Lookup<V>(m: map<string, Entry<V>>, key: string, now: int): (res: (Option<V>, map<string, Entry<V>>))
    ensures key in m && !IsExpired(m[key], now) ==> res == (Some(m[key].value), m)
    ensures key !in m ==> res == (None, m)
    ensures key in m && IsExpired(m[key], now) ==> res == (None, m - {key})
    ensures res.0.Some? ==> key in m && res.1 == m
    ensures res.1.Keys <= m.Keys
  {
    if key !in m then (None, m)
    else if IsExpired(m[key], now) then (None, m - {key})
    else (Some(m[key].value), m)
  }

  /** The map after `set(key, value, ttl)` at time `now`. */
  function Store<V>(m: map<string, Entry<V>>, key: string, value: V, ttl: int, now: int): (r: map<string, Entry<V>>)
    ensures key in r && r[key].value == value
    ensures r.Keys == m.Keys + {key}
  {
    m[key := Entry(value, now + ttl, now)]
  }

  /** The time to live `set` uses: the given one, or the default when the argument is omitted. */
  function TtlOrDefault(ttl: Option<int>): (r: int)
    ensures ttl.None? ==> r == 5 * 60 * 1000
    ensures ttl.Some? ==> r == ttl.value
  {
    if ttl.Some? then ttl.value else DefaultTtl
  }

  /** The test `invalidateByPrefix` applies to each key: `key.startsWith(prefix)`. */
  predicate HasPrefix(key: string, prefix: string)
  {
    prefix <= key
  }

  /** The keys `invalidateByPrefix(prefix)` removes. */
  function PrefixKeys<V>(m: map<string, Entry<V>>, prefix: string): (ks: set<string>)
    ensures ks <= m.Keys
    ensures forall k :: k in ks <==> k in m && HasPrefix(k, prefix)
  {
    set k | k in m && HasPrefix(k, prefix)
  }

  /** The map after `invalidateByPrefix(prefix)`. */
  function WithoutPrefix<V>(m: map<string, Entry<V>>, prefix: string): (r: map<string, Entry<V>>)
    ensures r.Keys == m.Keys - PrefixKeys(m, prefix)
    ensures forall k :: k in r ==> r[k] == m[k]
  {
    map k | k in m && !HasPrefix(k, prefix) :: m[k]
  }

  /** The keys `cleanup()` removes at time `now`. */
  function ExpiredKeys<V>(m: map<string, Entry<V>>, now: int): (ks: set<string>)
    ensures ks <= m.Keys
    ensures forall k :: k in ks <==> k in m && IsExpired(m[k], now)
  {
    set k | k in m && IsExpired(m[k], now)
  }

  /** The map after `cleanup()` at time `now`. */
  function Swept<V>(m: map<string, Entry<V>>, now: int): (r: map<string, Entry<V>>)
    ensures r.Keys == m.Keys - ExpiredKeys(m, now)
    ensures forall k :: k in r ==> r[k] == m[k] && !IsExpired(r[k], now)
  {
    map k | k in m && !IsExpired(m[k], now) :: m[k]
  }

  /** Removing a set of keys that are all present shrinks the map by exactly their number. */
  lemma RemovedCount<V>(m: map<string, Entry<V>>, gone: set<string>)
    requires gone <= m.Keys
    ensures |m.Keys - gone| == |m| - |gone|
  {
    var rest := m.Keys - gone;
    assert m.Keys == rest + gone;
    assert rest * gone == {};
  }

  // ---------------------------------------------------------------------------------------------
  // Properties the cache promises its callers.

  /** A value stored with `set(k, v, ttl)` at time `t` is returned by `get(k)` at every time up to and
      including `t + ttl`, and reading it changes nothing; a TTL of 0 still hits in the same
      millisecond. */
  lemma SetThenGetHit<V>(m: map<string, Entry<V>>, k: string, v: V, ttl: int, t: int, later: int)
    requires later <= t + ttl
    ensures Lookup(Store(m, k, v, ttl, t), k, later) == (Some(v), Store(m, k, v, ttl, t))
  {
  }

  /** Once the expiry time has passed, `get` reports a miss and drops that key and nothing else. */
  lemma SetThenGetExpired<V>(m: map<string, Entry<V>>, k: string, v: V, ttl: int, t: int, later: int)
    requires later > t + ttl
    ensures Lookup(Store(m, k, v, ttl, t), k, later) == (None, m - {k})
  {
    assert Store(m, k, v, ttl, t) - {k} == m - {k};
  }

  /** A miss on an absent key leaves the map as it was; a miss on an expired key deletes that key only. */
  lemma GetMissFrame<V>(m: map<string, Entry<V>>, k: string, now: int)
    ensures k !in m ==> Lookup(m, k, now) == (None, m)
    ensures k in m && IsExpired(m[k], now) ==>
      Lookup(m, k, now).0 == None && Lookup(m, k, now).1.Keys == m.Keys - {k}
      && forall j :: j in m && j != k ==> Lookup(m, k, now).1[j] == m[j]
  {
  }

  /** `set` overwrites: a second `set` of the same key wins in both value and expiry, and every other
      key keeps its entry. */
  lemma SetOverwrites<V>(m: map<string, Entry<V>>, k: string, v1: V, ttl1: int, t1: int, v2: V, ttl2: int, t2: int)
    ensures Store(Store(m, k, v1, ttl1, t1), k, v2, ttl2, t2) == Store(m, k, v2, ttl2, t2)
    ensures forall j :: j in m && j != k ==> Store(m, k, v2, ttl2, t2)[j] == m[j]
  {
  }

  /** Invalidating a key twice reports a removal the first time only (when the key was there). */
  lemma InvalidateTwice<V>(m: map<string, Entry<V>>, k: string)
    requires k in m
    ensures k !in m - {k}
    ensures (m - {k}) - {k} == m - {k}
    ensures |m - {k}| == |m| - 1
  {
    RemovedCount(m, {k});
    assert (m - {k}).Keys == m.Keys - {k};
  }

  /** `invalidateByPrefix` removes exactly the keys with the prefix; the map shrinks by the count it
      returns. */
  lemma InvalidateByPrefixShrinks<V>(m: map<string, Entry<V>>, prefix: string)
    ensures |WithoutPrefix(m, prefix)| == |m| - |PrefixKeys(m, prefix)|
    ensures forall k :: k in m ==> (k in WithoutPrefix(m, prefix) <==> !HasPrefix(k, prefix))
  {
    RemovedCount(m, PrefixKeys(m, prefix));
  }

  /** `cleanup` removes exactly the expired entries, leaves the others unchanged, and the map shrinks
      by the count it returns. */
  lemma CleanupShrinks<V>(m: map<string, Entry<V>>, now: int)
    ensures |Swept(m, now)| == |m| - |ExpiredKeys(m, now)|
    ensures forall k :: k in m && !IsExpired(m[k], now) ==> k in Swept(m, now) && Swept(m, now)[k] == m[k]
  {
    RemovedCount(m, ExpiredKeys(m, now));
  }

  /** Lazy and active expiry agree: after a sweep, `get` answers exactly as it would have without it,
      and then finds nothing left to delete. */
  lemma SweepAgreesWithGet<V>(m: map<string, Entry<V>>, k: string, now: int)
    ensures Lookup(Swept(m, now), k, now).0 == Lookup(m, k, now).0
    ensures Lookup(Swept(m, now), k, now).1 == Swept(m, now)
  {
  }

  // ---------------------------------------------------------------------------------------------
  // generateKey

  /** A query parameter: its name and the JSON text of its value. */
  type Param = (string, string)

  /** The parameters form an object: no name occurs twice. */
  predicate DistinctNames(ps: seq<Param>)
  {
    forall i, j :: 0 <= i < j < |ps| ==> ps[i].0 != ps[j].0
  }

  /** Strict lexicographic order on strings by code point. `Array.prototype.sort` without a comparator
      compares UTF-16 code units, which orders the same way except when a character above U+FFFF meets
      one in U+E000-U+FFFF. */
  predicate Below(a: string, b: string)
    decreases |a|
  {
    if |a| == 0 then |b| > 0
    else |b| > 0 && (a[0] < b[0] || (a[0] == b[0] && Below(a[1..], b[1..])))
  }

  lemma {:induction false} BelowIrreflexive(a: string)
    ensures !Below(a, a)
    decreases |a|
  {
    if |a| > 0 {
      BelowIrreflexive(a[1..]);
    }
  }

  lemma {:induction false} BelowAsymmetric(a: string, b: string)
    requires Below(a, b)
    ensures !Below(b, a)
    decreases |a|
  {
    if |a| > 0 && a[0] == b[0] {
      BelowAsymmetric(a[1..], b[1..]);
    }
  }

  lemma {:induction false} BelowTotal(a: string, b: string)
    ensures a == b || Below(a, b) || Below(b, a)
    decreases |a|
  {
    if |a| > 0 && |b| > 0 && a[0] == b[0] {
      BelowTotal(a[1..], b[1..]);
      if a[1..] == b[1..] {
        assert a == [a[0]] + a[1..] && b == [b[0]] + b[1..];
      }
    }
  }

  lemma {:induction false} BelowTransitive(a: string, b: string, c: string)
    requires Below(a, b) && Below(b, c)
    ensures Below(a, c)
    decreases |a|
  {
    if |a| > 0 && a[0] == b[0] && b[0] == c[0] {
      BelowTransitive(a[1..], b[1..], c[1..]);
    }
  }

  /** Names in non-decreasing order. */
  predicate SortedByName(ps: seq<Param>)
  {
    forall i, j :: 0 <= i < j < |ps| ==> !Below(ps[j].0, ps[i].0)
  }

  /** Puts `p` before the first parameter whose name does not sort below `p`'s. */
  function InsertByName(p: Param, sorted: seq<Param>): (r: seq<Param>)
    ensures multiset(r) == multiset(sorted) + multiset{p}
    decreases |sorted|
  {
    if |sorted| == 0 then [p]
    else if !Below(sorted[0].0, p.0) then [p] + sorted
    else
      assert sorted == [sorted[0]] + sorted[1..];
      [sorted[0]] + InsertByName(p, sorted[1..])
  }

  lemma {:induction false} InsertByNameSorted(p: Param, sorted: seq<Param>)
    requires SortedByName(sorted)
    ensures SortedByName(InsertByName(p, sorted))
    decreases |sorted|
  {
    if |sorted| > 0 {
      if !Below(sorted[0].0, p.0) {
        InsertFrontSorted(p, sorted);
      } else {
        InsertByNameSorted(p, sorted[1..]);
        InsertBehindHead(p, sorted);
      }
    }
  }

  /** A parameter whose name is not above the first one's can go in front. */
  lemma InsertFrontSorted(p: Param, sorted: seq<Param>)
    requires SortedByName(sorted) && |sorted| > 0 && !Below(sorted[0].0, p.0)
    ensures SortedByName([p] + sorted)
  {
    var r := [p] + sorted;
    forall i, j | 0 <= i < j < |r| ensures !Below(r[j].0, r[i].0) {
      if i == 0 {
        if j > 1 && Below(r[j].0, p.0) {
          BelowTotal(sorted[0].0, r[j].0);
          if Below(sorted[0].0, r[j].0) { BelowTransitive(sorted[0].0, r[j].0, p.0); }
        }
      }
    }
  }

  /** A parameter whose name is above the first one's goes somewhere behind it. */
  lemma InsertBehindHead(p: Param, sorted: seq<Param>)
    requires SortedByName(sorted) && |sorted| > 0 && Below(sorted[0].0, p.0)
    requires SortedByName(InsertByName(p, sorted[1..]))
    ensures SortedByName([sorted[0]] + InsertByName(p, sorted[1..]))
  {
    var s0 := sorted[0];
    var rest := InsertByName(p, sorted[1..]);
    forall j | 0 <= j < |rest| ensures !Below(rest[j].0, s0.0) {
      assert rest[j] in multiset(rest);
      if rest[j] == p {
        BelowAsymmetric(s0.0, p.0);
      } else {
        assert rest[j] in multiset(sorted[1..]);
        var k :| 0 <= k < |sorted[1..]| && sorted[1..][k] == rest[j];
        assert sorted[k + 1] == rest[j];
      }
    }
  }

  /** The parameters in name order (`Object.keys(params).sort()` then rebuilding the object). */
  function SortByName(ps: seq<Param>): (r: seq<Param>)
    ensures multiset(r) == multiset(ps)
    decreases |ps|
  {
    if |ps| == 0 then []
    else
      assert ps == [ps[0]] + ps[1..];
      InsertByName(ps[0], SortByName(ps[1..]))
  }

  lemma {:induction false} SortByNameSorted(ps: seq<Param>)
    ensures SortedByName(SortByName(ps))
    decreases |ps|
  {
    if |ps| > 0 {
      SortByNameSorted(ps[1..]);
      InsertByNameSorted(ps[0], SortByName(ps[1..]));
    }
  }

  /** Two non-empty name-sorted lists of the same parameters, in which a name determines its
      parameter, start with the same parameter. */
  lemma SortedSameHead(a: seq<Param>, b: seq<Param>)
    requires |a| > 0 && |b| > 0
    requires SortedByName(a) && SortedByName(b) && multiset(a) == multiset(b)
    requires forall x, y :: x in a && y in a && x.0 == y.0 ==> x == y
    ensures a[0] == b[0]
  {
    assert a[0] in multiset(b) && b[0] in multiset(a);
    var k :| 0 <= k < |b| && b[k] == a[0];
    var m :| 0 <= m < |a| && a[m] == b[0];
    BelowIrreflexive(a[0].0);
    BelowIrreflexive(b[0].0);
    assert !Below(a[0].0, b[0].0) by {
      if k > 0 { assert !Below(b[k].0, b[0].0); }
    }
    assert !Below(b[0].0, a[0].0) by {
      if m > 0 { assert !Below(a[m].0, a[0].0); }
    }
    BelowTotal(a[0].0, b[0].0);
    assert b[0] in a;
  }

  /** Dropping the same first element from two lists with the same elements leaves lists with the
      same elements. */
  lemma SameTails(a: seq<Param>, b: seq<Param>)
    requires |a| > 0 && |b| > 0 && a[0] == b[0] && multiset(a) == multiset(b)
    ensures multiset(a[1..]) == multiset(b[1..])
  {
    assert a == [a[0]] + a[1..] && b == [b[0]] + b[1..];
    assert multiset(a[1..]) == multiset(a) - multiset{a[0]};
    assert multiset(b[1..]) == multiset(b) - multiset{b[0]};
  }

  /** Dropping the first parameter keeps a list sorted. */
  lemma SortedTail(a: seq<Param>)
    requires |a| > 0 && SortedByName(a)
    ensures SortedByName(a[1..])
  {
    forall i, j | 0 <= i < j < |a[1..]|
      ensures !Below(a[1..][j].0, a[1..][i].0)
    {
      assert a[1..][i] == a[i + 1] && a[1..][j] == a[j + 1];
    }
  }

  /** Two name-sorted lists of the same parameters, in which a name determines its parameter, are the
      same list. */
  lemma {:induction false} SortedUnique(a: seq<Param>, b: seq<Param>)
    requires SortedByName(a) && SortedByName(b) && multiset(a) == multiset(b)
    requires forall x, y :: x in a && y in a && x.0 == y.0 ==> x == y
    ensures a == b
    decreases |a|
  {
    if |a| == 0 {
      assert |multiset(b)| == 0;
    } else {
      SortedUniqueStep(a, b);
      SortedUnique(a[1..], b[1..]);
      assert a == [a[0]] + a[1..] && b == [b[0]] + b[1..];
    }
  }

  /** The heads agree, and the tails again meet the conditions of `SortedUnique`. */
  lemma SortedUniqueStep(a: seq<Param>, b: seq<Param>)
    requires |a| > 0
    requires SortedByName(a) && SortedByName(b) && multiset(a) == multiset(b)
    requires forall x, y :: x in a && y in a && x.0 == y.0 ==> x == y
    ensures |b| > 0 && a[0] == b[0]
    ensures SortedByName(a[1..]) && SortedByName(b[1..]) && multiset(a[1..]) == multiset(b[1..])
    ensures forall x, y :: x in a[1..] && y in a[1..] && x.0 == y.0 ==> x == y
  {
    assert |multiset(b)| == |a|;
    SortedSameHead(a, b);
    SameTails(a, b);
    SortedTail(a);
    SortedTail(b);
    assert forall x :: x in a[1..] ==> x in a;
  }

  /** The JSON text of the sorted parameter object (escaping of names is not modelled). */
  function Serialize(ps: seq<Param>): string
  {
    "{" + Text.Join(SerializeMembers(ps), ",") + "}"
  }

  function SerializeMembers(ps: seq<Param>): (r: seq<string>)
    ensures |r| == |ps|
  {
    if |ps| == 0 then [] else ["\"" + ps[0].0 + "\":" + ps[0].1] + SerializeMembers(ps[1..])
  }

  /** `generateKey(prefix, params)`: the prefix, a colon, and the parameters serialized in name order. */
  function GenerateKey(prefix: string, params: seq<Param>): (key: string)
    ensures prefix + ":" <= key
  {
    var key := prefix + ":" + Serialize(SortByName(params));
    assert key[..|prefix| + 1] == prefix + ":";
    key
  }

  /** The same parameter set, supplied in any order, gives the same key. */
  lemma GenerateKeyOrderIndependent(prefix: string, a: seq<Param>, b: seq<Param>)
    requires DistinctNames(a) && multiset(a) == multiset(b)
    ensures GenerateKey(prefix, a) == GenerateKey(prefix, b)
  {
    SortByNameSorted(a);
    SortByNameSorted(b);
    var sa, sb := SortByName(a), SortByName(b);
    forall x, y | x in sa && y in sa && x.0 == y.0 ensures x == y {
      assert x in multiset(a) && y in multiset(a);
      var i :| 0 <= i < |a| && a[i] == x;
      var j :| 0 <= j < |a| && a[j] == y;
      assert i == j;
    }
    SortedUnique(sa, sb);
  }

  /** A key built from `prefix` is among those `invalidateByPrefix(prefix)` removes. */
  lemma GeneratedKeyInvalidatedByPrefix<V>(m: map<string, Entry<V>>, prefix: string, params: seq<Param>)
    ensures GenerateKey(prefix, params) !in WithoutPrefix(m, prefix)
    ensures GenerateKey(prefix, params) in m ==> GenerateKey(prefix, params) in PrefixKeys(m, prefix)
  {
    var key := GenerateKey(prefix, params);
    assert prefix <= prefix + ":";
  }

  // ---------------------------------------------------------------------------------------------

  /** One line of `getStats().entries`. */
  datatype EntryStats = EntryStats(key: string, expiresIn: int, age: int)

  /** `getStats()`. */
  datatype Stats = Stats(size: nat, entries: seq<EntryStats>)

  /** `CacheManager`: the store and its operations. */
  class CacheManager<V> {
    var cache: map<string, Entry<V>>

    /** A new manager holds no entries. */
    constructor()
      ensures cache == map[]
    {
      cache := map[];
    }

    /** `get(key)`: the stored value if the entry is live at `now`; otherwise nothing, and an expired
        entry is deleted. A stored JavaScript `null` and a miss both read as `null` in the source; here
        they differ (`Some(null-like value)` versus `None`). */
    method Get(key: string, now: int) returns (r: Option<V>)
      modifies this
      ensures (r, cache) == Lookup(old(cache), key, now)
    {
      if key !in cache {
        return None;
      }
      var cached := cache[key];
      if now > cached.expiresAt {
        cache := cache - {key};
        return None;
      }
      r := Some(cached.value);
    }

    /** `set(key, value, ttl)`: stores the value until `now + ttl`, overwriting any entry for the key. */
    method Set(key: string, value: V, ttl: Option<int>, now: int)
      modifies this
      ensures cache == Store(old(cache), key, value, TtlOrDefault(ttl), now)
    {
      var t := if ttl.Some? then ttl.value else DefaultTtl;
      var expiresAt := now + t;
      cache := cache[key := Entry(value, expiresAt, now)];
    }

    /** `invalidate(key)`: removes the key; reports whether it was there. */
    method Invalidate(key: string) returns (deleted: bool)
      modifies this
      ensures deleted <==> key in old(cache)
      ensures cache == old(cache) - {key}
    {
      deleted := key in cache;
      cache := cache - {key};
    }

    /** `invalidateByPrefix(prefix)`: walks the keys, deleting and counting those with the prefix. */
    method InvalidateByPrefix(prefix: string) returns (count: nat)
      modifies this
      ensures cache == WithoutPrefix(old(cache), prefix)
      ensures count == |PrefixKeys(old(cache), prefix)|
    {
      count := 0;
      var pending := cache.Keys;
      ghost var removed: set<string> := {};
      while pending != {}
        invariant pending <= old(cache).Keys
        invariant removed == set k | k in old(cache) && k !in pending && HasPrefix(k, prefix)
        invariant cache == map k | k in old(cache) && (k in pending || !HasPrefix(k, prefix)) :: old(cache)[k]
        invariant count == |removed|
        decreases pending
      {
        var key :| key in pending;
        if HasPrefix(key, prefix) {
          cache := cache - {key};
          count := count + 1;
          removed := removed + {key};
        }
        pending := pending - {key};
      }
      assert removed == PrefixKeys(old(cache), prefix);
    }

    /** `clear()`: drops every entry, expired or not. */
    method Clear()
      modifies this
      ensures cache == map[]
    {
      cache := map[];
    }

    /** `cleanup()` at time `now`: walks the entries, deleting and counting the expired ones. */
    method Cleanup(now: int) returns (cleaned: nat)
      modifies this
      ensures cache == Swept(old(cache), now)
      ensures cleaned == |ExpiredKeys(old(cache), now)|
    {
      cleaned := 0;
      var pending := cache.Keys;
      ghost var removed: set<string> := {};
      while pending != {}
        invariant pending <= old(cache).Keys
        invariant removed == set k | k in old(cache) && k !in pending && IsExpired(old(cache)[k], now)
        invariant cache == map k | k in old(cache) && (k in pending || !IsExpired(old(cache)[k], now)) :: old(cache)[k]
        invariant cleaned == |removed|
        decreases pending
      {
        var key :| key in pending;
        var cached := cache[key];
        if now > cached.expiresAt {
          cache := cache - {key};
          cleaned := cleaned + 1;
          removed := removed + {key};
        }
        pending := pending - {key};
      }
      assert removed == ExpiredKeys(old(cache), now);
    }

    /** `getStats()` at time `now`: the number of entries and, for each key once, how long until it
        expires and how old it is. Changes nothing. */
    method GetStats(now: int) returns (stats: Stats)
      ensures stats.size == |cache| == |stats.entries|
      ensures forall i :: 0 <= i < |stats.entries| ==>
        var e := stats.entries[i];
        e.key in cache && e.expiresIn == cache[e.key].expiresAt - now && e.age == now - cache[e.key].createdAt
      ensures forall i, j :: 0 <= i < j < |stats.entries| ==> stats.entries[i].key != stats.entries[j].key
      ensures forall k :: k in cache ==> exists i :: 0 <= i < |stats.entries| && stats.entries[i].key == k
    {
      var entries: seq<EntryStats> := [];
      var pending := cache.Keys;
      while pending != {}
        invariant pending <= cache.Keys
        invariant |entries| + |pending| == |cache|
        invariant forall i :: 0 <= i < |entries| ==>
          var e := entries[i];
          e.key in cache && e.key !in pending
          && e.expiresIn == cache[e.key].expiresAt - now && e.age == now - cache[e.key].createdAt
        invariant forall i, j :: 0 <= i < j < |entries| ==> entries[i].key != entries[j].key
        invariant forall k :: k in cache && k !in pending ==> exists i :: 0 <= i < |entries| && entries[i].key == k
        decreases pending
      {
        var key :| key in pending;
        var cached := cache[key];
        ghost var before := entries;
        entries := entries + [EntryStats(key, cached.expiresAt - now, now - cached.createdAt)];
        assert entries[|entries| - 1].key == key;
        assert forall i :: 0 <= i < |before| ==> entries[i] == before[i];
        pending := pending - {key};
      }
      stats := Stats(|cache|, entries);
    }
  }
}
