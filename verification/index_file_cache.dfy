/**
 * The index's small cache of day buckets: two parallel lists, keys and the
 * collections read for them. An entry is (re)appended at the tail whenever
 * it is added, and when the cache is full the entry at the head goes.
 */
module IndexFileCache {
  import opened JavaStrings
  import opened DataFiles

  /** The number of entries the cache keeps. */
  const CACHE_SIZE: nat := 31

  /** A day bucket is keyed by its day (midnight, GMT, in milliseconds). */
  type K = int
  type V = seq<DataFile>

  datatype Cache = Cache(keys: seq<K>, data: seq<V>)

  function Empty(): Cache {
    Cache([], [])
  }

  /** The two lists stay the same length. */
  predicate Aligned(c: Cache) {
    |c.keys| == |c.data|
  }

  /** The entries as key/value pairs, head first. */
  function Pairs(c: Cache): (ps: seq<(K, V)>)
    requires Aligned(c)
    ensures |ps| == |c.keys|
    ensures forall i :: 0 <= i < |ps| ==> ps[i] == (c.keys[i], c.data[i])
  {
    seq(|c.keys|, i requires 0 <= i < |c.keys| => (c.keys[i], c.data[i]))
  }

  /** Reference definition: the pairs whose key is not `k`, in order. */
  function Without(ps: seq<(K, V)>, k: K): (r: seq<(K, V)>)
    ensures |r| <= |ps|
    ensures forall p :: p in r <==> p in ps && p.0 != k
  {
    if |ps| == 0 then []
    else (if ps[0].0 == k then [] else [ps[0]]) + Without(ps[1..], k)
  }

  /** Removing one pair with key `k` does not change what `Without` keeps. */
  lemma {:induction false} WithoutRemoveAt(ps: seq<(K, V)>, i: nat, k: K)
    requires i < |ps| && ps[i].0 == k
    ensures Without(ps[..i] + ps[i + 1..], k) == Without(ps, k)
    ensures |Without(ps, k)| < |ps|
  {
    if i == 0 {
      assert ps[..0] + ps[1..] == ps[1..];
    } else {
      var rest := ps[..i] + ps[i + 1..];
      assert rest[0] == ps[0];
      assert rest[1..] == ps[1..][..i - 1] + ps[1..][i..];
      WithoutRemoveAt(ps[1..], i - 1, k);
    }
  }

  lemma {:induction false} WithoutAbsent(ps: seq<(K, V)>, k: K)
    requires forall p :: p in ps ==> p.0 != k
    ensures Without(ps, k) == ps
  {
    if |ps| > 0 {
      assert ps[0] in ps;
      assert forall p :: p in ps[1..] ==> p in ps;
      WithoutAbsent(ps[1..], k);
      assert ps == [ps[0]] + ps[1..];
    }
  }

  /** `cacheHit`. */
  predicate Hit(c: Cache, k: K) {
    k in c.keys
  }

  /** `getCachedList`: the data of the first entry for `k`. */
  function Get(c: Cache, k: K): (v: V)
    requires Aligned(c) && Hit(c, k)
    ensures (k, v) in Pairs(c)
  {
    var i := IndexOf(c.keys, k);
    assert Pairs(c)[i] == (k, c.data[i]);
    c.data[i]
  }

  /** One round of the removal loop: drop the first entry for `k` from both lists. */
  function RemoveFirst(c: Cache, k: K): (r: Cache)
    requires Aligned(c) && Hit(c, k)
    ensures Aligned(r) && |r.keys| == |c.keys| - 1
    ensures Pairs(r) == Pairs(c)[..IndexOf(c.keys, k)] + Pairs(c)[IndexOf(c.keys, k) + 1..]
  {
    var i := IndexOf(c.keys, k);
    PairsDropAt(c, i);
    Cache(c.keys[..i] + c.keys[i + 1..], c.data[..i] + c.data[i + 1..])
  }

  /** Dropping one position from both lists drops that pair. */
  lemma PairsDropAt(c: Cache, i: nat)
    requires Aligned(c) && i < |c.keys|
    ensures var r := Cache(c.keys[..i] + c.keys[i + 1..], c.data[..i] + c.data[i + 1..]);
            Aligned(r) && Pairs(r) == Pairs(c)[..i] + Pairs(c)[i + 1..]
  {
    var r := Cache(c.keys[..i] + c.keys[i + 1..], c.data[..i] + c.data[i + 1..]);
    var ps := Pairs(c);
    var dropped := ps[..i] + ps[i + 1..];
    forall j | 0 <= j < |dropped| ensures Pairs(r)[j] == dropped[j] {
      if j < i {
        assert dropped[j] == ps[j];
      } else {
        assert dropped[j] == ps[j + 1];
      }
    }
  }

  /**
   * `cacheRemove`: repeat while `k` is a key. Every entry for `k` goes and
   * the others keep their order and data.
   */
  function Remove(c: Cache, k: K): (r: Cache)
    requires Aligned(c)
    ensures Aligned(r)
    ensures Pairs(r) == Without(Pairs(c), k)
    ensures !Hit(r, k)
    ensures !Hit(c, k) ==> r == c
    decreases |c.keys|
  {
    if Hit(c, k) then
      var c1 := RemoveFirst(c, k);
      WithoutRemoveAt(Pairs(c), IndexOf(c.keys, k), k);
      Remove(c1, k)
    else
      MissingKeyPairs(c, k);
      WithoutAbsent(Pairs(c), k);
      c
  }

  /** Without an entry for `k`, no pair has key `k`. */
  lemma MissingKeyPairs(c: Cache, k: K)
    requires Aligned(c) && !Hit(c, k)
    ensures forall p :: p in Pairs(c) ==> p.0 != k
  {
    forall p | p in Pairs(c) ensures p.0 != k {
      var i :| 0 <= i < |Pairs(c)| && Pairs(c)[i] == p;
      assert p.0 == c.keys[i];
    }
  }

  /** No key occurs twice. */
  predicate DistinctKeys(c: Cache) {
    forall i, j :: 0 <= i < j < |c.keys| ==> c.keys[i] != c.keys[j]
  }

  /** Drops the head entry when the cache is full. */
  function Evict(c: Cache): (r: Cache)
    requires Aligned(c)
    ensures Aligned(r)
    ensures |c.keys| >= CACHE_SIZE ==> Pairs(r) == Pairs(c)[1..]
    ensures |c.keys| < CACHE_SIZE ==> r == c
  {
    if |c.keys| >= CACHE_SIZE then Cache(c.keys[1..], c.data[1..]) else c
  }

  function Append(c: Cache, k: K, v: V): (r: Cache)
    requires Aligned(c)
    ensures Aligned(r) && Pairs(r) == Pairs(c) + [(k, v)]
  {
    Cache(c.keys + [k], c.data + [v])
  }

  /**
   * `cacheAdd`: drop every entry for `k`, then the head entry if the cache is
   * still full, then append `(k, v)` at the tail.
   */
  function Add(c: Cache, k: K, v: V): (r: Cache)
    requires Aligned(c)
    ensures Aligned(r) && |r.keys| > 0
    ensures r.keys[|r.keys| - 1] == k && r.data[|r.data| - 1] == v
    ensures forall i :: 0 <= i < |r.keys| - 1 ==> r.keys[i] != k
    ensures Get(r, k) == v
    ensures |c.keys| <= CACHE_SIZE ==> |r.keys| <= CACHE_SIZE
    ensures forall p :: p in Pairs(r) ==> p in Pairs(c) || p == (k, v)
    ensures DistinctKeys(c) ==> DistinctKeys(r)
    ensures Hit(c, k) && |c.keys| <= CACHE_SIZE ==> Pairs(r) == Without(Pairs(c), k) + [(k, v)]
    ensures !Hit(c, k) && |c.keys| == CACHE_SIZE ==> Pairs(r) == Pairs(c)[1..] + [(k, v)]
    ensures !Hit(c, k) && |c.keys| < CACHE_SIZE ==> Pairs(r) == Pairs(c) + [(k, v)]
  {
    AddKeyAtTail(c, k, v);
    AddEvicts(c, k, v);
    AddDistinct(c, k, v);
    Append(Evict(Remove(c, k)), k, v)
  }

  lemma AddKeyAtTail(c: Cache, k: K, v: V)
    requires Aligned(c)
    ensures var r := Append(Evict(Remove(c, k)), k, v);
            (forall i :: 0 <= i < |r.keys| - 1 ==> r.keys[i] != k) && IndexOf(r.keys, k) == |r.keys| - 1 &&
            forall p :: p in Pairs(r) ==> p in Pairs(c) || p == (k, v)
  {
    var c1 := Remove(c, k);
    var c2 := Evict(c1);
    var r := Append(c2, k, v);
    forall i | 0 <= i < |c1.keys| ensures c1.keys[i] != k {
      assert Pairs(c1)[i] in Without(Pairs(c), k);
    }
    assert forall i :: 0 <= i < |c2.keys| ==> c2.keys[i] != k by {
      if |c1.keys| >= CACHE_SIZE {
        forall i | 0 <= i < |c2.keys| ensures c2.keys[i] != k {
          assert Pairs(c2)[i] == Pairs(c1)[i + 1];
        }
      }
    }
    assert r.keys[..|r.keys| - 1] == c2.keys;
    forall p | p in Pairs(r) ensures p in Pairs(c) || p == (k, v) {
      if p != (k, v) {
        assert p in Pairs(c2);
        assert p in Pairs(c1);
      }
    }
  }

  lemma AddEvicts(c: Cache, k: K, v: V)
    requires Aligned(c)
    ensures var r := Append(Evict(Remove(c, k)), k, v);
            (|c.keys| <= CACHE_SIZE ==> |r.keys| <= CACHE_SIZE) &&
            (Hit(c, k) && |c.keys| <= CACHE_SIZE ==> Pairs(r) == Without(Pairs(c), k) + [(k, v)]) &&
            (!Hit(c, k) && |c.keys| == CACHE_SIZE ==> Pairs(r) == Pairs(c)[1..] + [(k, v)]) &&
            (!Hit(c, k) && |c.keys| < CACHE_SIZE ==> Pairs(r) == Pairs(c) + [(k, v)])
  {
    if Hit(c, k) {
      WithoutRemoveAt(Pairs(c), IndexOf(c.keys, k), k);
    }
  }

  lemma AddDistinct(c: Cache, k: K, v: V)
    requires Aligned(c)
    ensures DistinctKeys(c) ==> DistinctKeys(Append(Evict(Remove(c, k)), k, v))
  {
    if DistinctKeys(c) {
      DistinctAfterRemove(c, k);
      var c1 := Remove(c, k);
      EvictDistinct(c1);
      AppendDistinct(Evict(c1), k, v);
    }
  }

  /** Evicting keeps the keys distinct and adds none. */
  lemma EvictDistinct(c: Cache)
    requires Aligned(c) && DistinctKeys(c)
    ensures DistinctKeys(Evict(c)) && forall x :: x in Evict(c).keys ==> x in c.keys
  {
    if |c.keys| >= CACHE_SIZE {
      assert Evict(c).keys == c.keys[1..];
    }
  }

  /** Appending a new key keeps the keys distinct. */
  lemma AppendDistinct(c: Cache, k: K, v: V)
    requires Aligned(c) && DistinctKeys(c) && k !in c.keys
    ensures DistinctKeys(Append(c, k, v))
  {
    var ks := Append(c, k, v).keys;
    assert ks == c.keys + [k];
    forall i, j | 0 <= i < j < |ks| ensures ks[i] != ks[j] {
      assert ks[i] == c.keys[i];
      if j == |c.keys| {
        assert c.keys[i] in c.keys;
      }
    }
  }

  /** Dropping one position of a list without repeats leaves none, and loses that key. */
  lemma DistinctDropAt(ks: seq<K>, i: nat)
    requires i < |ks| && forall a, b :: 0 <= a < b < |ks| ==> ks[a] != ks[b]
    ensures var r := ks[..i] + ks[i + 1..];
            (forall a, b :: 0 <= a < b < |r| ==> r[a] != r[b]) && ks[i] !in r
  {
    var r := ks[..i] + ks[i + 1..];
    assert forall a :: 0 <= a < |r| ==> r[a] == ks[if a < i then a else a + 1];
  }

  lemma DistinctAfterRemove(c: Cache, k: K)
    requires Aligned(c) && DistinctKeys(c)
    ensures DistinctKeys(Remove(c, k))
  {
    if Hit(c, k) {
      var i := IndexOf(c.keys, k);
      var c1 := RemoveFirst(c, k);
      DistinctDropAt(c.keys, i);
      assert c1.keys == c.keys[..i] + c.keys[i + 1..];
      assert Remove(c, k) == Remove(c1, k);
    }
  }
}
