/** Where keys lie in a table of `n` buckets, on plain sequences: the invariants that
    tie a bucket array to a finite map, and what one step of each operation does to them. */
module Layout {
  import opened Probing
  import opened BucketFlags

  /** No bucket looked at before step `t` is empty. */
  ghost predicate PathUsed(f: seq<Slot>, h: bv32, n: nat, t: nat)
    requires 0 < n <= |f|
  {
    forall u: nat :: u < t ==> !f[Probe(h, n, u)].isEmpty
  }

  /** A probe for `h` gets to bucket `i` without meeting an empty bucket. */
  ghost predicate Reaches(f: seq<Slot>, h: bv32, n: nat, i: nat)
    requires 0 < n <= |f|
  {
    exists t: nat :: t < n && Probe(h, n, t) == i && PathUsed(f, h, n, t)
  }

  /** `at` sends each key to the one live bucket that holds it, and misses no live bucket. */
  ghost predicate Indexed<K>(n: nat, f: seq<Slot>, keys: seq<K>, at: map<K, nat>)
    requires n <= |f| && n <= |keys|
  {
    && (forall i: nat :: i < n && f[i].Live() ==> keys[i] in at && at[keys[i]] == i)
    && (forall k :: k in at ==> at[k] < n && f[at[k]].Live() && keys[at[k]] == k)
  }

  ghost predicate Findable<K>(hash: K -> bv32, n: nat, f: seq<Slot>, at: map<K, nat>)
    requires 0 < n <= |f|
  {
    forall k :: k in at ==> Reaches(f, hash(k), n, at[k])
  }

  lemma ReachesKept(f: seq<Slot>, g: seq<Slot>, h: bv32, n: nat, i: nat)
    requires 0 < n <= |f| == |g| && Reaches(f, h, n, i)
    requires forall j: nat :: j < n && g[j].isEmpty ==> f[j].isEmpty
    ensures Reaches(g, h, n, i)
  {
    var t: nat :| t < n && Probe(h, n, t) == i && PathUsed(f, h, n, t);
    assert PathUsed(g, h, n, t);
  }

  /** Writing a new key into a free bucket its probe gets to. */
  lemma PlaceKey<K>(hash: K -> bv32, n: nat, f: seq<Slot>, keys: seq<K>, at: map<K, nat>, key: K, i: nat)
    requires 0 < n <= |f| && n <= |keys| && i < n
    requires Indexed(n, f, keys, at) && Findable(hash, n, f, at)
    requires key !in at && !f[i].Live() && Reaches(f, hash(key), n, i)
    ensures Indexed(n, f[i := LIVE], keys[i := key], at[key := i])
    ensures Findable(hash, n, f[i := LIVE], at[key := i])
    ensures |at[key := i]| == |at| + 1
  {
    forall k | k in at[key := i] ensures Reaches(f[i := LIVE], hash(k), n, at[key := i][k]) {
      ReachesKept(f, f[i := LIVE], hash(k), n, at[key := i][k]);
    }
  }

  /** Turning a live bucket into a tombstone. */
  lemma RemoveKey<K>(n: nat, f: seq<Slot>, keys: seq<K>, at: map<K, nat>, i: nat)
    requires n <= |f| && n <= |keys| && i < n
    requires Indexed(n, f, keys, at) && f[i].Live()
    ensures Indexed(n, f[i := DELETED], keys, at - {keys[i]})
    ensures |at - {keys[i]}| == |at| - 1
  {
    assert at == (at - {keys[i]})[keys[i] := i];
  }

  lemma RemoveKeyFindable<K>(hash: K -> bv32, n: nat, f: seq<Slot>, keys: seq<K>, at: map<K, nat>, i: nat)
    requires 0 < n <= |f| && n <= |keys| && i < n
    requires Indexed(n, f, keys, at) && f[i].Live() && Findable(hash, n, f, at)
    ensures Findable(hash, n, f[i := DELETED], at - {keys[i]})
  {
    forall k | k in at - {keys[i]} ensures Reaches(f[i := DELETED], hash(k), n, at[k]) {
      ReachesKept(f, f[i := DELETED], hash(k), n, at[k]);
    }
  }

  /** `key` is in none of the buckets looked at before step `t`. */
  ghost predicate Unseen<K>(f: seq<Slot>, keys: seq<K>, h: bv32, n: nat, key: K, t: nat)
    requires 0 < n <= |f| && n <= |keys|
  {
    forall u: nat :: u < t ==> !(f[Probe(h, n, u)].Live() && keys[Probe(h, n, u)] == key)
  }

  /** A probe that has met an empty bucket, or every bucket, without seeing the key proves it absent. */
  lemma ProbeMisses<K>(hash: K -> bv32, n: nat, f: seq<Slot>, keys: seq<K>, at: map<K, nat>, key: K, t: nat)
    requires 0 < n <= |f| && n <= |keys|
    requires Indexed(n, f, keys, at) && Findable(hash, n, f, at)
    requires Unseen(f, keys, hash(key), n, key, t)
    requires t >= n || f[Probe(hash(key), n, t)].isEmpty
    ensures key !in at
  {
    forall k | k in at ensures k != key {
      if hash(k) == hash(key) {
        var u: nat :| u < n && Probe(hash(k), n, u) == at[k] && PathUsed(f, hash(k), n, u);
        assert u < t;
      }
    }
  }

  // ----- where a new key goes

  /** `t` is the first step of a probe that meets an empty bucket, or `n` when none does. */
  ghost predicate Ends(f: seq<Slot>, h: bv32, n: nat, t: nat)
    requires 0 < n <= |f|
  {
    t <= n && PathUsed(f, h, n, t) && (t < n ==> f[Probe(h, n, t)].isEmpty)
  }

  lemma EndsOnce(f: seq<Slot>, h: bv32, n: nat, t: nat, u: nat)
    requires 0 < n <= |f| && Ends(f, h, n, t) && Ends(f, h, n, u)
    ensures t == u
  {
  }

  /** No tombstone is met from step `a` to before step `b`. */
  ghost predicate NoneDeleted(f: seq<Slot>, h: bv32, n: nat, a: nat, b: nat)
    requires 0 < n <= |f|
  {
    forall u: nat :: a <= u < b ==> !f[Probe(h, n, u)].isDel
  }

  /** `x` is the last tombstone met before step `t`. */
  ghost predicate LastTombstone(f: seq<Slot>, h: bv32, n: nat, t: nat, x: nat)
    requires 0 < n <= |f|
  {
    exists s: nat :: s < t && Probe(h, n, s) == x && f[Probe(h, n, s)].isDel && NoneDeleted(f, h, n, s + 1, t)
  }

  /** A new key goes to the last tombstone its probe meets before the first empty bucket, or, when it
      meets none, to that bucket. */
  ghost predicate PutsAt(f: seq<Slot>, h: bv32, n: nat, x: nat, reused: bool)
    requires 0 < n <= |f|
  {
    exists t: nat :: Ends(f, h, n, t) &&
      if reused then LastTombstone(f, h, n, t, x) else t < n && x == Probe(h, n, t) && NoneDeleted(f, h, n, 0, t)
  }

  /** A tombstone is reused exactly when one is met. */
  lemma ReusedIff(f: seq<Slot>, h: bv32, n: nat, x: nat, reused: bool, t: nat)
    requires 0 < n <= |f| && PutsAt(f, h, n, x, reused) && Ends(f, h, n, t)
    ensures reused <==> exists s: nat :: s < t && f[Probe(h, n, s)].isDel
  {
    hide Probe;
    var u: nat :| Ends(f, h, n, u) &&
      if reused then LastTombstone(f, h, n, u, x) else u < n && x == Probe(h, n, u) && NoneDeleted(f, h, n, 0, u);
    EndsOnce(f, h, n, t, u);
  }

  /** Behind a bucket just emptied of its key the same key meets that tombstone. */
  lemma OwnTombstone(f: seq<Slot>, h: bv32, n: nat, i: nat, x: nat, reused: bool)
    requires 0 < n <= |f| && i < n && Reaches(f, h, n, i) && PutsAt(f[i := DELETED], h, n, x, reused)
    ensures reused
  {
    hide Probe;
    var g := f[i := DELETED];
    var s: nat :| s < n && Probe(h, n, s) == i && PathUsed(f, h, n, s);
    var t: nat :| Ends(g, h, n, t) &&
      if reused then LastTombstone(g, h, n, t, x) else t < n && x == Probe(h, n, t) && NoneDeleted(g, h, n, 0, t);
    assert forall u: nat :: u <= s ==> !g[Probe(h, n, u)].isEmpty;
    assert s < t;
    ReusedIff(g, h, n, x, reused, t);
  }

  // ----- the in-place rehash

  /** One moment of the rehash. `keys` and `vals` carry the old layout (flags `f`, index `pend`) and
      the new one (flags `g`, index `placed`) at once; `held` is what the kick-out loop has in hand. */
  datatype Rehash<K, V> = Rehash(
    f: seq<Slot>, g: seq<Slot>, keys: seq<K>, vals: seq<V>,
    pend: map<K, nat>, placed: map<K, nat>, held: map<K, V>)
  {
    ghost predicate Shape(n: nat, m: nat) {
      && n <= |f| && 0 < m <= |g| && n <= |keys| && m <= |keys| == |vals|
      && (forall i: nat :: n <= i < |f| ==> !f[i].Live())
      && (forall i: nat :: i < |g| ==> !g[i].isDel)
      && (forall i: nat :: m <= i < |g| ==> g[i] == EMPTY)
      && (forall i: nat :: i < n && i < m && f[i].Live() ==> g[i].isEmpty)
    }

    ghost predicate Splits(m: map<K, V>) {
      && m.Keys == pend.Keys + placed.Keys + held.Keys
      && pend.Keys !! placed.Keys && pend.Keys !! held.Keys && placed.Keys !! held.Keys
      && (forall k :: k in held ==> held[k] == m[k])
    }

    ghost predicate Valued(m: map<K, V>) {
      && (forall k :: k in pend ==> k in m && pend[k] < |vals| && vals[pend[k]] == m[k])
      && (forall k :: k in placed ==> k in m && placed[k] < |vals| && vals[placed[k]] == m[k])
    }

    /** Nothing of `all` is lost or doubled, and what is placed can be found under the new mask. */
    ghost predicate Inv(hash: K -> bv32, n: nat, m: nat, all: map<K, V>) {
      && Shape(n, m)
      && Indexed(n, f, keys, pend)
      && Indexed(m, g, keys, placed) && Findable(hash, m, g, placed)
      && Splits(all) && Valued(all)
      && NumLive(f) == |pend|
      && NumUsed(g) == |placed|
    }

    /** Lift the element of old bucket `j` out. */
    ghost function Take(j: nat): Rehash<K, V>
      requires j < |f| && j < |keys| == |vals|
    {
      this.(f := f[j := DELETED], pend := pend - {keys[j]}, held := held[keys[j] := vals[j]])
    }

    /** Write a held element into new bucket `i`. */
    ghost function Settle(i: nat, key: K): Rehash<K, V>
      requires i < |g| && i < |keys| == |vals| && key in held
    {
      this.(g := g[i := LIVE], keys := keys[i := key], vals := vals[i := held[key]],
            placed := placed[key := i], held := held - {key})
    }
  }

  lemma TakeKeepsInv<K, V>(hash: K -> bv32, n: nat, m: nat, all: map<K, V>, r: Rehash<K, V>, j: nat)
    requires r.Inv(hash, n, m, all) && j < n && r.f[j].Live()
    ensures r.Take(j).Inv(hash, n, m, all)
    ensures NumLive(r.Take(j).f) == NumLive(r.f) - 1
  {
    RemoveKey(n, r.f, r.keys, r.pend, j);
    CountUpdate(r.f, j, DELETED);
    TakeSplits(n, m, all, r, j);
  }

  lemma TakeSplits<K, V>(n: nat, m: nat, all: map<K, V>, r: Rehash<K, V>, j: nat)
    requires r.Shape(n, m) && j < n && r.f[j].Live()
    requires Indexed(n, r.f, r.keys, r.pend) && r.Splits(all) && r.Valued(all)
    ensures r.Take(j).Shape(n, m) && r.Take(j).Splits(all) && r.Take(j).Valued(all)
  {
    var s := r.Take(j);
    assert s.pend.Keys == r.pend.Keys - {r.keys[j]};
    assert s.held.Keys == r.held.Keys + {r.keys[j]};
  }

  lemma SettleKeepsInv<K, V>(hash: K -> bv32, n: nat, m: nat, all: map<K, V>, r: Rehash<K, V>, i: nat, key: K)
    requires r.Inv(hash, n, m, all) && i < m && key in r.held
    requires r.g[i].isEmpty && Reaches(r.g, hash(key), m, i)
    requires i < n ==> !r.f[i].Live()
    ensures r.Settle(i, key).Inv(hash, n, m, all)
  {
    SettlePlaced(hash, n, m, r, i, key);
    SettleSplits(n, m, all, r, i, key);
    SettleValued(n, m, all, r, i, key);
  }

  lemma SettlePlaced<K, V>(hash: K -> bv32, n: nat, m: nat, r: Rehash<K, V>, i: nat, key: K)
    requires r.Shape(n, m) && i < m && key in r.held && key !in r.placed
    requires Indexed(m, r.g, r.keys, r.placed) && Findable(hash, m, r.g, r.placed)
    requires NumUsed(r.g) == |r.placed|
    requires r.g[i].isEmpty && Reaches(r.g, hash(key), m, i)
    ensures var s := r.Settle(i, key);
      && Indexed(m, s.g, s.keys, s.placed) && Findable(hash, m, s.g, s.placed)
      && NumUsed(s.g) == |s.placed|
  {
    PlaceKey(hash, m, r.g, r.keys, r.placed, key, i);
    CountUpdate(r.g, i, LIVE);
  }

  lemma SettleSplits<K, V>(n: nat, m: nat, all: map<K, V>, r: Rehash<K, V>, i: nat, key: K)
    requires r.Shape(n, m) && i < m && key in r.held && r.g[i].isEmpty
    requires i < n ==> !r.f[i].Live()
    requires r.Splits(all) && Indexed(n, r.f, r.keys, r.pend)
    ensures r.Settle(i, key).Shape(n, m) && r.Settle(i, key).Splits(all)
    ensures Indexed(n, r.f, r.Settle(i, key).keys, r.pend)
  {
    var s := r.Settle(i, key);
    assert s.held.Keys == r.held.Keys - {key};
    assert s.placed.Keys == r.placed.Keys + {key};
  }

  lemma SettleValued<K, V>(n: nat, m: nat, all: map<K, V>, r: Rehash<K, V>, i: nat, key: K)
    requires r.Shape(n, m) && i < m && key in r.held && r.g[i].isEmpty
    requires i < n ==> !r.f[i].Live()
    requires Indexed(n, r.f, r.keys, r.pend) && Indexed(m, r.g, r.keys, r.placed)
    requires r.Splits(all) && r.Valued(all)
    ensures r.Settle(i, key).Valued(all)
  {
    var s := r.Settle(i, key);
    forall k | k in s.placed ensures k in all && s.placed[k] < |s.vals| && s.vals[s.placed[k]] == all[k] {
      if k != key { assert r.g[r.placed[k]].Live(); }
    }
    forall k | k in s.pend ensures k in all && s.pend[k] < |s.vals| && s.vals[s.pend[k]] == all[k] {
      assert r.f[r.pend[k]].Live();
    }
  }

  /** While fewer than `m` elements exist, the new layout has an empty bucket for the held one. */
  lemma RoomLeft<K, V>(hash: K -> bv32, n: nat, m: nat, all: map<K, V>, r: Rehash<K, V>)
    requires r.Inv(hash, n, m, all) && |all| < m
    ensures NumUsed(r.g) < m
  {
    assert r.placed.Keys <= all.Keys;
    SubsetSize(r.placed.Keys, all.Keys);
    assert |r.placed| == |r.placed.Keys| && |all| == |all.Keys|;
  }

  lemma {:induction false} SubsetSize<T>(a: set<T>, b: set<T>)
    requires a <= b
    ensures |a| <= |b|
  {
    if a != {} {
      var x :| x in a;
      SubsetSize(a - {x}, b - {x});
    }
  }

  lemma NothingPending<K, V>(hash: K -> bv32, n: nat, m: nat, all: map<K, V>, r: Rehash<K, V>)
    requires r.Inv(hash, n, m, all)
    requires forall j: nat :: j < n ==> !r.f[j].Live()
    ensures r.pend == map[]
  {
    CountNone(r.f);
  }

  lemma {:induction false} LiveIsUsed(s: seq<Slot>)
    requires forall i: nat :: i < |s| ==> !s[i].isDel
    ensures NumLive(s) == NumUsed(s)
  {
    if s != [] { LiveIsUsed(s[..|s| - 1]); }
  }
}
