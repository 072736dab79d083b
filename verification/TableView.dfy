/** The table as a value: what its fields must satisfy, the finite map they stand for,
    and how each operation changes both. */
module TableView {
  import opened Probing
  import opened BucketFlags
  import opened Sizing
  import opened Layout

  /** The table's counters and arrays, and the index `at` of its keys. */
  datatype View<K, V> = View(
    n: nat, size: nat, occupied: nat, bound: nat,
    slots: seq<Slot>, keys: seq<K>, vals: seq<V>, at: map<K, nat>)
  {
    ghost predicate Padded() {
      && n <= |slots| == 16 * WordCount(n)
      && (forall i: nat :: n <= i < |slots| ==> slots[i] == EMPTY)
      && (forall i: nat :: i < |slots| ==> !(slots[i].isEmpty && slots[i].isDel))
    }

    ghost predicate Counted() {
      && NumLive(slots) == size == |at| && NumUsed(slots) == occupied <= n && bound == UpperBound(n)
      && (n < MAX_BUCKETS ==> occupied <= bound)
    }

    ghost predicate Laid(hash: K -> bv32) {
      && IsPow2(n) && 4 <= n <= MAX_BUCKETS
      && Padded() && n <= |keys|
      && Indexed(n, slots, keys, at) && Findable(hash, n, slots, at)
      && Counted()
    }

    ghost predicate Ok(hash: K -> bv32) {
      && |keys| == |vals| == n
      && if n == 0 then slots == [] && at == map[] && size == occupied == bound == 0 else Laid(hash)
    }

    ghost predicate InRange() {
      forall k :: k in at ==> at[k] < |vals|
    }

    /** The finite map the table stands for. */
    ghost function Map(): (m: map<K, V>)
      requires InRange()
      ensures m.Keys == at.Keys
    {
      map k | k in at :: vals[at[k]]
    }

    ghost function Clear(): View<K, V> {
      this.(slots := seq(|slots|, _ => EMPTY), size := 0, occupied := 0, at := map[])
    }

    ghost function Insert(x: nat, key: K): View<K, V>
      requires x < |slots| && x < |keys|
    {
      this.(slots := slots[x := LIVE], keys := keys[x := key], size := size + 1,
            occupied := occupied + Bit(slots[x].isEmpty), at := at[key := x])
    }

    ghost function Delete(x: nat): View<K, V>
      requires x < |slots| && x < |keys| && size > 0
    {
      this.(slots := slots[x := DELETED], size := size - 1, at := at - {keys[x]})
    }

    ghost function Store(x: nat, val: V): View<K, V>
      requires x < |vals|
    {
      this.(vals := vals[x := val])
    }
  }

  lemma OkInRange<K, V>(hash: K -> bv32, v: View<K, V>)
    requires v.Ok(hash)
    ensures v.InRange()
  {
  }

  lemma ClearOk<K, V>(hash: K -> bv32, v: View<K, V>)
    requires v.Ok(hash) && v.n > 0
    ensures v.Clear().Ok(hash) && v.Clear().InRange() && v.Clear().Map() == map[]
  {
    hide IsPow2, Reaches, NumLive, NumUsed, UpperBound, WordCount;
    CountNone(v.Clear().slots);
  }

  /** A new key goes to a bucket that is not live and that its probe gets to. */
  lemma InsertOk<K, V>(hash: K -> bv32, v: View<K, V>, x: nat, key: K)
    requires v.Ok(hash) && v.n > 0 && x < v.n && key !in v.at
    requires !v.slots[x].Live() && Reaches(v.slots, hash(key), v.n, x)
    requires v.occupied < v.bound || v.n == MAX_BUCKETS
    ensures v.Insert(x, key).Ok(hash)
  {
    hide Reaches, IsPow2, Indexed, Findable, NumLive, NumUsed, UpperBound, WordCount;
    PlaceKey(hash, v.n, v.slots, v.keys, v.at, key, x);
    CountUpdate(v.slots, x, LIVE);
    CountLive(v.slots[x := LIVE], v.n);
    assert v.Insert(x, key).Padded();
  }

  lemma InsertMap<K, V>(v: View<K, V>, x: nat, key: K)
    requires v.InRange() && x < |v.slots| && x < |v.keys| == |v.vals| && key !in v.at
    ensures v.Insert(x, key).InRange()
    ensures v.Insert(x, key).Map() == v.Map()[key := v.vals[x]]
  {
  }

  lemma DeleteOk<K, V>(hash: K -> bv32, v: View<K, V>, x: nat)
    requires v.Ok(hash) && x < v.n && v.slots[x].Live()
    ensures v.size > 0 && v.Delete(x).Ok(hash)
  {
    hide Reaches, IsPow2, Indexed, Findable, NumLive, NumUsed, UpperBound, WordCount;
    RemoveKey(v.n, v.slots, v.keys, v.at, x);
    RemoveKeyFindable(hash, v.n, v.slots, v.keys, v.at, x);
    CountUpdate(v.slots, x, DELETED);
    assert v.size > 0;
    assert v.Delete(x).Padded();
  }

  lemma DeleteMap<K, V>(v: View<K, V>, x: nat)
    requires v.InRange() && x < |v.slots| && x < |v.keys| && v.size > 0
    ensures v.Delete(x).InRange()
    ensures v.Delete(x).Map() == v.Map() - {v.keys[x]}
  {
  }

  lemma StoreOk<K, V>(hash: K -> bv32, v: View<K, V>, x: nat, val: V)
    requires v.Ok(hash) && x < v.n
    ensures v.Store(x, val).Ok(hash)
  {
    hide Indexed, Findable, IsPow2, NumLive, NumUsed;
  }

  lemma StoreMap<K, V>(v: View<K, V>, x: nat, val: V)
    requires v.InRange() && v.n <= |v.slots| && v.n <= |v.keys| && x < v.n <= |v.vals|
    requires Indexed(v.n, v.slots, v.keys, v.at) && v.slots[x].Live()
    ensures v.Store(x, val).InRange()
    ensures v.Store(x, val).Map() == v.Map()[v.keys[x] := val]
  {
    forall k | k in v.at && k != v.keys[x] ensures v.at[k] != x { assert v.keys[v.at[k]] == k; }
  }

  lemma FlagWords(n: nat)
    requires IsPow2(n) && n >= 4
    ensures n < 16 ==> n == 4 || n == 8
    ensures n >= 16 ==> 16 * WordCount(n) == n
    ensures n <= 16 * WordCount(n)
  {
    assert IsPow2(n / 2) && IsPow2(n / 2 / 2);
    if n > 4 { assert IsPow2(n / 2 / 2 / 2); }
    if n > 8 { assert IsPow2(n / 2 / 2 / 2 / 2); }
  }

  lemma BoundBelowSize(n: nat)
    requires n >= 4
    ensures UpperBound(n) < n
  {
  }
}
