/** The open-addressing hash table with tombstones and in-place rehash. */
module KHash {
  import opened Probing
  import opened BucketFlags
  import opened Sizing
  import opened Layout
  import opened TableView

  /** `realloc`: the common prefix is kept, the rest is whatever the allocator left there. */
  method Realloc<T(0)>(a: array<T>, n: nat) returns (b: array<T>)
    ensures fresh(b) && b.Length == n
    ensures n >= a.Length ==> b[..a.Length] == a[..]
    ensures n <= a.Length ==> b[..] == a[..n]
  {
    b := new T[n];
    forall i | 0 <= i < n && i < a.Length {
      b[i] := a[i];
    }
  }

  /** The key is there, or one of the 2^31 buckets a table can have is free. */
  ghost predicate Room<K, V>(m: map<K, V>, key: K) { key in m || |m| < MAX_BUCKETS }

  class Table<K(==,0), V(0)> {
    const hash: K -> bv32
    var nBuckets: nat
    var size: nat
    var nOccupied: nat
    var upperBound: nat
    var flags: Flags
    var keys: array<K>
    var vals: array<V>
    /** The bucket of every key. */
    ghost var at: map<K, nat>

    ghost function Repr(): set<object>
      reads this
    {
      {this, flags, flags.words, keys, vals}
    }

    ghost function AsView(): View<K, V>
      reads this, flags, keys, vals
    {
      View(nBuckets, size, nOccupied, upperBound, flags.slots, keys[..], vals[..], at)
    }

    ghost predicate Separate()
      reads this
    {
      && keys as object != vals as object
      && flags.words as object != keys as object
      && flags.words as object != vals as object
    }

    ghost predicate Valid()
      reads this, Repr()
    {
      Separate() && flags.Valid() && AsView().Ok(hash)
    }

    /** The finite map the table stands for. */
    ghost function Contents(): map<K, V>
      requires Valid()
      reads this, Repr()
    {
      OkInRange(hash, AsView());
      AsView().Map()
    }

    /** `kh_init` */
    constructor (hash: K -> bv32)
      ensures Valid() && fresh(Repr()) && Contents() == map[]
      ensures this.hash == hash && nBuckets == size == 0
    {
      this.hash := hash;
      nBuckets, size, nOccupied, upperBound := 0, 0, 0, 0;
      var f := new Flags.None();
      flags := f;
      keys := new K[0];
      vals := new V[0];
      at := map[];
    }

    /** `kh_clear` */
    method Clear()
      requires Valid()
      modifies this, flags, flags.words
      ensures Valid() && Repr() == old(Repr()) && Contents() == map[]
      ensures nBuckets == old(nBuckets) && size == nOccupied == 0
    {
      hide View.Ok, View.Map, View.InRange, Flags.Valid, Separate;
      if nBuckets > 0 {
        ClearOk(hash, AsView());
        Wipe();
      } else {
        EmptyTable(hash, AsView());
      }
    }

    method Wipe()
      requires Separate() && flags.Valid()
      modifies this, flags, flags.words
      ensures Separate() && flags.Valid() && Repr() == old(Repr())
      ensures AsView() == old(AsView().Clear())
    {
      flags.Reset();
      size, nOccupied := 0, 0;
      at := map[];
    }

    /** `kh_get`: the key's bucket, or `nBuckets` for an absent key. */
    method Get(key: K) returns (x: nat)
      requires Valid()
      ensures x <= nBuckets
      ensures key in Contents() ==> x < nBuckets && key in at && at[key] == x
      ensures key !in Contents() ==> x == nBuckets
    {
      if nBuckets == 0 {
        return 0;
      }
      ghost var t;
      x, t := GetWalk(key, AsView());
      if x < nBuckets { Hits(hash, AsView(), key, x); } else { Misses(hash, AsView(), key, t); }
    }

    /** The walk of `kh_get` over a table that has buckets. */
    method GetWalk(key: K, ghost v: View<K, V>) returns (x: nat, ghost t: nat)
      requires flags.Valid() && 0 < nBuckets <= |v.slots| && nBuckets <= |v.keys|
      requires IsPow2(nBuckets) && v.slots == flags.slots && keys.Length == nBuckets && v.keys == keys[..]
      ensures Unseen(v.slots, v.keys, hash(key), nBuckets, key, t)
      ensures x < nBuckets ==> v.slots[x].Live() && v.keys[x] == key
      ensures x >= nBuckets ==> x == nBuckets && (t >= nBuckets || v.slots[Probe(hash(key), nBuckets, t)].isEmpty)
    {
      hide *;
      var h := hash(key);
      var i, inc := Start(h, nBuckets), Stride(h, nBuckets);
      var last := i;
      t := 0;
      StartProbe(h, nBuckets);
      UnseenStart(v.slots, v.keys, h, nBuckets, key);
      while !flags.IsEmpty(i) && (flags.IsDel(i) || keys[i] != key)
        invariant t < nBuckets && i == Probe(h, nBuckets, t)
        invariant Unseen(v.slots, v.keys, h, nBuckets, key, t)
        decreases nBuckets - t
      {
        UnseenStep(v.slots, v.keys, h, nBuckets, key, t);
        ProbeStep(h, nBuckets, t);
        i := (i + inc) % nBuckets;
        t := t + 1;
        if i == last {
          FullCircle(h, nBuckets, t);
          return nBuckets, t;
        }
        NotFullCircle(h, nBuckets, t);
      }
      LiveIff(v.slots[i]);
      x := if flags.IsEither(i) then nBuckets else i;
    }

    predicate HasFlags(x: nat)
      requires Valid()
      reads this, Repr()
      ensures HasFlags(x) <==> x < |flags.slots|
    {
      x < 16 * flags.words.Length
    }

    /** `kh_exist`, wherever there are flags: false for the padding behind the last bucket. */
    predicate Exists(x: nat)
      requires Valid() && x < |flags.slots|
      reads this, Repr()
      ensures Exists(x) == AsView().slots[x].Live()
      ensures x >= nBuckets ==> !Exists(x)
    {
      !flags.IsEither(x)
    }

    /** `kh_del` */
    method Del(x: nat)
      requires Valid() && x <= nBuckets
      modifies this, flags, flags.words
      ensures Valid() && Repr() == old(Repr()) && nBuckets == old(nBuckets)
      ensures x < nBuckets && old(Exists(x)) ==>
        Contents() == old(Contents() - {keys[x]}) && size == old(size) - 1
      ensures x < nBuckets && old(Exists(x)) ==> old(size) > 0 && AsView() == old(AsView().Delete(x))
      ensures !(x < nBuckets && old(Exists(x))) ==> AsView() == old(AsView())
    {
      if x != nBuckets && !flags.IsEither(x) {
        DeleteOk(hash, AsView(), x);
        DeleteMap(AsView(), x);
        Bury(x);
      }
    }

    method Bury(x: nat)
      requires Separate() && flags.Valid() && x < |flags.slots| && x < keys.Length && size > 0
      requires flags.slots[x] == LIVE
      modifies this, flags, flags.words
      ensures Separate() && flags.Valid() && Repr() == old(Repr())
      ensures AsView() == old(AsView().Delete(x))
    {
      flags.SetDelTrue(x);
      size := size - 1;
      at := at - {keys[x]};
    }

    /** `kh_value(h, x) = val` */
    method SetValue(x: nat, val: V)
      requires Valid() && x < nBuckets && Exists(x)
      modifies vals
      ensures Valid() && Repr() == old(Repr()) && AsView() == old(AsView()).(vals := vals[..])
      ensures Contents() == old(Contents())[keys[x] := val]
    {
      hide View.Ok, View.Map, View.InRange, Flags.Valid, Separate;
      StoreFacts(hash, AsView(), x);
      StoreOk(hash, AsView(), x, val);
      StoreMap(AsView(), x, val);
      Write(x, val);
    }

    method Write(x: nat, val: V)
      requires Separate() && flags.Valid() && x < vals.Length
      modifies vals
      ensures Separate() && flags.Valid()
      ensures AsView() == old(AsView().Store(x, val))
    {
      vals[x] := val;
    }

    // ----- kh_resize

    /** `kh_resize`: refuses a size too small for what the table holds; otherwise re-lays
        every element out in place, dropping all tombstones. */
    method Resize(x: bv32)
      requires Valid()
      modifies this, Repr()
      ensures Valid() && fresh(Repr() - old(Repr()))
      ensures Contents() == old(Contents()) && size == old(size)
      ensures size >= UpperBound(NewBuckets(x)) ==> AsView() == old(AsView())
      ensures size < UpperBound(NewBuckets(x)) ==>
        nBuckets == NewBuckets(x) && nOccupied == size && upperBound == UpperBound(nBuckets) && DELETED !in flags.slots
    {
      var m := NewBuckets(x);
      NewBucketsPow2(x);
      if size >= UpperBound(m) {
        return;
      }
      Relayout(m, AsView());
      NoTombstone(hash, AsView());
    }

    method Relayout(m: nat, ghost v: View<K, V>)
      requires Valid() && v == AsView() && IsPow2(m) && 4 <= m <= MAX_BUCKETS && size < UpperBound(m)
      modifies this, Repr()
      ensures Valid() && Renewed()
      ensures Contents() == old(Contents())
      ensures nBuckets == m && size == old(size) && nOccupied == size && upperBound == UpperBound(nBuckets)
    {
      hide View.Ok, Rehash.Inv, IsPow2, NumLive, NumUsed, WordCount, UpperBound, Flags.Valid;
      ghost var all := Contents();
      OkShape(hash, v);
      BoundBelowSize(m);
      var newFlags := new Flags.AllEmpty(m);
      FlagWords(m);
      if nBuckets < m {
        Reallocate(m);
      }
      RehashBegins(hash, v, Moment(newFlags, at, map[], map[]), m, all);
      ghost var placed := RehashInto(m, newFlags, all);
      Finish(m, newFlags, all, placed);
    }

    twostate predicate Renewed()
      reads this
    {
      && (flags == old(flags) || fresh(flags)) && (flags.words == old(flags.words) || fresh(flags.words))
      && (keys == old(keys) || fresh(keys)) && (vals == old(vals) || fresh(vals))
    }

    method Finish(m: nat, newFlags: Flags, ghost all: map<K, V>, ghost placed: map<K, nat>)
      requires Apart(newFlags) && IsPow2(m) && 4 <= m <= MAX_BUCKETS && size == |all| < UpperBound(m)
      requires |newFlags.slots| == 16 * WordCount(m) && nBuckets <= keys.Length
      requires keys.Length == if nBuckets < m then m else nBuckets
      requires Moment(newFlags, map[], placed, map[]).Inv(hash, nBuckets, m, all)
      modifies this
      ensures Valid() && Contents() == all && nBuckets == m && size == nOccupied == old(size)
      ensures upperBound == UpperBound(nBuckets)
      ensures flags == newFlags && (keys == old(keys) || fresh(keys)) && (vals == old(vals) || fresh(vals))
    {
      hide View.Ok, Rehash.Inv, IsPow2, NumLive, NumUsed, WordCount, UpperBound, Flags.Valid;
      ghost var r := Moment(newFlags, map[], placed, map[]);
      ghost var n := nBuckets;
      if nBuckets > m {
        Reallocate(m);
      }
      flags := newFlags;
      nBuckets := m;
      nOccupied := size;
      upperBound := UpperBound(nBuckets);
      at := placed;
      assert keys[..] == r.keys[..m] && vals[..] == r.vals[..m];
      RehashEnds(hash, n, m, all, r, AsView());
    }

    method Reallocate(m: nat)
      modifies this`keys, this`vals
      ensures fresh(keys) && fresh(vals) && keys as object != vals as object
      ensures keys.Length == vals.Length == m
      ensures m >= old(keys.Length) ==> keys[..old(keys.Length)] == old(keys[..])
      ensures m >= old(vals.Length) ==> vals[..old(vals.Length)] == old(vals[..])
      ensures m <= old(keys.Length) ==> keys[..] == old(keys[..m])
      ensures m <= old(vals.Length) ==> vals[..] == old(vals[..m])
    {
      keys := Realloc(keys, m);
      vals := Realloc(vals, m);
    }

    /** What the two layouts look like at one moment of the rehash. */
    ghost function Moment(nf: Flags, pend: map<K, nat>, placed: map<K, nat>, held: map<K, V>): Rehash<K, V>
      reads this, flags, nf, keys, vals
    {
      Rehash(flags.slots, nf.slots, keys[..], vals[..], pend, placed, held)
    }

    ghost predicate Apart(nf: Flags)
      reads this, flags, flags.words, nf, nf.words
    {
      && Separate() && flags.Valid() && nf.Valid()
      && nf != flags && nf.words != flags.words
      && nf.words as object != keys as object && nf.words as object != vals as object
      && keys.Length == vals.Length
    }

    method RehashInto(m: nat, nf: Flags, ghost all: map<K, V>) returns (ghost placed: map<K, nat>)
      requires Apart(nf) && IsPow2(m) && |all| < m
      requires Moment(nf, at, map[], map[]).Inv(hash, nBuckets, m, all)
      modifies flags, flags.words, nf, nf.words, keys, vals
      ensures Apart(nf) && |nf.slots| == old(|nf.slots|)
      ensures Moment(nf, map[], placed, map[]).Inv(hash, nBuckets, m, all)
    {
      hide Rehash.Inv, Reaches, NumLive, NumUsed, IsPow2, Flags.Valid, Flags.IsEither;
      ghost var pend := at;
      placed := map[];
      InvFacts(hash, nBuckets, m, all, Moment(nf, pend, placed, map[]));
      for j := 0 to nBuckets
        invariant Apart(nf) && |nf.slots| == old(|nf.slots|) && |flags.slots| == old(|flags.slots|)
        invariant Moment(nf, pend, placed, map[]).Inv(hash, nBuckets, m, all)
        invariant forall i: nat :: i < j ==> !flags.slots[i].Live()
      {
        if !flags.IsEither(j) {
          pend, placed := MoveFrom(j, m, nf, all, pend, placed);
        }
      }
      NothingPending(hash, nBuckets, m, all, Moment(nf, pend, placed, map[]));
    }

    /** Lift the element of old bucket `j` out and run the kick-out loop for it. */
    method MoveFrom(j: nat, m: nat, nf: Flags, ghost all: map<K, V>, ghost pend0: map<K, nat>, ghost placed0: map<K, nat>)
      returns (ghost pend: map<K, nat>, ghost placed: map<K, nat>)
      requires Apart(nf) && IsPow2(m) && |all| < m && j < nBuckets <= |flags.slots| && flags.slots[j] == LIVE
      requires Moment(nf, pend0, placed0, map[]).Inv(hash, nBuckets, m, all)
      modifies flags, flags.words, nf, nf.words, keys, vals
      ensures Apart(nf) && |nf.slots| == old(|nf.slots|) && |flags.slots| == old(|flags.slots|)
      ensures Moment(nf, pend, placed, map[]).Inv(hash, nBuckets, m, all)
      ensures forall i: nat :: i < |flags.slots| && flags.slots[i].Live() ==> old(flags.slots[i].Live()) && i != j
    {
      hide Rehash.Inv, Reaches, NumLive, NumUsed, IsPow2, Flags.Valid, Flags.IsEither;
      ghost var r := Moment(nf, pend0, placed0, map[]);
      InvFacts(hash, nBuckets, m, all, r);
      TakeKeepsInv(hash, nBuckets, m, all, r, j);
      var key, val := keys[j], vals[j];
      flags.SetDelTrue(j);
      assert Moment(nf, pend0 - {key}, placed0, map[key := val]) == r.Take(j);
      pend, placed := KickOut(key, val, m, nf, all, pend0 - {key}, placed0);
    }

    /** The kick-out loop: put the held element where its probe leads in the new layout; an
        old element still living there becomes the held one. */
    method KickOut(key0: K, val0: V, m: nat, nf: Flags, ghost all: map<K, V>, ghost pend0: map<K, nat>, ghost placed0: map<K, nat>)
      returns (ghost pend: map<K, nat>, ghost placed: map<K, nat>)
      requires Apart(nf) && IsPow2(m) && |all| < m
      requires Moment(nf, pend0, placed0, map[key0 := val0]).Inv(hash, nBuckets, m, all)
      modifies flags, flags.words, nf, nf.words, keys, vals
      ensures Apart(nf) && |nf.slots| == old(|nf.slots|) && |flags.slots| == old(|flags.slots|)
      ensures Moment(nf, pend, placed, map[]).Inv(hash, nBuckets, m, all)
      ensures forall i: nat :: i < |flags.slots| && flags.slots[i].Live() ==> old(flags.slots[i].Live())
    {
      hide Rehash.Inv, Reaches, NumLive, NumUsed, IsPow2, Flags.Valid, Flags.IsEither;
      var key, val := key0, val0;
      pend, placed := pend0, placed0;
      while true
        invariant Apart(nf) && |nf.slots| == old(|nf.slots|) && |flags.slots| == old(|flags.slots|)
        invariant Moment(nf, pend, placed, map[key := val]).Inv(hash, nBuckets, m, all)
        invariant forall i: nat :: i < |flags.slots| && flags.slots[i].Live() ==> old(flags.slots[i].Live())
        decreases NumLive(flags.slots)
      {
        ghost var r := Moment(nf, pend, placed, map[key := val]);
        InvFacts(hash, nBuckets, m, all, r);
        RoomLeft(hash, nBuckets, m, all, r);
        var i := FreeBucket(key, m, nf);
        if i < nBuckets && !flags.IsEither(i) {
          KickKeepsInv(hash, nBuckets, m, all, r, i, key, val);
          pend, placed := pend - {keys[i]}, placed[key := i];
          key, val := Evict(i, key, val, nf);
        } else {
          SettleKeepsInv(hash, nBuckets, m, all, r, i, key);
          placed := placed[key := i];
          Place(i, key, val, nf);
          assert map[key := val] - {key} == map[];
          break;
        }
      }
    }

    /** The inner probe: the first bucket still empty in the new layout. */
    method FreeBucket(key: K, m: nat, nf: Flags) returns (i: nat)
      requires nf.Valid() && IsPow2(m) && m <= |nf.slots| && NumUsed(nf.slots) < m
      ensures i < m && nf.slots[i].isEmpty && Reaches(nf.slots, hash(key), m, i)
    {
      hide Probe, Start, Stride, IsPow2, Flags.Valid;
      var k := hash(key);
      i := Start(k, m);
      var inc := Stride(k, m);
      ghost var empty := EmptyBucket(nf.slots, m);
      ghost var e := ProbeCovers(k, m, empty);
      ghost var t := 0;
      StartProbe(k, m);
      while !nf.IsEmpty(i)
        invariant t <= e && i == Probe(k, m, t) && PathUsed(nf.slots, k, m, t)
        decreases e - t
      {
        ProbeStep(k, m, t);
        i := (i + inc) % m;
        t := t + 1;
      }
    }

    method Evict(i: nat, key: K, val: V, nf: Flags) returns (key': K, val': V)
      requires Apart(nf) && i < |flags.slots| && i < |nf.slots| && i < keys.Length
      requires flags.slots[i] == LIVE && nf.slots[i] == EMPTY
      modifies flags, flags.words, nf, nf.words, keys, vals
      ensures Apart(nf) && key' == old(keys[i]) && val' == old(vals[i])
      ensures flags.slots == old(flags.slots)[i := DELETED] && nf.slots == old(nf.slots)[i := LIVE]
      ensures keys[..] == old(keys[..])[i := key] && vals[..] == old(vals[..])[i := val]
    {
      nf.SetEmptyFalse(i);
      key', val' := keys[i], vals[i];
      keys[i] := key;
      vals[i] := val;
      flags.SetDelTrue(i);
    }

    method Place(i: nat, key: K, val: V, nf: Flags)
      requires Apart(nf) && i < |nf.slots| && i < keys.Length && nf.slots[i] == EMPTY
      modifies nf, nf.words, keys, vals
      ensures Apart(nf) && flags.slots == old(flags.slots) && nf.slots == old(nf.slots)[i := LIVE]
      ensures keys[..] == old(keys[..])[i := key] && vals[..] == old(vals[..])[i := val]
    {
      nf.SetEmptyFalse(i);
      keys[i] := key;
      vals[i] := val;
    }

    // ----- kh_put

    /** The key is there, or not all of the 2^31 buckets a table can have hold one. */
    ghost predicate CanTake(key: K)
      reads this
    {
      key in at || size < MAX_BUCKETS
    }

    /** The table is used up and `kh_resize` can help. */
    predicate Crowded()
      reads this
    {
      nOccupied >= upperBound && (nBuckets < MAX_BUCKETS || nBuckets > 2 * size)
    }

    /** `kh_put`. `ret` is 0 for a key already there, 1 when a never-used bucket was taken, 2 when a
        tombstone was. The value of a new key is whatever its bucket held before. When all of 2^31
        buckets are live, an absent key is reported present in the bucket of another one. */
    method Put(key: K) returns (x: nat, ret: int)
      requires Valid()
      modifies this, Repr()
      ensures Valid() && fresh(Repr() - old(Repr()))
      ensures x < nBuckets && Exists(x)
      ensures old(CanTake(key)) ==> keys[x] == key && key in at && at[key] == x
      ensures ret == 0 <==> key in old(Contents()) || !old(CanTake(key))
      ensures ret == 0 ==> Contents() == old(Contents()) && size == old(size)
      ensures ret != 0 ==> Contents() == old(Contents())[key := vals[x]] && size == old(size) + 1
      ensures ret == 0 || ret == 1 || ret == 2
      ensures ret == 1 ==> nOccupied == 1 + if old(Crowded()) then old(size) else old(nOccupied)
      ensures ret == 2 ==> !old(Crowded()) && nOccupied == old(nOccupied)
      ensures !old(CanTake(key)) ==> keys[x] != key
      ensures 0 < nBuckets <= |flags.slots|
      ensures ret != 0 && !old(Crowded()) ==>
        && nBuckets == old(nBuckets) <= |old(flags.slots)|
        && PutsAt(old(flags.slots), hash(key), nBuckets, x, ret == 2)
      ensures ret != 0 && old(Crowded()) ==> ret == 1 && FirstUnused(flags.slots, hash(key), nBuckets, x)
    {
      hide View.Ok, Flags.Valid, Separate, PutsAt, FirstUnused;
      if nOccupied >= upperBound {
        MakeRoom();
      }
      ghost var f := flags.slots;
      HasRoom(hash, AsView());
      x, ret := Claim(key);
      if ret != 0 && old(Crowded()) {
        NoneReused(f, hash(key), nBuckets, x);
        FirstUnusedFound(f, hash(key), nBuckets, x);
      }
    }

    /** `kh_value(h, kh_put(h, key, &ret)) = val`, the way both clients of the table store a pair. */
    method PutValue(key: K, val: V)
      requires Valid()
      modifies this, Repr()
      ensures Valid() && fresh(Repr() - old(Repr()))
      ensures old(CanTake(key)) ==> Contents() == old(Contents())[key := val]
      ensures !old(CanTake(key)) ==> exists k :: k in old(Contents()) && k != key && Contents() == old(Contents())[k := val]
    {
      hide View.Ok, Flags.Valid, Separate;
      var k, ret := Put(key);
      FoundKey(this, k);
      ghost var other := keys[k];
      SetValue(k, val);
      if !old(CanTake(key)) { assert other in old(Contents()) && other != key && Contents() == old(Contents())[other := val]; }
    }

    /** Rehash at the same size when at least half the buckets are not live, else double, up to 2^31. */
    method MakeRoom()
      requires Valid() && nOccupied >= upperBound
      modifies this, Repr()
      ensures Valid() && fresh(Repr() - old(Repr()))
      ensures Contents() == old(Contents()) && size == old(size)
      ensures old(Crowded()) ==> size == nOccupied < upperBound
      ensures old(Crowded()) ==>
        nBuckets == if old(nBuckets == 0) then 4 else if old(nBuckets) > 2 * size then old(nBuckets) else 2 * old(nBuckets)
      ensures old(Crowded()) ==> DELETED !in flags.slots
      ensures !old(Crowded()) ==> nBuckets == MAX_BUCKETS && AsView() == old(AsView())
    {
      hide View.Ok, Flags.Valid, Separate, NewBuckets, UpperBound, Request, IsPow2;
      RoomToGrow(hash, AsView());
      RequestMeets(nBuckets, size);
      Resize(Request(nBuckets, size));
    }

    /** The part of `kh_put` after the table has been given room, if it could be. */
    method Claim(key: K) returns (x: nat, ret: int)
      requires Valid() && (nOccupied < upperBound || nBuckets == MAX_BUCKETS)
      modifies this, flags, flags.words, keys
      ensures Valid() && Repr() == old(Repr()) && nBuckets == old(nBuckets)
      ensures x < nBuckets && Exists(x)
      ensures old(CanTake(key)) ==> keys[x] == key && key in at && at[key] == x
      ensures ret == 0 <==> key in old(Contents()) || !old(CanTake(key))
      ensures ret == 0 ==> Contents() == old(Contents()) && size == old(size)
      ensures ret != 0 ==> Contents() == old(Contents())[key := vals[x]] && size == old(size) + 1
      ensures ret == 0 || ret == 1 || ret == 2
      ensures ret == 1 ==> nOccupied == old(nOccupied) + 1
      ensures ret == 2 ==> nOccupied == old(nOccupied) > old(size)
      ensures !old(CanTake(key)) ==> keys[x] != key
      ensures 0 < nBuckets <= |old(flags.slots)| && flags.slots == old(flags.slots)[x := LIVE]
      ensures ret != 0 ==> PutsAt(old(flags.slots), hash(key), nBuckets, x, ret == 2)
    {
      hide View.Ok, IsPow2, Reaches, Flags.Valid;
      ghost var v := AsView();
      HasRoom(hash, v);
      x := PutWalk(key, v);
      if v.slots[x].Live() {
        if v.keys[x] == key { Hits(hash, v, key, x); }
      } else {
        if v.slots[x] == DELETED { TombstoneCounted(hash, v, x); }
        InsertOk(hash, v, x, key);
        InsertMap(v, x, key);
      }
      ret := Fill(x, key);
    }

    /** The walk of `kh_put`: the key's bucket, or the last tombstone on its path, or the empty
        bucket that ends the path; the first bucket when it comes round and all are live. */
    method PutWalk(key: K, ghost v: View<K, V>) returns (x: nat)
      requires flags.Valid() && 0 < nBuckets <= |v.slots| && v.Ok(hash) && v.n == nBuckets
      requires IsPow2(nBuckets) && v.slots == flags.slots && keys.Length == nBuckets && v.keys == keys[..]
      ensures x < nBuckets
      ensures v.slots[x].Live() && v.keys[x] != key ==> key !in v.at && v.size == v.n
      ensures !v.slots[x].Live() ==> key !in v.at && v.size < v.n && Reaches(v.slots, hash(key), nBuckets, x)
      ensures !v.slots[x].Live() ==> PutsAt(v.slots, hash(key), nBuckets, x, v.slots[x].isDel)
    {
      hide *;
      var h := hash(key);
      var site: nat, i: nat := nBuckets, Start(h, nBuckets);
      x := nBuckets;
      StartProbe(h, nBuckets);
      WalkStarts(v.slots, v.keys, h, nBuckets, key);
      if flags.IsEmpty(i) {
        x := i;
        WalkEnds(hash, v, key, 0, nBuckets);
      } else {
        var inc, last := Stride(h, nBuckets), i;
        ghost var t: nat := 0;
        while !flags.IsEmpty(i) && (flags.IsDel(i) || keys[i] != key)
          invariant t < nBuckets && i == Probe(h, nBuckets, t) && x == nBuckets
          invariant Walked(v.slots, v.keys, h, nBuckets, key, t, site)
          decreases nBuckets - t
        {
          WalkStep(v.slots, v.keys, h, nBuckets, key, t, site);
          if flags.IsDel(i) {
            site := i;
          }
          ProbeStep(h, nBuckets, t);
          i := (i + inc) % nBuckets;
          t := t + 1;
          if i == last {
            FullCircle(h, nBuckets, t);
            WalkCircles(hash, v, key, site);
            x := site;
            break;
          }
          NotFullCircle(h, nBuckets, t);
        }
        if x == nBuckets {
          LiveIff(v.slots[i]);
          if t < nBuckets { WalkEnds(hash, v, key, t, site); }
          if flags.IsEmpty(i) && site != nBuckets {
            x := site;
          } else {
            x := i;
          }
        }
      }
    }

    /** Write the key into the bucket chosen, unless it is already there. */
    method Fill(x: nat, key: K) returns (ret: int)
      requires Separate() && flags.Valid() && x < |flags.slots| && x < keys.Length
      requires flags.slots[x] == LIVE || flags.slots[x] == EMPTY || flags.slots[x] == DELETED
      modifies this, flags, flags.words, keys
      ensures Separate() && flags.Valid() && Repr() == old(Repr())
      ensures AsView() == if old(flags.slots[x]) == LIVE then old(AsView()) else old(AsView().Insert(x, key))
      ensures ret == if old(flags.slots[x]) == EMPTY then 1 else if old(flags.slots[x]) == DELETED then 2 else 0
    {
      if flags.IsEmpty(x) {
        keys[x] := key;
        flags.SetBothFalse(x);
        size, nOccupied := size + 1, nOccupied + 1;
        at := at[key := x];
        ret := 1;
      } else if flags.IsDel(x) {
        keys[x] := key;
        flags.SetBothFalse(x);
        size := size + 1;
        at := at[key := x];
        ret := 2;
      } else {
        ret := 0;
      }
    }
  }

  lemma StoreFacts<K, V>(hash: K -> bv32, v: View<K, V>, x: nat)
    requires v.Ok(hash) && x < v.n
    ensures v.InRange() && v.n <= |v.slots| && v.n == |v.keys| == |v.vals| && Indexed(v.n, v.slots, v.keys, v.at)
  {
    hide IsPow2, Indexed, Findable, NumLive, NumUsed, UpperBound, WordCount;
    OkInRange(hash, v);
  }

  lemma EmptyTable<K, V>(hash: K -> bv32, v: View<K, V>)
    requires v.Ok(hash) && v.n == 0
    ensures v.InRange() && v.Map() == map[] && v.size == v.occupied == 0
  {
  }

  /** In a table without tombstones, `x` is the first bucket of a probe that was not in use. */
  ghost predicate FirstUnused(f: seq<Slot>, h: bv32, n: nat, x: nat)
    requires 0 < n <= |f|
  {
    exists t: nat :: t < n && Probe(h, n, t) == x && forall u: nat :: u < t ==> Probe(h, n, u) != x && f[Probe(h, n, u)].Live()
  }

  predicate Sound(s: Slot) { s == LIVE || s == EMPTY || s == DELETED }

  lemma NoneReused(f: seq<Slot>, h: bv32, n: nat, x: nat)
    requires 0 < n <= |f| && DELETED !in f && forall i: nat :: i < |f| ==> Sound(f[i])
    ensures !PutsAt(f, h, n, x, true)
  {
    hide Probe;
  }

  lemma FirstUnusedFound(f: seq<Slot>, h: bv32, n: nat, x: nat)
    requires 0 < n <= |f| && x < n && DELETED !in f && PutsAt(f, h, n, x, false)
    requires forall i: nat :: i < |f| ==> Sound(f[i])
    ensures FirstUnused(f[x := LIVE], h, n, x)
  {
    hide Probe;
    var t: nat :| Ends(f, h, n, t) && t < n && x == Probe(h, n, t) && NoneDeleted(f, h, n, 0, t);
    assert forall u: nat :: u < t ==> f[Probe(h, n, u)].Live();
  }

  /** `kh_get` and `kh_del`: a tombstone where the key was. */
  method Drop<K(==,0), V(0)>(t: Table<K, V>, key: K) returns (k: nat)
    requires t.Valid() && key in t.Contents()
    modifies t, t.flags, t.flags.words
    ensures t.Valid() && t.Repr() == old(t.Repr()) && t.Contents() == old(t.Contents()) - {key}
    ensures t.nBuckets == old(t.nBuckets) && t.upperBound == old(t.upperBound) && t.nOccupied == old(t.nOccupied)
    ensures t.size == old(t.size) - 1 && t.size < MAX_BUCKETS
    ensures k < t.nBuckets <= |old(t.flags.slots)| && t.flags.slots == old(t.flags.slots)[k := DELETED]
    ensures Reaches(old(t.flags.slots), t.hash(key), t.nBuckets, k)
  {
    hide View.Ok, View.Map, Flags.Valid, Table.Separate, Reaches;
    SizeOfContents(t);
    k := t.Get(key);
    Found(t, key, k);
    FoundReaches(t, key, k);
    t.Del(k);
  }

  /** A key deleted and put again without a rehash takes a tombstone, and no bucket more is used. */
  method PutAgain<K(==,0), V(0)>(t: Table<K, V>, key: K) returns (x: nat, ret: int)
    requires t.Valid() && key in t.Contents() && t.nOccupied < t.upperBound
    modifies t, t.Repr()
    ensures t.Valid() && ret == 2 && t.Contents().Keys == old(t.Contents().Keys)
    ensures t.nOccupied == old(t.nOccupied) && t.size == old(t.size) && t.nBuckets == old(t.nBuckets)
  {
    hide View.Ok, Flags.Valid, Table.Valid, Table.Separate, Table.Contents, PutsAt, Reaches, FirstUnused;
    ghost var f := t.flags.slots;
    var k := Drop(t, key);
    x, ret := t.Put(key);
    OwnTombstone(f, t.hash(key), t.nBuckets, k, x, ret == 2);
  }

  lemma FoundReaches<K(0), V(0)>(t: Table<K, V>, key: K, k: nat)
    requires t.Valid() && k < t.nBuckets && key in t.at && t.at[key] == k
    ensures 0 < t.nBuckets <= |t.flags.slots| && Reaches(t.flags.slots, t.hash(key), t.nBuckets, k)
  {
  }

  lemma Found<K(0), V(0)>(t: Table<K, V>, key: K, k: nat)
    requires t.Valid() && k < t.nBuckets && key in t.at && t.at[key] == k
    ensures t.keys.Length == t.vals.Length == t.nBuckets <= |t.flags.slots|
    ensures t.Exists(k) && t.keys[k] == key && t.vals[k] == t.Contents()[key]
  {
  }

  lemma FoundKey<K(0), V(0)>(t: Table<K, V>, k: nat)
    requires t.Valid() && k < t.nBuckets && t.Exists(k)
    ensures t.keys.Length == t.nBuckets && t.keys[k] in t.Contents() && t.at[t.keys[k]] == k
  {
  }

  lemma SizeOfContents<K(0), V(0)>(t: Table<K, V>)
    requires t.Valid()
    ensures t.size == |t.Contents()| <= MAX_BUCKETS
  {
    hide View.Ok;
    OkShape(t.hash, t.AsView());
    RoomToGrow(t.hash, t.AsView());
  }

  lemma InvFacts<K, V>(hash: K -> bv32, n: nat, m: nat, all: map<K, V>, r: Rehash<K, V>)
    requires r.Inv(hash, n, m, all)
    ensures n <= |r.f| && 0 < m <= |r.g| && n <= |r.keys| && m <= |r.keys| == |r.vals|
    ensures forall i: nat :: i < |r.g| ==> !r.g[i].isDel
  {
  }

  lemma InvPending<K, V>(hash: K -> bv32, n: nat, m: nat, all: map<K, V>, r: Rehash<K, V>, i: nat)
    requires r.Inv(hash, n, m, all) && i < n && r.f[i].Live()
    ensures r.keys[i] !in r.held && r.keys[i] in r.pend
  {
  }

  lemma KickKeepsInv<K, V>(hash: K -> bv32, n: nat, m: nat, all: map<K, V>, r: Rehash<K, V>, i: nat, key: K, val: V)
    requires r.Inv(hash, n, m, all) && i < m && i < n && r.held == map[key := val]
    requires r.f[i].Live() && r.g[i].isEmpty && Reaches(r.g, hash(key), m, i)
    ensures i < |r.keys| == |r.vals|
    ensures Rehash(r.f[i := DELETED], r.g[i := LIVE], r.keys[i := key], r.vals[i := val],
        r.pend - {r.keys[i]}, r.placed[key := i], map[r.keys[i] := r.vals[i]]).Inv(hash, n, m, all)
    ensures NumLive(r.f[i := DELETED]) < NumLive(r.f)
  {
    hide Rehash.Inv, Reaches, NumLive;
    InvFacts(hash, n, m, all, r);
    InvPending(hash, n, m, all, r, i);
    var s := r.Take(i);
    TakeKeepsInv(hash, n, m, all, r, i);
    SettleKeepsInv(hash, n, m, all, s, i, key);
    assert s.held - {key} == map[r.keys[i] := r.vals[i]];
  }

  lemma OkShape<K, V>(hash: K -> bv32, v: View<K, V>)
    requires v.Ok(hash)
    ensures |v.keys| == |v.vals| == v.n && |v.at| == v.size && v.InRange() && |v.Map()| == v.size
  {
    assert |v.Map()| == |v.Map().Keys| && |v.at| == |v.at.Keys|;
  }

  lemma RehashBegins<K, V>(hash: K -> bv32, v: View<K, V>, r: Rehash<K, V>, m: nat, all: map<K, V>)
    requires v.Ok(hash) && v.InRange() && all == v.Map()
    requires r.f == v.slots && r.pend == v.at && r.placed == map[] && r.held == map[]
    requires v.n <= |r.keys| == |r.vals| && 0 < m <= |r.keys| && m <= |r.g|
    requires r.keys[..v.n] == v.keys && r.vals[..v.n] == v.vals
    requires forall i: nat :: i < |r.g| ==> r.g[i] == EMPTY
    ensures r.Inv(hash, v.n, m, all)
  {
    hide View.Ok, Rehash.Shape, Indexed, Findable, Rehash.Splits, Rehash.Valued, NumLive, NumUsed;
    BeginShape(hash, v, r, m);
    BeginValued(v.n, v.vals, r.vals, v.at, r, all);
    BeginPlaced(hash, m, r);
    CountNone(r.g);
  }

  lemma BeginShape<K, V>(hash: K -> bv32, v: View<K, V>, r: Rehash<K, V>, m: nat)
    requires v.Ok(hash) && r.f == v.slots && v.n <= |r.keys| == |r.vals| && 0 < m <= |r.keys| && m <= |r.g|
    requires r.keys[..v.n] == v.keys
    requires forall i: nat :: i < |r.g| ==> r.g[i] == EMPTY
    ensures r.Shape(v.n, m) && Indexed(v.n, r.f, r.keys, v.at) && NumLive(r.f) == |v.at|
  {
    hide IsPow2, Reaches, Findable, NumUsed;
    KeysPrefix(v.n, v.slots, v.keys, r.keys, v.at);
  }

  lemma BeginValued<K, V>(n: nat, vals: seq<V>, more: seq<V>, at: map<K, nat>, r: Rehash<K, V>, all: map<K, V>)
    requires n == |vals| <= |more| && more[..n] == vals && more == r.vals
    requires (forall k :: k in at ==> at[k] < |vals|) && all.Keys == at.Keys && forall k :: k in at ==> all[k] == vals[at[k]]
    requires r.pend == at && r.placed == map[] && r.held == map[]
    ensures r.Splits(all) && r.Valued(all)
  {
    forall k | k in at ensures more[at[k]] == all[k] { assert more[at[k]] == more[..n][at[k]]; }
  }

  lemma BeginPlaced<K, V>(hash: K -> bv32, m: nat, r: Rehash<K, V>)
    requires r.placed == map[] && 0 < m <= |r.keys| && m <= |r.g|
    requires forall i: nat :: i < |r.g| ==> r.g[i] == EMPTY
    ensures Indexed(m, r.g, r.keys, r.placed) && Findable(hash, m, r.g, r.placed)
  {
  }

  lemma KeysPrefix<K>(n: nat, f: seq<Slot>, keys: seq<K>, more: seq<K>, at: map<K, nat>)
    requires n <= |f| && n == |keys| <= |more| && more[..n] == keys
    requires n > 0 ==> Indexed(n, f, keys, at)
    requires n == 0 ==> at == map[]
    ensures Indexed(n, f, more, at)
  {
    assert forall i: nat :: i < n ==> more[i] == more[..n][i];
  }

  lemma RehashEnds<K, V>(hash: K -> bv32, n: nat, m: nat, all: map<K, V>, r: Rehash<K, V>, w: View<K, V>)
    requires r.Inv(hash, n, m, all) && r.pend == map[] && r.held == map[]
    requires IsPow2(m) && 4 <= m <= MAX_BUCKETS && |all| < UpperBound(m) && |r.g| == 16 * WordCount(m)
    requires w == View(m, |all|, |all|, UpperBound(m), r.g, r.keys[..m], r.vals[..m], r.placed)
    ensures w.Ok(hash) && w.InRange() && w.Map() == all
  {
    hide IsPow2, Findable, NumLive, NumUsed, WordCount, UpperBound, Rehash.Shape, Indexed;
    BoundBelowSize(m);
    EndShape(m, n, r);
    assert all.Keys == r.placed.Keys;
    assert |all| == |all.Keys| && |r.placed| == |r.placed.Keys|;
    EndIndexed(m, r.g, r.keys, r.placed);
    EndMap(m, r, w, all);
  }

  lemma EndShape<K, V>(m: nat, n: nat, r: Rehash<K, V>)
    requires r.Shape(n, m)
    ensures m <= |r.g| && m <= |r.keys| == |r.vals| && NumLive(r.g) == NumUsed(r.g)
    ensures forall i: nat :: m <= i < |r.g| ==> r.g[i] == EMPTY
    ensures forall i: nat :: i < |r.g| ==> !(r.g[i].isEmpty && r.g[i].isDel)
  {
    LiveIsUsed(r.g);
  }

  lemma EndIndexed<K>(m: nat, g: seq<Slot>, keys: seq<K>, placed: map<K, nat>)
    requires m <= |g| && m <= |keys| && Indexed(m, g, keys, placed)
    ensures Indexed(m, g, keys[..m], placed)
    ensures forall k :: k in placed ==> placed[k] < m
  {
  }

  lemma EndMap<K, V>(m: nat, r: Rehash<K, V>, w: View<K, V>, all: map<K, V>)
    requires r.Valued(all) && m <= |r.vals| && w.vals == r.vals[..m] && w.at == r.placed
    requires all.Keys == r.placed.Keys && forall k :: k in r.placed ==> r.placed[k] < m
    ensures w.InRange() && w.Map() == all
  {
  }

  lemma Misses<K, V>(hash: K -> bv32, v: View<K, V>, key: K, t: nat)
    requires v.Ok(hash) && v.n > 0 && Unseen(v.slots, v.keys, hash(key), v.n, key, t)
    requires t >= v.n || v.slots[Probe(hash(key), v.n, t)].isEmpty
    ensures key !in v.at
  {
    ProbeMisses(hash, v.n, v.slots, v.keys, v.at, key, t);
  }

  lemma Hits<K, V>(hash: K -> bv32, v: View<K, V>, key: K, i: nat)
    requires v.Ok(hash) && i < v.n && v.slots[i].Live() && v.keys[i] == key
    ensures key in v.at && v.at[key] == i
  {
  }

  /** What `kh_put` has learnt after `t` steps: no empty bucket, no match, and in `site` the last
      tombstone met, if any. */
  ghost predicate Walked<K>(f: seq<Slot>, keys: seq<K>, h: bv32, n: nat, key: K, t: nat, site: nat)
    requires 0 < n <= |f| && n <= |keys|
  {
    && PathUsed(f, h, n, t) && Unseen(f, keys, h, n, key, t)
    && site <= n && (site < n ==> f[site].isDel && Reaches(f, h, n, site) && LastTombstone(f, h, n, t, site))
    && (site == n ==> NoneDeleted(f, h, n, 0, t))
  }

  lemma WalkStarts<K>(f: seq<Slot>, keys: seq<K>, h: bv32, n: nat, key: K)
    requires 0 < n <= |f| && n <= |keys|
    ensures Walked(f, keys, h, n, key, 0, n)
  {
    hide Probe;
  }

  lemma WalkStep<K>(f: seq<Slot>, keys: seq<K>, h: bv32, n: nat, key: K, t: nat, site: nat)
    requires 0 < n <= |f| && n <= |keys| && t < n && Walked(f, keys, h, n, key, t, site)
    requires !f[Probe(h, n, t)].isEmpty
    requires f[Probe(h, n, t)].isDel || keys[Probe(h, n, t)] != key
    ensures Walked(f, keys, h, n, key, t + 1, if f[Probe(h, n, t)].isDel then Probe(h, n, t) else site)
  {
    hide Probe;
    var i := Probe(h, n, t);
    if f[i].isDel {
      assert NoneDeleted(f, h, n, t + 1, t + 1);
    } else if site < n {
      var s: nat :| s < t && Probe(h, n, s) == site && f[Probe(h, n, s)].isDel && NoneDeleted(f, h, n, s + 1, t);
      assert NoneDeleted(f, h, n, s + 1, t + 1);
    }
  }

  /** At the end of the walk the bucket at hand holds the key, or the key is absent and both the
      bucket at hand and `site` can take it. */
  lemma WalkEnds<K, V>(hash: K -> bv32, v: View<K, V>, key: K, t: nat, site: nat)
    requires v.Ok(hash) && 0 < v.n <= |v.slots| && v.n <= |v.keys| && t < v.n
    requires Walked(v.slots, v.keys, hash(key), v.n, key, t, site)
    requires var s := v.slots[Probe(hash(key), v.n, t)]; s.isEmpty || (!s.isDel && v.keys[Probe(hash(key), v.n, t)] == key)
    ensures v.slots[Probe(hash(key), v.n, t)].isEmpty ==>
      && key !in v.at && Reaches(v.slots, hash(key), v.n, Probe(hash(key), v.n, t))
      && !v.slots[Probe(hash(key), v.n, t)].Live()
      && (site < v.n ==> Reaches(v.slots, hash(key), v.n, site) && !v.slots[site].Live())
      && v.size < v.n
      && PutsAt(v.slots, hash(key), v.n, if site < v.n then site else Probe(hash(key), v.n, t), site < v.n)
      && !v.slots[Probe(hash(key), v.n, t)].isDel && (site < v.n ==> v.slots[site].isDel)
    ensures site <= v.n
  {
    hide Probe, View.Laid;
    if v.slots[Probe(hash(key), v.n, t)].isEmpty { assert Ends(v.slots, hash(key), v.n, t); }
    if v.slots[Probe(hash(key), v.n, t)].isEmpty {
      Misses(hash, v, key, t);
      NotAllLive(hash, v, Probe(hash(key), v.n, t));
      EmptyNotDeleted(hash, v, Probe(hash(key), v.n, t));
    }
  }

  lemma EmptyNotDeleted<K, V>(hash: K -> bv32, v: View<K, V>, x: nat)
    requires v.Ok(hash) && x < v.n && v.slots[x].isEmpty
    ensures !v.slots[x].isDel
  {
  }

  lemma NotAllLive<K, V>(hash: K -> bv32, v: View<K, V>, x: nat)
    requires v.Ok(hash) && x < v.n && !v.slots[x].Live()
    ensures v.size < v.n
  {
    CountUpdate(v.slots, x, LIVE);
    CountLive(v.slots[x := LIVE], v.n);
  }

  /** A walk of `kh_put` that comes round without having met a tombstone has seen live buckets only. */
  lemma WalkCircles<K, V>(hash: K -> bv32, v: View<K, V>, key: K, site: nat)
    requires v.Ok(hash) && IsPow2(v.n) && 0 < v.n <= |v.slots| && v.n <= |v.keys|
    requires Walked(v.slots, v.keys, hash(key), v.n, key, v.n, site)
    ensures key !in v.at && site <= v.n
    ensures site < v.n ==> Reaches(v.slots, hash(key), v.n, site) && !v.slots[site].Live() && v.size < v.n
    ensures site < v.n ==> v.slots[site].isDel && PutsAt(v.slots, hash(key), v.n, site, true)
    ensures site == v.n ==> v.size == v.n && forall i: nat :: i < v.n ==> v.slots[i].Live() && v.keys[i] != key
  {
    hide Probe, View.Ok;
    Misses(hash, v, key, v.n);
    if site < v.n {
      assert Ends(v.slots, hash(key), v.n, v.n);
      NotAllLive(hash, v, site);
    } else {
      forall i: nat | i < v.n ensures v.slots[i].Live() && v.keys[i] != key {
        var u := ProbeCovers(hash(key), v.n, i);
      }
      AllLive(hash, v);
    }
  }

  lemma AllLive<K, V>(hash: K -> bv32, v: View<K, V>)
    requires v.Ok(hash) && 0 < v.n <= |v.slots| && forall i: nat :: i < v.n ==> v.slots[i].Live()
    ensures v.size == v.n
  {
    CountAll(v.slots, v.n);
    CountLive(v.slots, v.n);
  }

  /** `kh_put` asks only for sizes that `kh_resize` accepts. */
  lemma RoomToGrow<K, V>(hash: K -> bv32, v: View<K, V>)
    requires v.Ok(hash)
    ensures v.n == 0 || (IsPow2(v.n) && 4 <= v.n <= MAX_BUCKETS)
    ensures v.n > 2 * v.size ==> v.size < UpperBound(v.n)
    ensures v.n > 0 ==> v.size < UpperBound(2 * v.n)
    ensures v.n == 0 ==> v.size < UpperBound(4)
    ensures v.size <= v.n && (v.n == 0 ==> v.occupied == 0)
  {
    if v.n > 0 { CountLive(v.slots, v.n); }
  }

  /** When every used bucket is live, nothing deleted is left. */
  lemma NoTombstone<K, V>(hash: K -> bv32, v: View<K, V>)
    requires v.Ok(hash) && v.occupied == v.size
    ensures DELETED !in v.slots
  {
    hide View.Ok;
    if DELETED in v.slots {
      var x: nat :| x < |v.slots| && v.slots[x] == DELETED;
      TombstoneCounted(hash, v, x);
    }
  }

  lemma TombstoneCounted<K, V>(hash: K -> bv32, v: View<K, V>, x: nat)
    requires v.Ok(hash) && x < |v.slots| && v.slots[x] == DELETED
    ensures v.occupied > v.size
  {
    UsedNotLive(v.slots, x);
  }

  lemma HasRoom<K, V>(hash: K -> bv32, v: View<K, V>)
    requires v.Ok(hash) && (v.occupied < v.bound || v.n == MAX_BUCKETS)
    ensures 0 < v.n <= |v.slots| && |v.vals| == |v.keys| == v.n <= MAX_BUCKETS && IsPow2(v.n) && v.InRange()
    ensures v.size == v.n ==> v.n == MAX_BUCKETS
    ensures forall i: nat :: i < |v.slots| ==> Sound(v.slots[i])
  {
    if v.n > 0 {
      BoundBelowSize(v.n);
      CountLive(v.slots, v.n);
    }
  }

  lemma UnseenStart<K>(f: seq<Slot>, keys: seq<K>, h: bv32, n: nat, key: K)
    requires 0 < n <= |f| && n <= |keys|
    ensures Unseen(f, keys, h, n, key, 0)
  {
    hide Probe;
  }

  lemma UnseenStep<K>(f: seq<Slot>, keys: seq<K>, h: bv32, n: nat, key: K, t: nat)
    requires 0 < n <= |f| && n <= |keys| && Unseen(f, keys, h, n, key, t)
    requires f[Probe(h, n, t)].isDel || keys[Probe(h, n, t)] != key
    ensures Unseen(f, keys, h, n, key, t + 1)
  {
    hide Probe;
  }

  /** Back at the first bucket, every bucket has been seen. */
  lemma FullCircle(h: bv32, n: nat, t: nat)
    requires IsPow2(n) && 0 < t <= n && Probe(h, n, t) == Probe(h, n, 0)
    ensures t == n
  {
    if t < n { ProbeInjective(h, n, 0, t); }
  }

  lemma NotFullCircle(h: bv32, n: nat, t: nat)
    requires IsPow2(n) && t <= n && Probe(h, n, t) != Probe(h, n, 0)
    ensures t < n
  {
    ProbeCoverage(h, n);
  }

  lemma LiveIff(s: Slot)
    ensures s.Live() <==> !s.isEmpty && !s.isDel
  {
  }

  lemma StartProbe(h: bv32, n: nat)
    requires n > 0
    ensures Start(h, n) == Probe(h, n, 0)
  {
    hide Start, Stride;
    ModUnique(0, n, Start(h, n));
  }
}
