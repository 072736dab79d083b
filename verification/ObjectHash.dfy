/** The compiler's string-keyed hash of objects, over the hash table. */
module ObjectHash {
  import opened BucketFlags
  import opened Probing
  import opened Layout
  import opened TableView
  import opened KHash

  /** An interpreter object; the hash only stores references to it. */
  class IfjObject {
    constructor () {}
  }

  type Objects = Table<string, IfjObject?>

  /** Without room the value of another key is overwritten. */
  method Set(self: Objects, key: string, val: IfjObject?)
    requires self.Valid()
    modifies self, self.Repr()
    ensures self.Valid() && fresh(self.Repr() - old(self.Repr()))
    ensures self.Contents() == old(self.Contents())[key := val] <==> Room(old(self.Contents()), key)
    ensures !Room(old(self.Contents()), key) ==>
      exists k :: k in old(self.Contents()) && k != key && self.Contents() == old(self.Contents())[k := val]
  {
    hide View.Ok, Flags.Valid, Table.Separate;
    SizeOfContents(self);
    ghost var m := self.Contents();
    self.PutValue(key, val);
    assert key !in m && self.Contents().Keys == m.Keys ==> self.Contents() != m[key := val];
  }

  method Get(self: Objects, key: string) returns (r: IfjObject?)
    requires self.Valid()
    ensures r == if key in self.Contents() then self.Contents()[key] else null
  {
    var k := self.Get(key);
    if k == self.nBuckets {
      r := null;
    } else {
      Found(self, key, k);
      r := self.vals[k];
    }
  }

  /** `kh_exist` at the end index: no flags there, or those of the padding, and both mean absent. */
  method Has(self: Objects, key: string) returns (r: bool)
    requires self.Valid()
    ensures r == (key in self.Contents())
  {
    hide View.Ok, View.Map, Flags.Valid, Table.Separate;
    var k := self.Get(key);
    if k < self.nBuckets { Found(self, key, k); }
    r := self.HasFlags(k) && self.Exists(k);
  }

  method Remove(self: Objects, key: string)
    requires self.Valid()
    modifies self, self.flags, self.flags.words
    ensures self.Valid() && self.Repr() == old(self.Repr()) && self.nBuckets == old(self.nBuckets)
    ensures self.Contents() == old(self.Contents()) - {key}
  {
    hide View.Ok, Flags.Valid, Table.Separate;
    var k := self.Get(key);
    if k < self.nBuckets { Found(self, key, k); }
    ghost var m := self.Contents();
    assert key !in m ==> m - {key} == m;
    self.Del(k);
  }

  /** `ifj17_hash_each`: every live pair, in bucket order. */
  method Each(self: Objects) returns (visited: seq<(string, IfjObject?)>)
    requires self.Valid()
    ensures forall i :: 0 <= i < |visited| ==>
      visited[i].0 in self.Contents() && visited[i].1 == self.Contents()[visited[i].0]
    ensures forall key :: key in self.Contents() ==> (key, self.Contents()[key]) in visited
    ensures forall i, j :: 0 <= i < j < |visited| ==> visited[i].0 != visited[j].0
    ensures forall i, j :: 0 <= i < j < |visited| ==>
      visited[i].0 in self.at && visited[j].0 in self.at && self.at[visited[i].0] < self.at[visited[j].0]
    ensures |visited| == self.size
  {
    hide View.Ok, Flags.Valid, Table.Separate;
    ghost var v := self.AsView();
    EachStarts(self.hash, v);
    visited := [];
    for k := 0 to self.nBuckets
      invariant VisitedTo(v, visited, k)
    {
      EachStep(self.hash, v, visited, k);
      if self.Exists(k) {
        visited := visited + [(self.keys[k], self.vals[k])];
      }
    }
    EachEnds(self.hash, v, visited);
  }

  ghost predicate Ascending<V>(at: map<string, nat>, visited: seq<(string, V)>) {
    forall i, j :: 0 <= i < j < |visited| ==>
      visited[i].0 in at && visited[j].0 in at && at[visited[i].0] < at[visited[j].0]
  }

  lemma AscendingNext<V>(at: map<string, nat>, visited: seq<(string, V)>, here: (string, V))
    requires Ascending(at, visited) && here.0 in at
    requires forall i :: 0 <= i < |visited| ==> visited[i].0 in at && at[visited[i].0] < at[here.0]
    ensures Ascending(at, visited + [here])
  {
  }

  /** Exactly the pairs in the first `k` buckets have been visited, each once. */
  ghost predicate VisitedTo<V>(v: View<string, V>, visited: seq<(string, V)>, k: nat) {
    && v.InRange() && k <= |v.slots|
    && (forall i :: 0 <= i < |visited| ==> visited[i].0 in v.at && v.at[visited[i].0] < k)
    && (forall i :: 0 <= i < |visited| ==> visited[i].1 == v.Map()[visited[i].0])
    && (forall key :: key in v.at && v.at[key] < k ==> (key, v.Map()[key]) in visited)
    && Ascending(v.at, visited) && |visited| == NumLive(v.slots[..k])
  }

  lemma EachStarts<V>(hash: string -> bv32, v: View<string, V>)
    requires v.Ok(hash)
    ensures VisitedTo(v, [], 0) && |v.keys| == |v.vals| == v.n <= |v.slots|
  {
  }

  lemma EachStep<V>(hash: string -> bv32, v: View<string, V>, visited: seq<(string, V)>, k: nat)
    requires v.Ok(hash) && k < v.n && VisitedTo(v, visited, k)
    ensures k < |v.slots| && k < |v.keys| && k < |v.vals|
    ensures VisitedTo(v, if v.slots[k].Live() then visited + [(v.keys[k], v.vals[k])] else visited, k + 1)
  {
    hide IsPow2, Findable, NumUsed, VisitedTo;
    assert Indexed(v.n, v.slots, v.keys, v.at);
    VisitBucket(v, visited, k);
  }

  lemma VisitBucket<V>(v: View<string, V>, visited: seq<(string, V)>, k: nat)
    requires v.n <= |v.slots| && |v.keys| == |v.vals| == v.n && Indexed(v.n, v.slots, v.keys, v.at)
    requires k < v.n && VisitedTo(v, visited, k)
    ensures VisitedTo(v, if v.slots[k].Live() then visited + [(v.keys[k], v.vals[k])] else visited, k + 1)
  {
    hide VisitedTo;
    if v.slots[k].Live() { VisitLive(v, visited, k); } else { SkipBucket(v, visited, k); }
  }

  lemma SkipBucket<V>(v: View<string, V>, visited: seq<(string, V)>, k: nat)
    requires v.n <= |v.slots| && |v.keys| == v.n && Indexed(v.n, v.slots, v.keys, v.at)
    requires k < v.n && VisitedTo(v, visited, k) && !v.slots[k].Live()
    ensures VisitedTo(v, visited, k + 1)
  {
    assert v.slots[..k + 1][..k] == v.slots[..k];
    assert forall key :: key in v.at ==> v.at[key] != k;
  }

  lemma VisitLive<V>(v: View<string, V>, visited: seq<(string, V)>, k: nat)
    requires v.n <= |v.slots| && |v.keys| == |v.vals| == v.n && Indexed(v.n, v.slots, v.keys, v.at)
    requires k < v.n && VisitedTo(v, visited, k) && v.slots[k].Live()
    ensures VisitedTo(v, visited + [(v.keys[k], v.vals[k])], k + 1)
  {
    hide Ascending, Indexed, NumLive;
    var here := (v.keys[k], v.vals[k]);
    LiveHere(v, k);
    CountLive(v.slots, k);
    AscendingNext(v.at, visited, here);
    AllVisited(v, visited, here, k);
  }

  lemma LiveHere<V>(v: View<string, V>, k: nat)
    requires v.n <= |v.slots| && |v.keys| == |v.vals| == v.n && Indexed(v.n, v.slots, v.keys, v.at)
    requires v.InRange() && k < v.n && v.slots[k].Live()
    ensures v.keys[k] in v.at && v.at[v.keys[k]] == k && v.Map()[v.keys[k]] == v.vals[k]
    ensures forall key :: key in v.at && v.at[key] == k ==> key == v.keys[k]
  {
  }

  lemma CountLive(s: seq<Slot>, k: nat)
    requires k < |s| && s[k].Live()
    ensures NumLive(s[..k + 1]) == NumLive(s[..k]) + 1
  {
    assert s[..k + 1][..k] == s[..k];
  }

  lemma AllVisited<V>(v: View<string, V>, visited: seq<(string, V)>, here: (string, V), k: nat)
    requires v.InRange() && forall key :: key in v.at && v.at[key] < k ==> (key, v.Map()[key]) in visited
    requires forall key :: key in v.at && v.at[key] == k ==> (key, v.Map()[key]) == here
    ensures forall key :: key in v.at && v.at[key] < k + 1 ==> (key, v.Map()[key]) in visited + [here]
  {
    var next := visited + [here];
    forall key | key in v.at && v.at[key] < k + 1 ensures (key, v.Map()[key]) in next {
      if v.at[key] == k { assert next[|visited|] == (key, v.Map()[key]); }
    }
  }

  lemma EachEnds<V>(hash: string -> bv32, v: View<string, V>, visited: seq<(string, V)>)
    requires v.Ok(hash) && VisitedTo(v, visited, v.n)
    ensures v.InRange() && forall key :: key in v.Map() ==> (key, v.Map()[key]) in visited
    ensures |visited| == v.size
  {
    NoneBeyond(v.slots, v.n);
  }

  lemma {:induction false} NoneBeyond(s: seq<Slot>, n: nat)
    requires n <= |s| && forall i: nat :: n <= i < |s| ==> !s[i].Live()
    ensures NumLive(s) == NumLive(s[..n])
  {
    if n < |s| {
      NoneBeyond(s[..|s| - 1], n);
      assert s[..|s| - 1][..n] == s[..n];
    } else {
      assert s[..n] == s;
    }
  }

  /** `kh_exist` on the end index would read inside the flag words exactly in tables of 4 or 8
      buckets, where it finds a padding pair and says "absent". */
  lemma EndIndexReadable(hash: string -> bv32, v: View<string, IfjObject?>)
    requires v.Ok(hash)
    ensures v.n < |v.slots| <==> v.n == 4 || v.n == 8
    ensures v.n < |v.slots| ==> v.slots[v.n] == EMPTY
  {
    if v.n > 0 { FlagWords(v.n); }
  }

  // ----- whole runs

  datatype Op =
    | SetOp(key: string, val: IfjObject?)
    | GetOp(key: string)
    | HasOp(key: string)
    | RemoveOp(key: string)

  datatype Answer = Nothing | Object(o: IfjObject?) | Flag(b: bool)

  /** What a finite map does with one operation. */
  function MapAfter(m: map<string, IfjObject?>, op: Op): map<string, IfjObject?> {
    match op
    case SetOp(k, v) => m[k := v]
    case RemoveOp(k) => m - {k}
    case _ => m
  }

  function MapAnswer(m: map<string, IfjObject?>, op: Op): Answer {
    match op
    case GetOp(k) => Object(if k in m then m[k] else null)
    case HasOp(k) => Flag(k in m)
    case _ => Nothing
  }

  function MapRun(m: map<string, IfjObject?>, ops: seq<Op>): map<string, IfjObject?> {
    if ops == [] then m else MapAfter(MapRun(m, ops[..|ops| - 1]), ops[|ops| - 1])
  }

  function MapAnswers(m: map<string, IfjObject?>, ops: seq<Op>): seq<Answer> {
    if ops == [] then [] else
      MapAnswers(m, ops[..|ops| - 1]) + [MapAnswer(MapRun(m, ops[..|ops| - 1]), ops[|ops| - 1])]
  }

  method Step(self: Objects, op: Op) returns (answer: Answer)
    requires self.Valid() && (op.SetOp? ==> Room(self.Contents(), op.key))
    modifies self, self.Repr()
    ensures self.Valid() && fresh(self.Repr() - old(self.Repr()))
    ensures self.Contents() == MapAfter(old(self.Contents()), op)
    ensures answer == MapAnswer(old(self.Contents()), op)
  {
    hide View.Ok, Flags.Valid, Table.Separate;
    answer := Nothing;
    match op {
      case SetOp(k, v) => Set(self, k, v);
      case GetOp(k) => var o := Get(self, k); answer := Object(o);
      case HasOp(k) => var b := Has(self, k); answer := Flag(b);
      case RemoveOp(k) => Remove(self, k);
    }
  }

  /** The table and the answers are those of the map after the first operations. */
  ghost predicate After(self: Objects, ops: seq<Op>, answers: seq<Answer>)
    requires |answers| <= |ops|
    reads self, self.Repr()
  {
    var i := |answers|;
    self.Valid() && self.Contents() == MapRun(map[], ops[..i]) && answers == MapAnswers(map[], ops[..i])
  }

  /** Whenever a new key is set, the map has fewer than 2^31 keys. */
  ghost predicate Bounded(ops: seq<Op>) {
    forall i :: 0 <= i < |ops| && ops[i].SetOp? ==> Room(MapRun(map[], ops[..i]), ops[i].key)
  }

  method StepNext(self: Objects, ops: seq<Op>, answers: seq<Answer>) returns (answer: Answer)
    requires |answers| < |ops| && Bounded(ops) && After(self, ops, answers)
    modifies self, self.Repr()
    ensures fresh(self.Repr() - old(self.Repr())) && After(self, ops, answers + [answer])
  {
    hide View.Ok, Flags.Valid, Table.Separate, Table.Valid, Table.Contents, MapAfter, MapAnswer, Room;
    var i := |answers|;
    answer := Step(self, ops[i]);
    assert ops[..i + 1][..i] == ops[..i];
  }

  /** Any run from a new hash answers as the finite map does, step for step, however long it is, as
      long as the map stays below the size a 32-bit bucket count can serve. */
  method Run(hash: string -> bv32, ops: seq<Op>) returns (self: Objects, answers: seq<Answer>)
    requires Bounded(ops)
    ensures self.Valid() && self.Contents() == MapRun(map[], ops)
    ensures answers == MapAnswers(map[], ops)
  {
    hide View.Ok, Flags.Valid, Table.Separate, Table.Valid, Table.Contents, Bounded;
    self := new Table(hash);
    answers := [];
    assert ops[..0] == [];
    assert After(self, ops, answers);
    while |answers| < |ops|
      invariant fresh(self) && fresh(self.Repr())
      invariant |answers| <= |ops| && After(self, ops, answers)
      decreases |ops| - |answers|
    {
      hide After;
      var a := StepNext(self, ops, answers);
      answers := answers + [a];
    }
    assert ops[..|ops|] == ops;
  }
}
