/** Interned strings: one object per distinct content, kept in a hash table. */
module Strings {
  import opened Sizing
  import opened BucketFlags
  import opened Layout
  import opened TableView
  import opened KHash

  /** Filled in once when the string is first seen, then never written. */
  class IfjString {
    const val: string
    const len: nat

    constructor (val: string)
      ensures this.val == val && len == |val|
    {
      this.val := val;
      len := |val|;
    }
  }

  /** Each string is filed under its own contents. */
  ghost predicate Faithful(m: map<string, IfjString?>) {
    forall k :: k in m ==> m[k] != null && m[k].val == k && m[k].len == |k|
  }

  lemma Filed(m: map<string, IfjString?>, key: string)
    requires Faithful(m) && key in m
    ensures m[key] != null && m[key].val == key && m[key].len == |key| && m[key := m[key]] == m
  {
  }

  lemma StillFaithful(m: map<string, IfjString?>, key: string, r: IfjString)
    requires Faithful(m) && r.val == key && r.len == |key|
    ensures Faithful(m[key := r])
  {
  }

  lemma NotFaithful(m: map<string, IfjString?>, key: string, r: IfjString)
    requires r.val != key
    ensures !Faithful(m[key := r])
  {
    assert key in m[key := r];
  }

  ghost function Distinct(vals: seq<string>): set<string> {
    set v | v in vals
  }

  class State {
    var strs: Table<string, IfjString?>

    ghost predicate Valid()
      reads this, strs, strs.Repr()
    {
      this as object !in strs.Repr() && strs.Valid() && Faithful(strs.Contents())
    }

    constructor (hash: string -> bv32)
      ensures Valid() && fresh(strs) && fresh(strs.Repr()) && strs.Contents() == map[] && strs.nBuckets == strs.size == 0
    {
      strs := new Table(hash);
    }
  }

  /** `ifj17_string`: the object already there for these contents, or a new one. Without room the new one
      is filed under other contents. */
  method Intern(state: State, val: string) returns (r: IfjString)
    requires state.Valid()
    modifies state.strs, state.strs.Repr()
    ensures state.strs == old(state.strs) && state.strs.Valid() && state as object !in state.strs.Repr()
    ensures state.Valid() <==> Room(old(state.strs.Contents()), val)
    ensures fresh(state.strs.Repr() - old(state.strs.Repr()))
    ensures r.val == val && r.len == |val|
    ensures val in old(state.strs.Contents()) ==> r == old(state.strs.Contents())[val]
    ensures val !in old(state.strs.Contents()) ==> fresh(r)
    ensures Room(old(state.strs.Contents()), val) ==> state.strs.Contents() == old(state.strs.Contents())[val := r]
    ensures !Room(old(state.strs.Contents()), val) ==>
      exists k :: k in old(state.strs.Contents()) && k != val && state.strs.Contents() == old(state.strs.Contents())[k := r]
  {
    hide View.Ok, Flags.Valid, Table.Valid, Table.Separate, Table.Contents, Faithful;
    var found := Filing(state, val);
    if found == null {
      r := File(state, val);
    } else {
      r := found;
    }
  }

  /** The object filed for these contents. */
  method Filing(state: State, val: string) returns (r: IfjString?)
    requires state.Valid()
    ensures var m := state.strs.Contents();
      if val in m then r != null && r == m[val] && r.val == val && r.len == |val| && m[val := r] == m else r == null
  {
    hide View.Ok, Flags.Valid, Table.Separate, Faithful;
    var strs := state.strs;
    SizeOfContents(strs);
    assert val in strs.Contents() ==> strs.Contents() != map[] && strs.size != 0;
    var k := strs.Get(val);
    if k < strs.nBuckets { Found(strs, val, k); }
    r := null;
    if strs.size != 0 && strs.HasFlags(k) && strs.Exists(k) {
      Filed(strs.Contents(), val);
      r := strs.vals[k];
    }
  }

  method File(state: State, val: string) returns (r: IfjString)
    requires state.Valid() && val !in state.strs.Contents()
    modifies state.strs, state.strs.Repr()
    ensures state.strs == old(state.strs) && state.strs.Valid() && state as object !in state.strs.Repr()
    ensures fresh(state.strs.Repr() - old(state.strs.Repr()))
    ensures fresh(r) && r.val == val && r.len == |val|
    ensures Faithful(state.strs.Contents()) <==> Room(old(state.strs.Contents()), val)
    ensures Room(old(state.strs.Contents()), val) ==> state.strs.Contents() == old(state.strs.Contents())[val := r]
    ensures !Room(old(state.strs.Contents()), val) ==>
      exists k :: k in old(state.strs.Contents()) && k != val && state.strs.Contents() == old(state.strs.Contents())[k := r]
  {
    hide View.Ok, Flags.Valid, Table.Separate, Faithful;
    var strs := state.strs;
    ghost var m := strs.Contents();
    SizeOfContents(strs);
    r := new IfjString(val);
    StillFaithful(m, val, r);
    strs.PutValue(val, r);
    if !Room(m, val) {
      ghost var k :| k in m && k != val && strs.Contents() == m[k := r];
      NotFaithful(m, k, r);
    }
  }

  /** `r` holds the filed object of each of the first strings, and nothing else is filed. */
  ghost predicate Agrees(r: seq<IfjString>, vals: seq<string>, m: map<string, IfjString?>) {
    && |r| <= |vals| && m.Keys == Distinct(vals[..|r|])
    && forall j :: 0 <= j < |r| ==> vals[j] in m && m[vals[j]] == r[j] && r[j].val == vals[j]
  }

  lemma AgreesStep(r: seq<IfjString>, vals: seq<string>, m: map<string, IfjString?>, s: IfjString)
    requires |r| < |vals| && Agrees(r, vals, m) && s.val == vals[|r|]
    requires vals[|r|] in m ==> m[vals[|r|]] == s
    ensures Agrees(r + [s], vals, m[vals[|r|] := s])
  {
    hide Distinct;
    var i := |r|;
    var m' := m[vals[i] := s];
    DistinctNext(vals, i);
    assert m'.Keys == m.Keys + {vals[i]};
    forall j | 0 <= j < i + 1 ensures vals[j] in m' && m'[vals[j]] == (r + [s])[j] && (r + [s])[j].val == vals[j] {
      if j < i { assert (r + [s])[j] == r[j]; }
    }
  }

  /** A string not filed yet is one more than those that are. */
  lemma StillRoom(r: seq<IfjString>, vals: seq<string>, m: map<string, IfjString?>)
    requires |r| < |vals| && Agrees(r, vals, m) && vals[|r|] !in m
    ensures |m| < |Distinct(vals)|
  {
    var here := m.Keys + {vals[|r|]};
    assert forall v :: v in here ==> v in vals;
    SubsetSize(here, Distinct(vals));
    assert |here| == |m| + 1;
  }

  lemma DistinctNext(vals: seq<string>, i: nat)
    requires i < |vals|
    ensures Distinct(vals[..i + 1]) == Distinct(vals[..i]) + {vals[i]}
  {
    assert vals[..i + 1] == vals[..i] + [vals[i]];
  }

  lemma AgreesEnds(r: seq<IfjString>, vals: seq<string>, m: map<string, IfjString?>)
    requires Agrees(r, vals, m) && |r| == |vals|
    ensures forall i :: 0 <= i < |vals| ==> r[i].val == vals[i]
    ensures forall i, j :: 0 <= i < |vals| && 0 <= j < |vals| ==> (r[i] == r[j] <==> vals[i] == vals[j])
    ensures |m| == |Distinct(vals)|
  {
    assert vals[..|vals|] == vals;
    assert |m| == |m.Keys|;
  }

  /** The first strings are interned. */
  ghost predicate Interned(state: State, vals: seq<string>, r: seq<IfjString>)
    reads state, state.strs, state.strs.Repr()
  {
    state.Valid() && Agrees(r, vals, state.strs.Contents())
  }

  method InternNext(state: State, vals: seq<string>, r: seq<IfjString>) returns (s: IfjString)
    requires |r| < |vals| && |Distinct(vals)| <= MAX_BUCKETS && Interned(state, vals, r)
    modifies state.strs, state.strs.Repr()
    ensures state.strs == old(state.strs) && fresh(state.strs.Repr() - old(state.strs.Repr()))
    ensures Interned(state, vals, r + [s])
  {
    hide View.Ok, Flags.Valid, Table.Separate, Distinct, Agrees, Faithful;
    if vals[|r|] !in state.strs.Contents() { StillRoom(r, vals, state.strs.Contents()); }
    ghost var m := state.strs.Contents();
    s := Intern(state, vals[|r|]);
    AgreesStep(r, vals, m, s);
  }

  /** Over any run from an empty state, equal contents give one object, different contents give
      different ones, and the table holds one entry per distinct string. */
  method InternAll(hash: string -> bv32, vals: seq<string>) returns (state: State, r: seq<IfjString>)
    requires |Distinct(vals)| <= MAX_BUCKETS
    ensures state.Valid() && |r| == |vals|
    ensures forall i :: 0 <= i < |vals| ==> r[i].val == vals[i]
    ensures forall i, j :: 0 <= i < |vals| && 0 <= j < |vals| ==> (r[i] == r[j] <==> vals[i] == vals[j])
    ensures state.strs.size == |Distinct(vals)|
  {
    hide View.Ok, Flags.Valid, Table.Valid, Table.Separate, Table.Contents, State.Valid, Distinct, Agrees, Faithful;
    state := new State(hash);
    r := [];
    NoneYet(vals, state.strs.Contents());
    assert Interned(state, vals, r);
    while |r| < |vals|
      invariant fresh(state.strs) && fresh(state.strs.Repr())
      invariant |r| <= |vals| && Interned(state, vals, r)
      decreases |vals| - |r|
    {
      hide Interned;
      var s := InternNext(state, vals, r);
      r := r + [s];
    }
    Finished(state, vals, r);
  }

  lemma Finished(state: State, vals: seq<string>, r: seq<IfjString>)
    requires Interned(state, vals, r) && |r| == |vals|
    ensures state.Valid() && state.strs.size == |Distinct(vals)|
    ensures forall i :: 0 <= i < |vals| ==> r[i].val == vals[i]
    ensures forall i, j :: 0 <= i < |vals| && 0 <= j < |vals| ==> (r[i] == r[j] <==> vals[i] == vals[j])
  {
    hide Distinct, Agrees;
    AgreesEnds(r, vals, state.strs.Contents());
    SizeOfContents(state.strs);
  }

  lemma NoneYet(vals: seq<string>, m: map<string, IfjString?>)
    requires m == map[]
    ensures Agrees([], vals, m)
  {
  }
}
