/** Insertion-ordered dictionaries from str to str, as Python's dict behaves
    for header collections: assigning an existing key keeps its position,
    assigning a new key appends it, and update() assigns key by key in the
    order of its argument. Keys are compared exactly. */
module Dicts {
  import opened Wrappers

  function Keys(d: seq<(string, string)>): set<string>
    decreases |d|
  {
    if d == [] then {} else {d[0].0} + Keys(d[1..])
  }

  predicate UniqueKeys(d: seq<(string, string)>)
    decreases |d|
  {
    d == [] || (d[0].0 !in Keys(d[1..]) && UniqueKeys(d[1..]))
  }

  type Dict = d: seq<(string, string)> | UniqueKeys(d) witness []

  /** d.get(k) */
  function Get(d: Dict, k: string): (r: Option<string>)
    ensures r.Some? <==> k in Keys(d)
    ensures r.Some? ==> exists i :: 0 <= i < |d| && d[i] == (k, r.value)
    decreases |d|
  {
    if d == [] then None
    else if d[0].0 == k then Some(d[0].1)
    else
      var r := Get(d[1..], k);
      assert r.Some? ==> exists i :: 0 <= i < |d| && d[i] == (k, r.value) by {
        if r.Some? {
          var i :| 0 <= i < |d[1..]| && d[1..][i] == (k, r.value);
          assert d[i + 1] == (k, r.value);
        }
      }
      r
  }

  /** d[k] = v */
  function Set(d: Dict, k: string, v: string): (r: Dict)
    ensures Keys(r) == Keys(d) + {k}
    ensures Get(r, k) == Some(v)
    ensures forall j :: j != k ==> Get(r, j) == Get(d, j)
    decreases |d|
  {
    if d == [] then
      var r := [(k, v)];
      assert r[1..] == [];
      r
    else if d[0].0 == k then
      var r := [(k, v)] + d[1..];
      assert r[1..] == d[1..];
      r
    else
      var rest := Set(d[1..], k, v);
      assert forall i :: 1 <= i < |d| ==> d[1..][i - 1] == d[i];
      var r := [d[0]] + rest;
      assert r[1..] == rest;
      r
  }

  /** d.update(u) */
  function Update(d: Dict, u: Dict): (r: Dict)
    ensures Keys(r) == Keys(d) + Keys(u)
    ensures forall k :: Get(r, k) == if k in Keys(u) then Get(u, k) else Get(d, k)
    decreases |u|
  {
    if u == [] then d
    else Update(Set(d, u[0].0, u[0].1), u[1..])
  }

  /** Assigning a key keeps every existing key where it was, and a new key
      goes at the end. */
  lemma {:induction false} SetKeepsPositions(d: Dict, k: string, v: string)
    ensures var r := Set(d, k, v);
            && |r| == (if k in Keys(d) then |d| else |d| + 1)
            && (forall i :: 0 <= i < |d| ==> r[i].0 == d[i].0)
            && (k !in Keys(d) ==> r == d + [(k, v)])
    decreases |d|
  {
    if d != [] && d[0].0 != k {
      SetKeepsPositions(d[1..], k, v);
      var rest := Set(d[1..], k, v);
      assert Set(d, k, v) == [d[0]] + rest;
      assert forall i :: 1 <= i < |d| ==> d[1..][i - 1] == d[i];
      assert k !in Keys(d) ==> [d[0]] + (d[1..] + [(k, v)]) == d + [(k, v)];
    }
  }

  /** update() keeps every existing key where it was. */
  lemma {:induction false} UpdateKeepsPositions(d: Dict, u: Dict)
    ensures var r := Update(d, u);
            |r| >= |d| && forall i :: 0 <= i < |d| ==> r[i].0 == d[i].0
    decreases |u|
  {
    if u != [] {
      SetKeepsPositions(d, u[0].0, u[0].1);
      UpdateKeepsPositions(Set(d, u[0].0, u[0].1), u[1..]);
    }
  }

  /** The keys of d, in order. */
  function Names(d: seq<(string, string)>): seq<string> {
    seq(|d|, i requires 0 <= i < |d| => d[i].0)
  }

  /** The keys of u that are not in known, in u's order. */
  function NewKeys(u: seq<(string, string)>, known: set<string>): seq<string>
    decreases |u|
  {
    if u == [] then []
    else (if u[0].0 in known then [] else [u[0].0]) + NewKeys(u[1..], known)
  }

  lemma {:induction false} NewKeysIgnore(u: Dict, known: set<string>, k: string)
    requires k !in Keys(u)
    ensures NewKeys(u, known + {k}) == NewKeys(u, known)
    decreases |u|
  {
    if u != [] {
      NewKeysIgnore(u[1..], known, k);
    }
  }

  lemma SetNames(d: Dict, k: string, v: string)
    ensures Names(Set(d, k, v)) == Names(d) + (if k in Keys(d) then [] else [k])
  {
    SetKeepsPositions(d, k, v);
    if k !in Keys(d) {
      assert Set(d, k, v) == d + [(k, v)];
      assert Names(d + [(k, v)]) == Names(d) + [k];
    }
  }

  /** update() appends the keys of u that d lacks, in u's order, after the
      keys of d. */
  lemma {:induction false} UpdateAppendsNewKeys(d: Dict, u: Dict)
    ensures Names(Update(d, u)) == Names(d) + NewKeys(u, Keys(d))
    decreases |u|
  {
    if u != [] {
      var k, v := u[0].0, u[0].1;
      SetNames(d, k, v);
      UpdateAppendsNewKeys(Set(d, k, v), u[1..]);
      NewKeysIgnore(u[1..], Keys(d), k);
      assert NewKeys(u, Keys(d)) == (if k in Keys(d) then [] else [k]) + NewKeys(u[1..], Keys(d));
    }
  }
}
