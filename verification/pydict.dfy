/** Python dicts as the modelled code builds them: by comprehension, with
    entries in insertion order and a repeated key overwriting in place. */
module PyDict {
  import opened Wrappers

  /** The entries of a dict, in insertion order. */
  type Dict<K, V> = seq<(K, V)>

  predicate HasKey<K(==), V>(d: Dict<K, V>, k: K) {
    exists i :: 0 <= i < |d| && d[i].0 == k
  }

  ghost predicate UniqueKeys<K, V>(d: Dict<K, V>) {
    forall i, j :: 0 <= i < j < |d| ==> d[i].0 != d[j].0
  }

  /** Position of the entry for `k`. */
  function IndexOf<K(==), V>(d: Dict<K, V>, k: K): (i: nat)
    requires HasKey(d, k)
    ensures i < |d| && d[i].0 == k
    ensures forall j :: 0 <= j < i ==> d[j].0 != k
  {
    if d[0].0 == k then 0
    else
      assert HasKey(d[1..], k) by {
        var i :| 0 <= i < |d| && d[i].0 == k;
        assert d[1..][i - 1].0 == k;
      }
      1 + IndexOf(d[1..], k)
  }

  /** `d.get(k)` */
  function Get<K(==), V>(d: Dict<K, V>, k: K): (r: Option<V>)
    ensures r.None? <==> !HasKey(d, k)
    ensures UniqueKeys(d) ==> forall i :: 0 <= i < |d| && d[i].0 == k ==> r == Some(d[i].1)
  {
    if HasKey(d, k) then Some(d[IndexOf(d, k)].1) else None
  }

  /** `d[k] = v`: an existing key keeps its place and takes the new value;
      a new key is appended. */
  function Put<K(==), V>(d: Dict<K, V>, k: K, v: V): (r: Dict<K, V>)
    requires UniqueKeys(d)
    ensures UniqueKeys(r)
    ensures Get(r, k) == Some(v)
    ensures HasKey(d, k) ==> |r| == |d| && forall i :: 0 <= i < |d| ==> r[i].0 == d[i].0
    ensures !HasKey(d, k) ==> |r| == |d| + 1 && r[..|d|] == d && r[|d|] == (k, v)
    ensures forall i :: 0 <= i < |d| && d[i].0 != k ==> r[i] == d[i]
  {
    if HasKey(d, k) then
      var r := d[IndexOf(d, k) := (k, v)];
      assert UniqueKeys(r) && r[IndexOf(d, k)] == (k, v);
      r
    else
      var r := d + [(k, v)];
      assert UniqueKeys(r) && r[|d|] == (k, v);
      r
  }

  /** `o` is an item with key `k`. */
  predicate Yields<K(==), V>(o: Option<(K, V)>, k: K) {
    o.Some? && o.value.0 == k
  }

  /** `{k: v for x in xs if ...}`: `f` gives the item `x` contributes, if any,
      and the items are stored one after the other. */
  function Collect<X, K(==), V>(xs: seq<X>, f: X -> Option<(K, V)>): (r: Dict<K, V>)
    ensures UniqueKeys(r)
    decreases |xs|
  {
    if |xs| == 0 then []
    else
      var d := Collect(xs[..|xs| - 1], f);
      match f(xs[|xs| - 1])
      case None => d
      case Some(kv) => Put(d, kv.0, kv.1)
  }

  /** Entry `e` is the item produced at some position, and no later item has its key. */
  ghost predicate LastFor<X, K, V>(xs: seq<X>, f: X -> Option<(K, V)>, e: (K, V)) {
    exists j :: 0 <= j < |xs| && f(xs[j]) == Some(e) && NoLaterKey(xs, f, j, e.0)
  }

  ghost predicate NoLaterKey<X, K, V>(xs: seq<X>, f: X -> Option<(K, V)>, j: nat, k: K) {
    forall j' :: j < j' < |xs| ==> !Yields(f(xs[j']), k)
  }

  /** Soundness of the comprehension: each entry is the item produced last for its key. */
  lemma {:induction false} CollectEntries<X, K, V>(xs: seq<X>, f: X -> Option<(K, V)>)
    ensures forall i :: 0 <= i < |Collect(xs, f)| ==> LastFor(xs, f, Collect(xs, f)[i])
    decreases |xs|
  {
    if |xs| > 0 {
      var n := |xs| - 1;
      var p := xs[..n];
      var d := Collect(p, f);
      var r := Collect(xs, f);
      CollectEntries(p, f);
      forall i | 0 <= i < |r|
        ensures LastFor(xs, f, r[i])
      {
        if f(xs[n]).Some? && r[i] == f(xs[n]).value {
          assert f(xs[n]) == Some(r[i]) && NoLaterKey(xs, f, n, r[i].0);
        } else {
          assert i < |d| && r[i] == d[i];
          var j :| 0 <= j < |p| && f(p[j]) == Some(d[i]) && NoLaterKey(p, f, j, d[i].0);
          assert xs[j] == p[j];
          assert !Yields(f(xs[n]), d[i].0);
          assert NoLaterKey(xs, f, j, d[i].0) by {
            forall j' | j < j' < |xs| ensures !Yields(f(xs[j']), d[i].0) {
              if j' < n {
                assert xs[j'] == p[j'];
              }
            }
          }
        }
      }
    }
  }

  /** Completeness of the comprehension: every key some item carries is in the dict. */
  lemma {:induction false} CollectCovers<X, K, V>(xs: seq<X>, f: X -> Option<(K, V)>)
    ensures forall j :: 0 <= j < |xs| && f(xs[j]).Some? ==> HasKey(Collect(xs, f), f(xs[j]).value.0)
    decreases |xs|
  {
    if |xs| > 0 {
      var n := |xs| - 1;
      var p := xs[..n];
      var d := Collect(p, f);
      var r := Collect(xs, f);
      CollectCovers(p, f);
      forall j | 0 <= j < |xs| && f(xs[j]).Some?
        ensures HasKey(r, f(xs[j]).value.0)
      {
        var k := f(xs[j]).value.0;
        if j == n {
          var kv := f(xs[n]).value;
          if HasKey(d, kv.0) {
            assert r[IndexOf(d, kv.0)].0 == k;
          } else {
            assert r[|d|].0 == k;
          }
        } else {
          assert xs[j] == p[j];
          var i := IndexOf(d, k);
          assert r[i].0 == k;
        }
      }
    }
  }

  /** An item no later item shares a key with is the one the dict keeps for that key. */
  lemma CollectLastWins<X, K, V>(xs: seq<X>, f: X -> Option<(K, V)>, j: nat)
    requires j < |xs| && f(xs[j]).Some? && NoLaterKey(xs, f, j, f(xs[j]).value.0)
    ensures Get(Collect(xs, f), f(xs[j]).value.0) == Some(f(xs[j]).value.1)
  {
    var r := Collect(xs, f);
    var k := f(xs[j]).value.0;
    CollectCovers(xs, f);
    CollectEntries(xs, f);
    var i := IndexOf(r, k);
    assert LastFor(xs, f, r[i]);
    var j0 :| 0 <= j0 < |xs| && f(xs[j0]) == Some(r[i]) && NoLaterKey(xs, f, j0, k);
    assert Yields(f(xs[j0]), k) && Yields(f(xs[j]), k);
    assert j0 == j;
  }

  /** One more item keeps the keys already stored in place, and adds at most
      one new key: the item's own, when it is not stored yet. */
  lemma CollectStep<X, K, V>(xs: seq<X>, f: X -> Option<(K, V)>)
    requires |xs| > 0
    ensures var d, r := Collect(xs[..|xs| - 1], f), Collect(xs, f);
      && |d| <= |r| <= |d| + 1
      && (forall i :: 0 <= i < |d| ==> r[i].0 == d[i].0)
      && (|r| == |d| + 1 ==> Yields(f(xs[|xs| - 1]), r[|d|].0) && !HasKey(d, r[|d|].0))
  {
  }

  /** Every key in the dict is yielded by some item. */
  lemma KeyHasItem<X, K, V>(xs: seq<X>, f: X -> Option<(K, V)>, i: nat)
    requires i < |Collect(xs, f)|
    ensures exists e :: 0 <= e < |xs| && Yields(f(xs[e]), Collect(xs, f)[i].0)
  {
    CollectEntries(xs, f);
    assert LastFor(xs, f, Collect(xs, f)[i]);
  }

  /** A key the last item adds was yielded by no earlier item. */
  lemma NewKeyIsNew<X, K, V>(xs: seq<X>, f: X -> Option<(K, V)>, j: nat)
    requires |xs| > 0 && j < |xs| - 1
    requires |Collect(xs, f)| == |Collect(xs[..|xs| - 1], f)| + 1
    ensures !Yields(f(xs[j]), Collect(xs, f)[|Collect(xs[..|xs| - 1], f)|].0)
  {
    var p := xs[..|xs| - 1];
    CollectStep(xs, f);
    CollectCovers(p, f);
    assert xs[j] == p[j];
  }

  /** Order of the comprehension: keys appear in the order of their first items. */
  lemma {:induction false} CollectOrder<X, K, V>(xs: seq<X>, f: X -> Option<(K, V)>, i: nat, i': nat, j': nat)
    requires i < i' < |Collect(xs, f)| && j' < |xs|
    requires Yields(f(xs[j']), Collect(xs, f)[i'].0)
    ensures exists j :: 0 <= j < j' && Yields(f(xs[j]), Collect(xs, f)[i].0)
    decreases |xs|
  {
    var n := |xs| - 1;
    var p := xs[..n];
    var d := Collect(p, f);
    var r := Collect(xs, f);
    CollectStep(xs, f);
    assert i < |d| && r[i].0 == d[i].0;
    if j' == n {
      KeyHasItem(p, f, i);
      var e :| 0 <= e < |p| && Yields(f(p[e]), d[i].0);
      assert xs[e] == p[e];
    } else if i' < |d| {
      assert xs[j'] == p[j'];
      assert r[i'].0 == d[i'].0;
      CollectOrder(p, f, i, i', j');
      var j :| 0 <= j < j' && Yields(f(p[j]), d[i].0);
      assert xs[j] == p[j];
    } else {
      NewKeyIsNew(xs, f, j');
      assert false;
    }
  }
}
