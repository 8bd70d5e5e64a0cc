/**
 A Python dict seen through its iteration order.

 Where the order in which a dict's items are visited matters (a comprehension
 in which a later item overwrites an earlier one, a loop that stops at the
 first bad item), the dict is modelled as the sequence of its (key, value)
 items in that order. A genuine dict has pairwise distinct keys.
 */
module PyDict {

  /** No key occurs twice: what every Python dict guarantees of its items. */
  predicate DistinctKeys<K(==), V>(s: seq<(K, V)>) {
    forall i, j :: 0 <= i < j < |s| ==> s[i].0 != s[j].0
  }

  /** No value occurs twice, i.e. the dict is injective. */
  predicate DistinctValues<K, V(==)>(s: seq<(K, V)>) {
    forall i, j :: 0 <= i < j < |s| ==> s[i].1 != s[j].1
  }

  function KeySet<K, V>(s: seq<(K, V)>): set<K> {
    set i | 0 <= i < |s| :: s[i].0
  }

  function ValueSet<K, V>(s: seq<(K, V)>): set<V> {
    set i | 0 <= i < |s| :: s[i].1
  }

  /** The items with key and value exchanged, in the same order. */
  function Swap<K, V>(s: seq<(K, V)>): (r: seq<(V, K)>)
    ensures |r| == |s|
    ensures forall i :: 0 <= i < |s| ==> r[i] == (s[i].1, s[i].0)
  {
    seq(|s|, i requires 0 <= i < |s| => (s[i].1, s[i].0))
  }

  lemma SwapSets<K, V>(s: seq<(K, V)>)
    ensures KeySet(Swap(s)) == ValueSet(s)
    ensures ValueSet(Swap(s)) == KeySet(s)
    ensures DistinctKeys(Swap(s)) <==> DistinctValues(s)
  {
    var w := Swap(s);
    forall v | v in ValueSet(s) ensures v in KeySet(w) {
      var i :| 0 <= i < |s| && s[i].1 == v;
      assert w[i].0 == v;
    }
    forall k | k in KeySet(s) ensures k in ValueSet(w) {
      var i :| 0 <= i < |s| && s[i].0 == k;
      assert w[i].1 == k;
    }
  }

  /** The keys of a non-empty item sequence: its first key and the keys of the rest. */
  lemma KeySetCons<K, V>(s: seq<(K, V)>)
    requires |s| > 0
    ensures KeySet(s) == {s[0].0} + KeySet(s[1..])
  {
    var rest := s[1..];
    forall k | k in KeySet(s) ensures k in {s[0].0} + KeySet(rest) {
      var i :| 0 <= i < |s| && s[i].0 == k;
      if i > 0 { assert rest[i - 1] == s[i]; }
    }
  }

  /** The keys of a non-empty item sequence: the keys of all but its last item, and its last key. */
  lemma KeySetSnoc<K, V>(s: seq<(K, V)>)
    requires |s| > 0
    ensures KeySet(s) == KeySet(s[..|s| - 1]) + {s[|s| - 1].0}
  {
    var p := s[..|s| - 1];
    forall k | k in KeySet(s) ensures k in KeySet(p) + {s[|s| - 1].0} {
      var i :| 0 <= i < |s| && s[i].0 == k;
      if i < |s| - 1 { assert p[i] == s[i]; }
    }
  }

  /**
   The dict built by inserting the items one after another, as a dict display
   or a comprehension over them does: a later item with the same key replaces
   an earlier one.
   */
  function FromItems<K, V>(s: seq<(K, V)>): (m: map<K, V>)
    ensures m.Keys == KeySet(s)
  {
    if |s| == 0 then map[]
    else
      var m0 := FromItems(s[..|s| - 1]);
      KeySetSnoc(s);
      m0[s[|s| - 1].0 := s[|s| - 1].1]
  }

  /** Every key is bound to the value of the LAST item that carries it. */
  lemma {:induction false} FromItemsLastWins<K, V>(s: seq<(K, V)>, k: K)
    requires k in FromItems(s)
    ensures exists i :: 0 <= i < |s| && s[i] == (k, FromItems(s)[k]) && k !in KeySet(s[i + 1..])
  {
    var n := |s| - 1;
    var p := s[..n];
    if s[n].0 == k {
      assert s[n] == (k, FromItems(s)[k]);
      assert s[n + 1..] == [];
    } else {
      assert k in FromItems(p);
      FromItemsLastWins(p, k);
      var i :| 0 <= i < |p| && p[i] == (k, FromItems(p)[k]) && k !in KeySet(p[i + 1..]);
      assert s[i] == p[i];
      var t := s[i + 1..];
      assert t[..|t| - 1] == p[i + 1..];
      KeySetSnoc(t);
    }
  }

  /** With distinct keys, every item can be looked up again. */
  lemma {:induction false} FromItemsLookup<K, V>(s: seq<(K, V)>, i: int)
    requires DistinctKeys(s)
    requires 0 <= i < |s|
    ensures s[i].0 in FromItems(s) && FromItems(s)[s[i].0] == s[i].1
  {
    var n := |s| - 1;
    if i < n {
      var p := s[..n];
      assert p[i] == s[i];
      FromItemsLookup(p, i);
    }
  }

  /** With distinct keys, no item is lost: the dict has one entry per item. */
  lemma {:induction false} FromItemsSize<K, V>(s: seq<(K, V)>)
    requires DistinctKeys(s)
    ensures |FromItems(s)| == |s|
  {
    if |s| > 0 {
      var n := |s| - 1;
      var p := s[..n];
      assert DistinctKeys(p);
      FromItemsSize(p);
    }
  }
}
