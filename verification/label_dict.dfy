/**
 The label dictionary of the CTC trainer and its inversion.

 The label dictionary maps each label symbol (a phoneme or a character) to its
 integer class index. Decoding needs the opposite direction, index to symbol,
 and CTC needs one extra class, the blank, which is placed after the inverted
 entries. The number of entries of the result is the number of output classes
 of the network.
 */
module LabelDict {
  import opened PyDict

  type Symbol = string

  /** The symbol of the reserved CTC blank class. */
  const Blank: Symbol := "<b>"

  /** The indices 0 .. n-1. */
  function Range(n: nat): (r: set<int>)
    ensures forall i :: i in r ==> 0 <= i < n
    ensures forall i :: 0 <= i < n ==> i in r
    ensures |r| == n
  {
    if n == 0 then {} else Range(n - 1) + {n - 1}
  }

  /**
   The dict comprehension that exchanges symbol and index, run over the label
   dictionary's items in iteration order: an index shared by several symbols
   ends up bound to the last of them.
   */
  function Invert(labels: seq<(Symbol, int)>): (inv: map<int, Symbol>)
    ensures inv.Keys == ValueSet(labels)
  {
    SwapSets(labels);
    FromItems(Swap(labels))
  }

  /**
   The inverted dictionary with the blank symbol stored under the key equal to
   the number of inverted entries; an entry already under that key is replaced.
   */
  function GetInvDict(labels: seq<(Symbol, int)>): (r: map<int, Symbol>)
    ensures |Invert(labels)| in r && r[|Invert(labels)|] == Blank
    ensures r.Keys == ValueSet(labels) + {|Invert(labels)|}
    ensures forall v :: v in Invert(labels) && v != |Invert(labels)| ==> r[v] == Invert(labels)[v]
  {
    var inv := Invert(labels);
    inv[|inv| := Blank]
  }

  /**
   The number of output classes of the network: the blank adds a class exactly
   when its key is not already an index; when it is, the symbol under that
   index is replaced and the count does not grow.
   */
  function NbClasses(labels: seq<(Symbol, int)>): (n: nat)
    ensures |Invert(labels)| !in Invert(labels) ==> n == |Invert(labels)| + 1
    ensures |Invert(labels)| in Invert(labels) ==> n == |Invert(labels)|
  {
    |GetInvDict(labels)|
  }

  /** The class indices are exactly 0 .. n-1 for a dictionary of n symbols. */
  predicate Dense(labels: seq<(Symbol, int)>) {
    && DistinctValues(labels)
    && forall i :: 0 <= i < |labels| ==> 0 <= labels[i].1 < |labels|
  }

  /** Every symbol is found again under its own index when indices are distinct. */
  lemma InvertLookup(labels: seq<(Symbol, int)>, i: int)
    requires DistinctValues(labels)
    requires 0 <= i < |labels|
    ensures labels[i].1 in Invert(labels) && Invert(labels)[labels[i].1] == labels[i].0
  {
    SwapSets(labels);
    FromItemsLookup(Swap(labels), i);
  }

  /** Whatever the dictionary, each inverted entry pairs an index with a symbol that has it. */
  lemma InvertSound(labels: seq<(Symbol, int)>, v: int)
    requires v in Invert(labels)
    ensures exists i :: 0 <= i < |labels| && labels[i] == (Invert(labels)[v], v)
  {
    var w := Swap(labels);
    FromItemsLastWins(w, v);
    var i :| 0 <= i < |w| && w[i] == (v, FromItems(w)[v]) && v !in KeySet(w[i + 1..]);
    assert labels[i] == (Invert(labels)[v], v);
  }

  /** An injective label dictionary and its inversion are mutual inverses. */
  lemma InvertRoundTrip(labels: seq<(Symbol, int)>)
    requires DistinctKeys(labels) && DistinctValues(labels)
    ensures forall v :: v in Invert(labels) ==>
              Invert(labels)[v] in FromItems(labels) && FromItems(labels)[Invert(labels)[v]] == v
    ensures forall k :: k in FromItems(labels) ==>
              FromItems(labels)[k] in Invert(labels) && Invert(labels)[FromItems(labels)[k]] == k
  {
    var inv := Invert(labels);
    var d := FromItems(labels);
    forall v | v in inv ensures inv[v] in d && d[inv[v]] == v {
      InvertSound(labels, v);
      var i :| 0 <= i < |labels| && labels[i] == (inv[v], v);
      FromItemsLookup(labels, i);
    }
    forall k | k in d ensures d[k] in inv && inv[d[k]] == k {
      FromItemsLastWins(labels, k);
      var i :| 0 <= i < |labels| && labels[i] == (k, d[k]) && k !in KeySet(labels[i + 1..]);
      InvertLookup(labels, i);
    }
  }

  /** Distinct indices lose no symbol: one inverted entry per symbol. */
  lemma InvertSize(labels: seq<(Symbol, int)>)
    requires DistinctValues(labels)
    ensures |Invert(labels)| == |labels|
  {
    SwapSets(labels);
    FromItemsSize(Swap(labels));
  }

  /** With dense indices the inverted keys are exactly 0 .. n-1. */
  lemma DenseInvertKeys(labels: seq<(Symbol, int)>)
    requires Dense(labels)
    ensures forall v :: v in Invert(labels) <==> 0 <= v < |labels|
  {
    var keys := Invert(labels).Keys;
    var all := Range(|labels|);
    assert keys <= all;
    InvertSize(labels);
    assert all * keys == keys;
    assert |all - keys| == 0;
    assert keys == all;
  }

  /**
   With dense indices the blank goes to the fresh index n, no symbol is
   overwritten, and there are n + 1 classes with indices 0 .. n.
   */
  lemma GetInvDictDense(labels: seq<(Symbol, int)>)
    requires Dense(labels)
    ensures forall v :: v in GetInvDict(labels) <==> 0 <= v <= |labels|
    ensures GetInvDict(labels)[|labels|] == Blank
    ensures forall i :: 0 <= i < |labels| ==> GetInvDict(labels)[labels[i].1] == labels[i].0
    ensures NbClasses(labels) == |labels| + 1
  {
    DenseInvertKeys(labels);
    InvertSize(labels);
    forall i | 0 <= i < |labels| ensures GetInvDict(labels)[labels[i].1] == labels[i].0 {
      InvertLookup(labels, i);
    }
  }

  /**
   A symbol whose index equals the number of symbols is lost to the blank,
   and the blank then adds no class. The smallest case is the dictionary
   {"a": 1}, which yields the single class {1: "<b>"}.
   */
  lemma BlankOverwritesSymbol(labels: seq<(Symbol, int)>, i: int)
    requires DistinctKeys(labels) && DistinctValues(labels)
    requires 0 <= i < |labels| && labels[i].1 == |labels|
    requires labels[i].0 != Blank
    ensures GetInvDict(labels)[labels[i].1] == Blank
    ensures labels[i].0 !in GetInvDict(labels).Values
    ensures NbClasses(labels) == |labels|
  {
    var n := |labels|;
    var inv := Invert(labels);
    var r := GetInvDict(labels);
    InvertSize(labels);
    InvertLookup(labels, i);
    forall v | v in r ensures r[v] != labels[i].0 {
      if v != n {
        InvertSound(labels, v);
        var j :| 0 <= j < n && labels[j] == (inv[v], v);
        assert j != i;
      }
    }
  }
}
