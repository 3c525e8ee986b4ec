/** Sequence facts shared by the reviewer modules: element sets, absence of
    duplicates, flattening, and the minimum of two integers. */
module Seqs {

  /** The set of elements of a sequence. */
  function Elems<T>(s: seq<T>): set<T> {
    set x | x in s
  }

  /** No element occurs twice. */
  predicate NoDup<T(==)>(s: seq<T>) {
    forall i, j :: 0 <= i < j < |s| ==> s[i] != s[j]
  }

  /** The concatenation of a sequence of sequences, in order. */
  function Flatten<T>(ss: seq<seq<T>>): seq<T> {
    if |ss| == 0 then [] else Flatten(ss[..|ss| - 1]) + ss[|ss| - 1]
  }

  function Min(a: int, b: int): int {
    if a <= b then a else b
  }

  /** A duplicate-free sequence has as many elements as its element set. */
  lemma {:induction false} NoDupCard<T>(s: seq<T>)
    requires NoDup(s)
    ensures |Elems(s)| == |s|
  {
    if |s| > 0 {
      var last := s[|s| - 1];
      var init := s[..|s| - 1];
      assert NoDup(init);
      NoDupCard(init);
      assert last !in Elems(init);
      assert s == init + [last];
      assert Elems(s) == Elems(init) + {last};
    }
  }

  /** Every element of a flattened sequence comes from one of its parts. */
  lemma {:induction false} InFlatten<T>(ss: seq<seq<T>>, x: T) returns (k: nat)
    requires x in Flatten(ss)
    ensures k < |ss| && x in ss[k]
  {
    var init := ss[..|ss| - 1];
    if x in ss[|ss| - 1] {
      k := |ss| - 1;
    } else {
      assert x in Flatten(init);
      k := InFlatten(init, x);
      assert ss[k] == init[k];
    }
  }

  /** Appending one more part to a flattening appends it at the end. */
  lemma FlattenSnoc<T>(ss: seq<seq<T>>, s: seq<T>)
    ensures Flatten(ss + [s]) == Flatten(ss) + s
  {
  }

  /** Putting one more part in front of a flattening puts it at the front. */
  lemma {:induction false} FlattenCons<T>(s: seq<T>, ss: seq<seq<T>>)
    ensures Flatten([s] + ss) == s + Flatten(ss)
    decreases |ss|
  {
    if |ss| > 0 {
      var init := ss[..|ss| - 1];
      FlattenCons(s, init);
      assert ([s] + ss)[..|ss|] == [s] + init;
      assert ss == init + [ss[|ss| - 1]];
    }
  }
}
