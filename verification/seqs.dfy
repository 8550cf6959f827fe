/** Small facts about sequences, stated once for every element type. */
module Seqs {

  lemma Regroup<T>(a: seq<T>, x: seq<T>, b: seq<T>)
    ensures (a + x) + b == a + (x + b)
  {
  }

  /** Indexing into a sequence with one element in front. */
  lemma ConsIndex<T>(x: T, t: seq<T>, w: seq<T>)
    requires w == [x] + t
    ensures |w| == |t| + 1 && w[0] == x
    ensures forall i :: 1 <= i < |w| ==> w[i] == t[i - 1]
  {
  }

  lemma SplitHead<T>(s: seq<T>)
    requires s != []
    ensures s == [s[0]] + s[1..]
  {
  }

  lemma SplitLast<T>(s: seq<T>)
    requires s != []
    ensures s == s[..|s| - 1] + [s[|s| - 1]]
  {
  }

  lemma AppendSnoc<T>(x: seq<T>, y: seq<T>, c: T)
    ensures x + (y + [c]) == (x + y) + [c]
  {
  }

  lemma AppendEmpty<T>(x: seq<T>)
    ensures x + [] == x
  {
  }
}
