/**
 Document ids and the order a collection listing returns them in. The store lists the documents
 of a collection in ascending order of their ids, compared character by character by code point
 (a proper prefix comes first). This module defines that order and the sorted listing of a set
 of ids.
 */
module Ids {
  import opened Seqs

  /** `a` is at or before `b` in the listing order. */
  predicate Below(a: string, b: string) {
    a == [] || (b != [] && (a[0] < b[0] || (a[0] == b[0] && Below(a[1..], b[1..]))))
  }

  lemma {:induction false} BelowReflexive(a: string)
    ensures Below(a, a)
    decreases |a|
  {
    if a != [] {
      BelowReflexive(a[1..]);
    }
  }

  lemma {:induction false} BelowAntisymmetric(a: string, b: string)
    requires Below(a, b) && Below(b, a)
    ensures a == b
    decreases |a|
  {
    if a != [] {
      BelowAntisymmetric(a[1..], b[1..]);
      assert a == [a[0]] + a[1..];
      assert b == [b[0]] + b[1..];
    }
  }

  lemma {:induction false} BelowTransitive(a: string, b: string, c: string)
    requires Below(a, b) && Below(b, c)
    ensures Below(a, c)
    decreases |a|
  {
    if a != [] && a[0] == b[0] && b[0] == c[0] {
      BelowTransitive(a[1..], b[1..], c[1..]);
    }
  }

  lemma {:induction false} BelowTotal(a: string, b: string)
    ensures Below(a, b) || Below(b, a)
    decreases |a|
  {
    if a != [] && b != [] && a[0] == b[0] {
      BelowTotal(a[1..], b[1..]);
    }
  }

  /** `m` is the first id of `ids` in listing order. */
  predicate IsLeast(m: string, ids: set<string>) {
    m in ids && forall k :: k in ids ==> Below(m, k)
  }

  /** Every non-empty set of ids has a first one. */
  lemma {:induction false} LeastExists(ids: set<string>)
    requires ids != {}
    ensures exists m :: IsLeast(m, ids)
    decreases |ids|
  {
    var x :| x in ids;
    if ids == {x} {
      BelowReflexive(x);
      assert IsLeast(x, ids);
    } else {
      var rest := ids - {x};
      LeastExists(rest);
      var m :| IsLeast(m, rest);
      BelowTotal(x, m);
      if Below(x, m) {
        BelowReflexive(x);
        forall k | k in ids
          ensures Below(x, k)
        {
          if k != x {
            BelowTransitive(x, m, k);
          }
        }
        assert IsLeast(x, ids);
      } else {
        assert IsLeast(m, ids);
      }
    }
  }

  /** There is only one first id. */
  lemma LeastUnique(ids: set<string>)
    ensures forall m, n :: IsLeast(m, ids) && IsLeast(n, ids) ==> m == n
  {
    forall m, n | IsLeast(m, ids) && IsLeast(n, ids)
      ensures m == n
    {
      BelowAntisymmetric(m, n);
    }
  }

  /** The first id of a non-empty set. */
  function Least(ids: set<string>): (m: string)
    requires ids != {}
    ensures IsLeast(m, ids)
  {
    LeastExists(ids);
    LeastUnique(ids);
    var m :| IsLeast(m, ids);
    m
  }

  /** Strictly ascending in listing order, hence without repetition. */
  predicate Ascending(s: seq<string>) {
    forall i, j :: 0 <= i < j < |s| ==> Below(s[i], s[j]) && s[i] != s[j]
  }

  /** The listing of a set of ids: each id once, in ascending order. */
  function SortedIds(ids: set<string>): (r: seq<string>)
    ensures Ascending(r)
    ensures forall k :: k in r <==> k in ids
    ensures |r| == |ids|
    decreases |ids|
  {
    if ids == {} then []
    else
      var m := Least(ids);
      var rest := SortedIds(ids - {m});
      assert forall k :: k in rest ==> Below(m, k) && k != m;
      [m] + rest
  }

  /**
   The listing is the only ascending sequence of those ids: an ascending sequence holding exactly
   the ids of a set is its listing.
   */
  lemma {:induction false} AscendingIsSortedIds(s: seq<string>, ids: set<string>)
    requires Ascending(s)
    requires forall k :: k in s <==> k in ids
    ensures s == SortedIds(ids)
    decreases |s|
  {
    if s == [] {
      assert ids == {};
    } else {
      assert s[0] in ids;
      HeadIsLeast(s, ids);
      LeastUnique(ids);
      var m := Least(ids);
      assert m == s[0];
      TailHoldsRest(s, ids);
      AscendingIsSortedIds(s[1..], ids - {m});
      assert SortedIds(ids) == [m] + SortedIds(ids - {m});
      SplitHead(s);
    }
  }

  lemma HeadIsLeast(s: seq<string>, ids: set<string>)
    requires s != [] && Ascending(s)
    requires forall k :: k in s <==> k in ids
    ensures IsLeast(s[0], ids)
  {
    forall k | k in ids
      ensures Below(s[0], k)
    {
      var j :| 0 <= j < |s| && s[j] == k;
      if j == 0 {
        BelowReflexive(k);
      }
    }
  }

  lemma TailHoldsRest(s: seq<string>, ids: set<string>)
    requires s != [] && Ascending(s)
    requires forall k :: k in s <==> k in ids
    ensures Ascending(s[1..])
    ensures forall k :: k in s[1..] <==> k in ids - {s[0]}
  {
    forall k
      ensures k in s[1..] <==> k in ids - {s[0]}
    {
      if k in s[1..] {
        var j :| 1 <= j < |s| && s[j] == k;
      }
      if k in ids - {s[0]} {
        var j :| 0 <= j < |s| && s[j] == k;
        assert j != 0;
        assert s[1..][j - 1] == k;
      }
    }
  }
}
