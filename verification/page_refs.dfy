/**
 The page-reference parser `numbers_split`: a free-form answer such as "Pages 3, 7 and 12" is split
 on every maximal run of non-digit characters, every non-empty digit run is read as a decimal number,
 numbers equal to 0 are dropped, and the rest are turned from one-based into zero-based page indices.
 The result keeps the order of the runs and is neither sorted nor deduplicated.

 Only the ASCII digits '0'..'9' count as digits in this model.
 */
module PageRefs {
  import opened Seqs

  predicate IsDigit(c: char) {
    '0' <= c <= '9'
  }

  /** The value of a decimal digit (0 for anything else, which the parser never reads). */
  function DigitValue(c: char): nat {
    if IsDigit(c) then c as int - '0' as int else 0
  }

  predicate AllDigits(s: string) {
    forall i :: 0 <= i < |s| ==> IsDigit(s[i])
  }

  predicate EndsWithNonDigit(s: string) {
    s != [] && !IsDigit(s[|s| - 1])
  }

  predicate StartsWithNonDigit(s: string) {
    s != [] && !IsDigit(s[0])
  }

  /** The decimal value of a digit string, leading zeros allowed ("007" is 7, "00" is 0). */
  function Value(d: string): nat {
    if d == [] then 0 else Value(d[..|d| - 1]) * 10 + DigitValue(d[|d| - 1])
  }

  /** The digits of `s`, in order, with everything else removed. */
  function Digits(s: string): (r: string)
    ensures AllDigits(r)
  {
    if s == [] then []
    else Digits(s[..|s| - 1]) + (if IsDigit(s[|s| - 1]) then [s[|s| - 1]] else [])
  }

  /** The concatenation of a sequence of strings. */
  function Concat(ps: seq<string>): string {
    if ps == [] then [] else Concat(ps[..|ps| - 1]) + ps[|ps| - 1]
  }

  /** The positions at which a maximal run of non-digit characters begins. */
  function SeparatorStarts(s: string): set<nat> {
    set i: nat | i < |s| && SeparatorStartsAt(s, i)
  }

  predicate SeparatorStartsAt(s: string, i: nat)
    requires i < |s|
  {
    !IsDigit(s[i]) && (i == 0 || IsDigit(s[i - 1]))
  }

  /**
   The pieces `re.split(r'\D+', s)` returns: the text between consecutive maximal non-digit runs,
   including an empty first piece when `s` starts with a non-digit and an empty last piece when it
   ends with one. `PiecesShape`, `PiecesCount` and `PiecesContents` give the shape of the result;
   `PiecesOfRun` and `PiecesAfterSeparator` fix where the text is cut.
   */
  function Pieces(s: string): (r: seq<string>)
    ensures r != []
  {
    if s == [] then [[]]
    else
      var t := s[..|s| - 1];
      Extend(Pieces(t), s[|s| - 1], EndsWithNonDigit(t))
  }

  /** The pieces after one more character `c`, given the pieces so far and whether they end in a separator. */
  function Extend(p: seq<string>, c: char, afterSeparator: bool): seq<string>
    requires p != []
  {
    if IsDigit(c) then p[..|p| - 1] + [p[|p| - 1] + [c]]
    else if afterSeparator then p
    else p + [[]]
  }

  /** One-based page number of a digit piece, as a zero-based index, or nothing for "" and 0. */
  function PageOf(piece: string): seq<nat> {
    if piece != [] && Value(piece) != 0 then [Value(piece) - 1] else []
  }

  /** The parsing and filtering applied to the pieces, in order. */
  function Convert(ps: seq<string>): (r: seq<nat>)
    ensures |r| <= |ps|
  {
    if ps == [] then [] else Convert(ps[..|ps| - 1]) + PageOf(ps[|ps| - 1])
  }

  /**
   `numbers_split(s)`: at most one page per piece of the split (and so, by `PiecesBound`, never more
   than one page per character plus one). `NumbersSplitFromRuns`, `NumbersSplitRun`, `NumbersSplitAppend` and `NumbersSplitByScan`
   say which pages and in what order.
   */
  function NumbersSplit(s: string): (r: seq<nat>)
    ensures |r| <= |Pieces(s)|
  {
    Convert(Pieces(s))
  }

  // ---------------------------------------------------------------------------------------------
  // Helper facts

  lemma ConcatFront(ps: seq<string>)
    requires ps != []
    ensures Concat(ps) == Concat(ps[..|ps| - 1]) + ps[|ps| - 1]
  {
  }

  lemma SeparatorStartsSnoc(t: string, c: char)
    ensures SeparatorStarts(t + [c]) ==
              SeparatorStarts(t) + (if !IsDigit(c) && !EndsWithNonDigit(t) then {|t|} else {})
    ensures |t| !in SeparatorStarts(t)
  {
    var s := t + [c];
    assert forall i: nat :: i < |t| ==> s[i] == t[i];
    forall i: nat | i < |t|
      ensures SeparatorStartsAt(s, i) == SeparatorStartsAt(t, i)
    {
    }
  }

  lemma {:induction false} ConvertAppend(a: seq<string>, b: seq<string>)
    ensures Convert(a + b) == Convert(a) + Convert(b)
    decreases |b|
  {
    if b == [] {
      assert a + b == a;
    } else {
      var b', last := b[..|b| - 1], b[|b| - 1];
      assert (a + b)[..|a + b| - 1] == a + b';
      assert (a + b)[|a + b| - 1] == last;
      ConvertAppend(a, b');
      Regroup(Convert(a), Convert(b'), PageOf(last));
    }
  }

  lemma ConvertSingle(q: string)
    ensures Convert([q]) == PageOf(q)
  {
    assert [q][..0] == [];
  }

  /** Empty pieces contribute nothing, so dropping an empty first piece changes nothing. */
  lemma ConvertDropEmptyFirst(ps: seq<string>)
    requires ps != [] && ps[0] == []
    ensures Convert(ps[1..]) == Convert(ps)
  {
    assert ps == [ps[0]] + ps[1..];
    ConvertAppend([ps[0]], ps[1..]);
    ConvertSingle(ps[0]);
  }

  /** What the pieces of `y` contribute after a text that already ends in a separator. */
  function Continuation(y: string): seq<string> {
    if StartsWithNonDigit(y) then Pieces(y)[1..] else Pieces(y)
  }

  // ---------------------------------------------------------------------------------------------
  // Shape of the split

  /**
   Only the first and the last piece can be empty, each exactly when the text has a separator at
   that end, and there is a single piece exactly when the text is all digits.
   */
  lemma PiecesShape(s: string)
    ensures var r := Pieces(s);
            && (r[0] == [] <==> (s == [] || !IsDigit(s[0])))
            && (r[|r| - 1] == [] <==> (s == [] || !IsDigit(s[|s| - 1])))
            && (forall i :: 0 < i < |r| - 1 ==> r[i] != [])
            && (|r| == 1 <==> AllDigits(s))
  {
    PiecesFirst(s);
    PiecesLast(s);
    PiecesInner(s);
  }

  lemma AllDigitsSnoc(t: string, c: char)
    ensures AllDigits(t + [c]) <==> AllDigits(t) && IsDigit(c)
  {
    var s := t + [c];
    assert forall i :: 0 <= i < |t| ==> s[i] == t[i];
    assert s[|t|] == c;
  }

  lemma {:induction false} PiecesSingle(s: string)
    ensures |Pieces(s)| == 1 <==> AllDigits(s)
    decreases |s|
  {
    if s != [] {
      var t, c := s[..|s| - 1], s[|s| - 1];
      assert s == t + [c];
      PiecesSingle(t);
      AllDigitsSnoc(t, c);
      if !IsDigit(c) && EndsWithNonDigit(t) {
        assert !AllDigits(t) by {
          assert !IsDigit(t[|t| - 1]);
        }
      }
    }
  }

  lemma {:induction false} PiecesLast(s: string)
    ensures var r := Pieces(s); r[|r| - 1] == [] <==> (s == [] || !IsDigit(s[|s| - 1]))
    decreases |s|
  {
    if s != [] {
      var t, c := s[..|s| - 1], s[|s| - 1];
      PiecesLast(t);
      var p := Pieces(t);
      if !IsDigit(c) && !EndsWithNonDigit(t) {
        assert Pieces(s) == p + [[]];
      }
    }
  }

  lemma {:induction false} PiecesFirst(s: string)
    ensures Pieces(s)[0] == [] <==> (s == [] || !IsDigit(s[0]))
    decreases |s|
  {
    if s != [] {
      var t, c := s[..|s| - 1], s[|s| - 1];
      assert s == t + [c];
      PiecesFirst(t);
      PiecesSingle(t);
      var p, r := Pieces(t), Pieces(s);
      if t != [] {
        assert s[0] == t[0];
        if IsDigit(c) && |p| == 1 {
          assert AllDigits(t);
          assert IsDigit(t[0]);
        }
      }
      if IsDigit(c) && |p| > 1 {
        assert r[0] == p[0];
      }
    }
  }

  lemma {:induction false} PiecesInner(s: string)
    ensures var r := Pieces(s); forall i :: 0 < i < |r| - 1 ==> r[i] != []
    decreases |s|
  {
    if s != [] {
      var t, c := s[..|s| - 1], s[|s| - 1];
      PiecesInner(t);
      PiecesLast(t);
      var p, r := Pieces(t), Pieces(s);
      if IsDigit(c) {
        assert forall i :: 0 <= i < |p| - 1 ==> r[i] == p[i];
      } else if !EndsWithNonDigit(t) {
        assert r == p + [[]];
        assert forall i :: 0 <= i < |p| ==> r[i] == p[i];
      }
    }
  }

  /** Every piece is a run of digits. */
  lemma {:induction false} PiecesAreDigitRuns(s: string)
    ensures forall i :: 0 <= i < |Pieces(s)| ==> AllDigits(Pieces(s)[i])
    decreases |s|
  {
    if s != [] {
      var t, c := s[..|s| - 1], s[|s| - 1];
      PiecesAreDigitRuns(t);
      var p, r := Pieces(t), Pieces(s);
      if IsDigit(c) {
        forall i | 0 <= i < |r|
          ensures AllDigits(r[i])
        {
          if i < |r| - 1 {
            assert r[i] == p[i];
          } else {
            var d := p[|p| - 1];
            assert AllDigits(d);
            assert forall j :: 0 <= j < |d| ==> r[i][j] == d[j];
          }
        }
      } else if !EndsWithNonDigit(t) {
        assert r == p + [[]];
      }
    }
  }

  /** There is one piece more than there are maximal separator runs. */
  lemma {:induction false} PiecesCount(s: string)
    ensures |Pieces(s)| == |SeparatorStarts(s)| + 1
    decreases |s|
  {
    if s == [] {
      assert SeparatorStarts(s) == {};
    } else {
      var t, c := s[..|s| - 1], s[|s| - 1];
      assert s == t + [c];
      PiecesCount(t);
      SeparatorStartsSnoc(t, c);
    }
  }

  /** The pieces hold exactly the digits of the text, in order: nothing but separators is dropped. */
  lemma {:induction false} PiecesContents(s: string)
    ensures Concat(Pieces(s)) == Digits(s)
    decreases |s|
  {
    if s != [] {
      var t, c := s[..|s| - 1], s[|s| - 1];
      PiecesContents(t);
      var p, r := Pieces(t), Pieces(s);
      ConcatFront(p);
      ConcatFront(r);
      if IsDigit(c) {
        var front, last := p[..|p| - 1], p[|p| - 1];
        assert r[..|r| - 1] == front && r[|r| - 1] == last + [c];
        Regroup(Concat(front), last, [c]);
      } else if !EndsWithNonDigit(t) {
        assert r[..|r| - 1] == p && r[|r| - 1] == [];
      }
    }
  }

  // ---------------------------------------------------------------------------------------------
  // Properties of the parser

  /**
   Splitting after a separator: when `x` ends with a non-digit, the pieces of `x + y` are those of
   `x` without its empty last piece, followed by the pieces of `y` (whose own leading separator
   merges into the one ending `x`).
   */
  lemma {:induction false} PiecesAfterSeparator(x: string, y: string)
    requires EndsWithNonDigit(x)
    ensures Pieces(x + y) == Pieces(x)[..|Pieces(x)| - 1] + Continuation(y)
    decreases |y|
  {
    var px := Pieces(x);
    var f := px[..|px| - 1];
    if y == [] {
      AppendEmpty(x);
      PiecesAfterSeparatorNothing(x);
    } else {
      var y', c := y[..|y| - 1], y[|y| - 1];
      SplitLast(y);
      AppendSnoc(x, y', c);
      PiecesAfterSeparator(x, y');
      if y' == [] {
        AppendEmpty(x);
        PiecesAfterSeparatorOne(x, c);
      } else if IsDigit(c) {
        PiecesAfterSeparatorDigit(f, x, y', c);
      } else {
        PiecesAfterSeparatorNonDigit(f, x, y', c);
      }
    }
  }

  /** The base of `PiecesAfterSeparator`: the pieces of `x` end with an empty piece. */
  lemma PiecesAfterSeparatorNothing(x: string)
    requires EndsWithNonDigit(x)
    ensures Pieces(x) == Pieces(x)[..|Pieces(x)| - 1] + Continuation([])
  {
    PiecesLast(x);
    var px := Pieces(x);
    assert px == px[..|px| - 1] + [[]];
  }

  /** The step of `PiecesAfterSeparator` for a one-character `y`. */
  lemma PiecesAfterSeparatorOne(x: string, c: char)
    requires EndsWithNonDigit(x)
    ensures Pieces(x + [c]) == Pieces(x)[..|Pieces(x)| - 1] + Continuation([c])
  {
    PiecesLast(x);
    PiecesSnoc(x, c);
    PiecesOfOne(c);
    ExtendAfterSeparator(Pieces(x), c);
  }

  /** Extending pieces that end with an empty piece, after a separator. */
  lemma ExtendAfterSeparator(p: seq<string>, c: char)
    requires p != [] && p[|p| - 1] == []
    ensures Extend(p, c, true) == p[..|p| - 1] + (if IsDigit(c) then [[c]] else [[]])
  {
    assert p == p[..|p| - 1] + [[]];
    assert [] + [c] == [c];
  }

  /** The pieces of a one-character text. */
  lemma PiecesOfOne(c: char)
    ensures Pieces([c]) == if IsDigit(c) then [[c]] else [[], []]
    ensures Continuation([c]) == if IsDigit(c) then [[c]] else [[]]
  {
    var empty: string := [];
    PiecesSnoc(empty, c);
    assert empty + [c] == [c];
    assert Pieces(empty) == [[]];
    if IsDigit(c) {
      assert [[]][..0] + [[] + [c]] == [[c]];
    } else {
      var two: seq<string> := [[], []];
      assert two[1..] == [[]];
    }
  }

  /** The step of `PiecesAfterSeparator` for a digit appended to a non-empty `y'`. */
  lemma PiecesAfterSeparatorDigit(f: seq<string>, x: string, y': string, c: char)
    requires EndsWithNonDigit(x) && y' != [] && IsDigit(c)
    requires Pieces(x + y') == f + Continuation(y')
    ensures Pieces(x + y' + [c]) == f + Continuation(y' + [c])
  {
    var t, y := x + y', y' + [c];
    var q, cont := Pieces(y'), Continuation(y');
    PiecesOfSeparatedFront(y');
    var w := cont[|cont| - 1] + [c];
    assert Pieces(t + [c]) == f + (cont[..|cont| - 1] + [w]) by {
      PiecesSnoc(t, c);
      SnocLastAssoc(f, cont, w);
    }
    assert Pieces(y) == q[..|q| - 1] + [q[|q| - 1] + [c]] by {
      PiecesSnoc(y', c);
    }
    assert y[0] == y'[0];
    if StartsWithNonDigit(y') {
      assert Continuation(y) == cont[..|cont| - 1] + [w] by {
        DropFirstOfSnocLast(q, w);
      }
    } else {
      assert Continuation(y) == cont[..|cont| - 1] + [w] by {
      }
    }
  }

  /** Each character adds at most one piece to the split. */
  lemma {:induction false} PiecesBound(s: string)
    ensures |Pieces(s)| <= |s| + 1
    decreases |s|
  {
    if s != [] {
      PiecesBound(s[..|s| - 1]);
    }
  }

  lemma PiecesSnoc(t: string, c: char)
    ensures Pieces(t + [c]) == Extend(Pieces(t), c, EndsWithNonDigit(t))
  {
    assert (t + [c])[..|t + [c]| - 1] == t;
  }

  /** The step of `PiecesAfterSeparator` for a separator appended to a non-empty `y'`. */
  lemma PiecesAfterSeparatorNonDigit(f: seq<string>, x: string, y': string, c: char)
    requires EndsWithNonDigit(x) && y' != [] && !IsDigit(c)
    requires Pieces(x + y') == f + Continuation(y')
    ensures Pieces(x + y' + [c]) == f + Continuation(y' + [c])
  {
    var t, y := x + y', y' + [c];
    assert (t + [c])[..|t + [c]| - 1] == t;
    assert y[..|y| - 1] == y';
    assert y[0] == y'[0];
    assert t[|t| - 1] == y'[|y'| - 1];
    assert x + y' + [c] == t + [c];
    var q, cont := Pieces(y'), Continuation(y');
    if !EndsWithNonDigit(y') {
      Regroup(f, cont, [[]]);
      if StartsWithNonDigit(y') {
        PiecesOfSeparatedFront(y');
        DropFirstOfSnoc(q, []);
      }
    }
  }

  /** A text starting with a separator splits into an empty piece and at least one more. */
  lemma PiecesOfSeparatedFront(s: string)
    ensures StartsWithNonDigit(s) ==> |Pieces(s)| >= 2 && Pieces(s)[0] == []
  {
    PiecesShape(s);
    assert StartsWithNonDigit(s) ==> !AllDigits(s);
  }

  lemma SnocLastAssoc(f: seq<string>, cont: seq<string>, w: string)
    requires cont != []
    ensures (f + cont)[..|f + cont| - 1] + [w] == f + (cont[..|cont| - 1] + [w])
    ensures (f + cont)[|f + cont| - 1] == cont[|cont| - 1]
  {
  }

  lemma DropFirstOfSnoc(q: seq<string>, w: string)
    requires q != []
    ensures (q + [w])[1..] == q[1..] + [w]
  {
  }

  lemma DropFirstOfSnocLast(q: seq<string>, w: string)
    requires |q| >= 2
    ensures (q[..|q| - 1] + [w])[1..] == q[1..][..|q| - 2] + [w]
    ensures q[1..][|q| - 2] == q[|q| - 1]
  {
  }

  /** Appending a separator character never changes the parsed page list. */
  lemma NumbersSplitSeparatorSuffix(x: string, c: char)
    requires !IsDigit(c)
    ensures NumbersSplit(x + [c]) == NumbersSplit(x)
  {
    var s := x + [c];
    assert s[..|s| - 1] == x;
    var p := Pieces(x);
    if !EndsWithNonDigit(x) {
      assert Pieces(s) == p + [[]];
      assert (p + [[]])[..|p|] == p;
    }
  }

  /**
   Order preservation without deduplication: the pages of two texts joined by a separator are the
   pages of the first followed by the pages of the second.
   */
  lemma {:induction false} NumbersSplitAppend(x: string, c: char, y: string)
    requires !IsDigit(c)
    ensures NumbersSplit(x + [c] + y) == NumbersSplit(x) + NumbersSplit(y)
  {
    var x' := x + [c];
    NumbersSplitSeparatorSuffix(x, c);
    PiecesAfterSeparator(x', y);
    var px := Pieces(x');
    var f, cont := px[..|px| - 1], Continuation(y);
    ConvertDropSeparatorEnd(x');
    ConvertContinuation(y);
    ConvertAppend(f, cont);
  }

  lemma ConvertDropSeparatorEnd(x: string)
    requires EndsWithNonDigit(x)
    ensures Convert(Pieces(x)[..|Pieces(x)| - 1]) == NumbersSplit(x)
  {
    var px := Pieces(x);
    var f := px[..|px| - 1];
    PiecesLast(x);
    SplitLast(px);
    ConvertAppend(f, [[]]);
    ConvertSingle([]);
  }

  lemma ConvertContinuation(y: string)
    ensures Convert(Continuation(y)) == NumbersSplit(y)
  {
    if StartsWithNonDigit(y) {
      PiecesShape(y);
      ConvertDropEmptyFirst(Pieces(y));
    }
  }

  /** A lone digit run parses to its value minus one, or to nothing when its value is 0. */
  lemma NumbersSplitRun(d: string)
    requires d != [] && AllDigits(d)
    ensures NumbersSplit(d) == if Value(d) == 0 then [] else [Value(d) - 1]
  {
    PiecesOfRun(d);
    ConvertSingle(d);
  }

  /** A digit run is a single piece. */
  lemma {:induction false} PiecesOfRun(d: string)
    requires AllDigits(d)
    ensures Pieces(d) == [d]
    decreases |d|
  {
    if d != [] {
      var t, c := d[..|d| - 1], d[|d| - 1];
      assert d == t + [c];
      AllDigitsSnoc(t, c);
      PiecesOfRun(t);
    }
  }

  /** A text without digits has no page references. */
  lemma {:induction false} NumbersSplitNoDigits(s: string)
    requires forall i :: 0 <= i < |s| ==> !IsDigit(s[i])
    ensures NumbersSplit(s) == []
    decreases |s|
  {
    if s != [] {
      var t := s[..|s| - 1];
      assert s == t + [s[|s| - 1]];
      NumbersSplitSeparatorSuffix(t, s[|s| - 1]);
      NumbersSplitNoDigits(t);
    }
  }

  /**
   Every page index comes from a digit run: adding one gives back the (non-zero) value of one of the
   pieces, so each result is a zero-based index and no result comes from a run reading 0.
   */
  lemma NumbersSplitFromRuns(s: string)
    ensures forall k :: 0 <= k < |NumbersSplit(s)| ==>
              exists i :: 0 <= i < |Pieces(s)| && PieceGives(Pieces(s)[i], NumbersSplit(s)[k])
  {
    PiecesAreDigitRuns(s);
    ConvertFromPieces(Pieces(s));
    assert NumbersSplit(s) == Convert(Pieces(s));
  }

  /** The piece is a non-empty digit run reading `page + 1`. */
  predicate PieceGives(piece: string, page: nat) {
    piece != [] && AllDigits(piece) && Value(piece) == page + 1
  }

  lemma {:induction false} ConvertFromPieces(ps: seq<string>)
    requires forall i :: 0 <= i < |ps| ==> AllDigits(ps[i])
    ensures forall k :: 0 <= k < |Convert(ps)| ==> exists i :: 0 <= i < |ps| && PieceGives(ps[i], Convert(ps)[k])
    decreases |ps|
  {
    if ps != [] {
      var front := ps[..|ps| - 1];
      ConvertFromPieces(front);
      var r, last := Convert(ps), ps[|ps| - 1];
      assert r == Convert(front) + PageOf(last);
      forall k | 0 <= k < |r|
        ensures exists i :: 0 <= i < |ps| && PieceGives(ps[i], r[k])
      {
        if k < |Convert(front)| {
          var i :| 0 <= i < |front| && PieceGives(front[i], Convert(front)[k]);
          assert ps[i] == front[i] && r[k] == Convert(front)[k];
          assert PieceGives(ps[i], r[k]);
        } else {
          assert PageOf(last) != [] && r[k] == PageOf(last)[0];
          assert PieceGives(last, r[k]);
        }
      }
    } else {
      assert Convert(ps) == [];
    }
  }

  /** The docstring case without digits. */
  lemma NoNumbersExample()
    ensures NumbersSplit("no numbers here") == []
  {
    NumbersSplitNoDigits("no numbers here");
  }

  /** The reply the page-locating prompt asks for when no page answers: it names no page. */
  lemma ZeroExample()
    ensures NumbersSplit("0") == []
  {
    NumbersSplitRun("0");
  }

  // ---------------------------------------------------------------------------------------------
  // A one-pass scanner, as an independent reference for the split-then-filter definition

  /**
   Reads the text once from left to right, accumulating the value of the current digit run and
   emitting the zero-based page when the run ends; it computes exactly `numbers_split`.
   */
  method ScanPageRefs(s: string) returns (pages: seq<nat>)
    ensures pages == NumbersSplit(s)
  {
    var st := ScanState([], 0, false);
    var i := 0;
    assert s[..0] == [];
    while i < |s|
      invariant 0 <= i <= |s|
      invariant Tracks(st, s[..i])
    {
      ScanCharTracks(st, s[..i], s[i]);
      assert s[..i + 1] == s[..i] + [s[i]];
      st := ScanChar(st, s[i]);
      i := i + 1;
    }
    assert s[..i] == s;
    FinishTracks(st, s);
    pages := Finish(st);
  }

  /** The scanner's state: pages emitted so far, value of the open digit run, and whether one is open. */
  datatype ScanState = ScanState(pages: seq<nat>, value: nat, inRun: bool)

  function ScanChar(st: ScanState, c: char): ScanState {
    if IsDigit(c) then st.(value := st.value * 10 + DigitValue(c), inRun := true)
    else if st.inRun then ScanState(st.pages + (if st.value != 0 then [st.value - 1] else []), 0, false)
    else st
  }

  function Finish(st: ScanState): seq<nat> {
    if st.inRun && st.value != 0 then st.pages + [st.value - 1] else st.pages
  }

  /** The scanner state after reading `t` agrees with the pieces of `t`. */
  predicate Tracks(st: ScanState, t: string) {
    var p := Pieces(t);
    && st.pages == Convert(Front(p))
    && st.value == Value(Last(p))
    && (st.inRun <==> EndsWithDigit(t))
  }

  lemma ScanCharTracks(st: ScanState, t: string, c: char)
    requires Tracks(st, t)
    ensures Tracks(ScanChar(st, c), t + [c])
  {
    var p, q := Pieces(t), Pieces(t + [c]);
    ScanStep(t, c);
    if !IsDigit(c) {
      if st.inRun {
        ConvertFrontLast(p);
      } else if t == [] {
        assert Front(q) == [[]];
        ConvertFrontLast([[]]);
      }
    }
  }

  lemma FinishTracks(st: ScanState, t: string)
    requires Tracks(st, t)
    ensures Finish(st) == NumbersSplit(t)
  {
    ScanStep(t, 'x');
    ConvertFrontLast(Pieces(t));
  }

  function Front(p: seq<string>): seq<string>
    requires p != []
  {
    p[..|p| - 1]
  }

  function Last(p: seq<string>): string
    requires p != []
  {
    p[|p| - 1]
  }

  predicate EndsWithDigit(s: string) {
    s != [] && IsDigit(s[|s| - 1])
  }

  lemma ConvertFrontLast(p: seq<string>)
    requires p != []
    ensures Convert(p) == Convert(Front(p)) + PageOf(Last(p))
  {
  }

  /** How one more character changes the pieces, in the terms the scanner keeps. */
  lemma ScanStep(t: string, c: char)
    ensures var p, q := Pieces(t), Pieces(t + [c]);
            && (IsDigit(c) ==> Front(q) == Front(p) && Last(q) == Last(p) + [c]
                               && Value(Last(q)) == Value(Last(p)) * 10 + DigitValue(c))
            && (!IsDigit(c) && !EndsWithDigit(t) ==> q == p || (t == [] && q == [[], []]))
            && (!IsDigit(c) && EndsWithDigit(t) ==> Front(q) == p && Last(q) == [])
            && (Last(p) != [] <==> EndsWithDigit(t))
            && (Last(q) != [] <==> EndsWithDigit(t + [c]))
  {
    PiecesSnoc(t, c);
    PiecesShape(t);
    PiecesShape(t + [c]);
    var p := Pieces(t);
    if IsDigit(c) {
      var w := Last(p) + [c];
      assert w[..|w| - 1] == Last(p);
    }
  }


  /** The scanner run over `rest`, one character at a time, from state `st`. */
  function ScanText(st: ScanState, rest: string): ScanState
    decreases |rest|
  {
    if rest == [] then st else ScanText(ScanChar(st, rest[0]), rest[1..])
  }

  /** A scan continued from a state that tracks `t` ends with the pages of `t + rest`. */
  lemma {:induction false} ScanTextTracks(st: ScanState, t: string, rest: string)
    requires Tracks(st, t)
    ensures Finish(ScanText(st, rest)) == NumbersSplit(t + rest)
    decreases |rest|
  {
    if rest == [] {
      assert t + rest == t;
      FinishTracks(st, t);
    } else {
      ScanCharTracks(st, t, rest[0]);
      assert (t + [rest[0]]) + rest[1..] == t + rest;
      ScanTextTracks(ScanChar(st, rest[0]), t + [rest[0]], rest[1..]);
    }
  }

  /** The scan from the initial state computes `numbers_split`. */
  lemma NumbersSplitByScan(s: string)
    ensures NumbersSplit(s) == Finish(ScanText(ScanState([], 0, false), s))
  {
    assert Pieces([]) == [[]];
    ScanTextTracks(ScanState([], 0, false), [], s);
    assert [] + s == s;
  }

  lemma {:induction false} ScanTextAppend(st: ScanState, a: string, b: string)
    ensures ScanText(st, a + b) == ScanText(ScanText(st, a), b)
    decreases |a|
  {
    if a == [] {
      assert a + b == b;
    } else {
      assert (a + b)[1..] == a[1..] + b;
      ScanTextAppend(ScanChar(st, a[0]), a[1..], b);
    }
  }

  /** The scan over four consecutive chunks, given the state after each. */
  lemma ScanChunks(st: ScanState, a: string, b: string, c: string, d: string,
                   s1: ScanState, s2: ScanState, s3: ScanState, s4: ScanState)
    requires ScanText(st, a) == s1 && ScanText(s1, b) == s2 && ScanText(s2, c) == s3
    requires ScanText(s3, d) == s4
    ensures ScanText(st, a + b + c + d) == s4
  {
    ScanTextAppend(st, a, b);
    ScanTextAppend(st, a + b, c);
    ScanTextAppend(st, a + b + c, d);
  }

  // ---------------------------------------------------------------------------------------------
  // The documented examples, computed through the scanner

  /** Commas and spaces separate one-based pages; each comes back one lower. */
  lemma CommasExample()
    ensures NumbersSplit("1, 2, 3, 4") == [0, 1, 2, 3]
  {
    NumbersSplitByScan("1, 2, 3, 4");
    CommasScan();
  }

  lemma CommasScan()
    ensures Finish(ScanText(ScanState([], 0, false), "1, 2, 3, 4")) == [0, 1, 2, 3]
  {
    var s0 := ScanState([], 0, false);
    var s1 := ScanState([0], 0, false);
    var s2 := ScanState([0, 1], 0, false);
    var s3 := ScanState([0, 1, 2], 0, false);
    var s4 := ScanState([0, 1, 2], 4, true);
    assert ScanText(s0, "1, ") == s1;
    assert ScanText(s1, "2, ") == s2;
    assert ScanText(s2, "3, ") == s3;
    assert ScanText(s3, "4") == s4;
    assert "1, 2, 3, 4" == "1, " + "2, " + "3, " + "4";
    ScanChunks(s0, "1, ", "2, ", "3, ", "4", s1, s2, s3, s4);
  }

  /** Single letters separate as well as punctuation does. */
  lemma LettersExample()
    ensures NumbersSplit("a1b2c3") == [0, 1, 2]
  {
    NumbersSplitByScan("a1b2c3");
    LettersScan();
  }

  lemma LettersScan()
    ensures Finish(ScanText(ScanState([], 0, false), "a1b2c3")) == [0, 1, 2]
  {
    var s0 := ScanState([], 0, false);
    var s2 := ScanState([0], 0, false);
    var s3 := ScanState([0, 1], 0, false);
    var s4 := ScanState([0, 1], 3, true);
    assert ScanText(s0, "a") == s0;
    assert ScanText(s0, "1b") == s2;
    assert ScanText(s2, "2c") == s3;
    assert ScanText(s3, "3") == s4;
    assert "a1b2c3" == "a" + "1b" + "2c" + "3";
    ScanChunks(s0, "a", "1b", "2c", "3", s0, s2, s3, s4);
  }

  /** A multi-digit run is one page number. */
  lemma RunsExample()
    ensures NumbersSplit("abc123def456") == [122, 455]
  {
    NumbersSplitByScan("abc123def456");
    RunsScan();
  }

  lemma RunsScan()
    ensures Finish(ScanText(ScanState([], 0, false), "abc123def456")) == [122, 455]
  {
    var s0 := ScanState([], 0, false);
    var s1 := ScanState([], 123, true);
    var s2 := ScanState([122], 0, false);
    var s3 := ScanState([122], 456, true);
    assert ScanText(s0, "abc") == s0;
    assert ScanText(s0, "123") == s1;
    assert ScanText(s1, "def") == s2;
    assert ScanText(s2, "456") == s3;
    assert "abc123def456" == "abc" + "123" + "def" + "456";
    ScanChunks(s0, "abc", "123", "def", "456", s0, s1, s2, s3);
  }

  /** A decimal point splits a number in two, and a fractional part reading 0 is dropped. */
  lemma DecimalsExample()
    ensures NumbersSplit("10.5 and 11.0") == [9, 4, 10]
  {
    NumbersSplitByScan("10.5 and 11.0");
    DecimalsScan();
  }

  lemma DecimalsScan()
    ensures Finish(ScanText(ScanState([], 0, false), "10.5 and 11.0")) == [9, 4, 10]
  {
    var s0 := ScanState([], 0, false);
    var s1 := ScanState([9], 0, false);
    var s2 := ScanState([9, 4], 0, false);
    var s3 := ScanState([9, 4, 10], 0, false);
    var s4 := ScanState([9, 4, 10], 0, true);
    assert ScanText(s0, "10.") == s1;
    assert ScanText(s1, "5 and ") == s2;
    assert ScanText(s2, "11.") == s3;
    assert ScanText(s3, "0") == s4;
    assert "10.5 and 11.0" == "10." + "5 and " + "11." + "0";
    ScanChunks(s0, "10.", "5 and ", "11.", "0", s1, s2, s3, s4);
  }
}
