/**
 The page selection of `split_pdf`: the requested page indices are filtered to those inside the
 source document, keeping the caller's order and any repetition, and a new document is assembled
 from those pages in that order. The page import treats an empty index list as "no selection" and
 copies the whole source, so when no index survives the filter the new document is a full copy.
 A document is modelled by the sequence of its pages; what a page contains is opaque here.
 */
module PdfPages {

  /** A PDF document, abstracted to its pages. */
  datatype Pdf = Pdf(pages: seq<string>)

  predicate InRange(page: int, count: nat) {
    0 <= page < count
  }

  /** The list comprehension keeping the indices `0 <= page < count`, in order, duplicates kept. */
  function KeepInRange(pages: seq<int>, count: nat): (r: seq<nat>)
    ensures forall k :: 0 <= k < |r| ==> r[k] < count
    ensures |r| <= |pages|
  {
    if pages == [] then []
    else
      var rest := KeepInRange(pages[1..], count);
      if InRange(pages[0], count) then [pages[0] as nat] + rest else rest
  }

  /** Number of occurrences of `v` in `s`. */
  function Count(s: seq<int>, v: int): nat {
    if s == [] then 0 else (if s[0] == v then 1 else 0) + Count(s[1..], v)
  }

  /** The outcome of `split_pdf`: the kept indices it returns and the document it saves. */
  datatype Split = Split(kept: seq<nat>, pdf: Pdf)

  /**
   `split_pdf`: every kept index lies inside the source. When some index is kept, the new document
   holds exactly the source pages at the kept indices, one page per kept index, in the order given.
   When none is kept, the import receives an empty selection, which it reads as "every page", so
   the new document is a copy of the source.
   */
  function SplitPdf(source: Pdf, pages: seq<int>): (r: Split)
    ensures r.kept == KeepInRange(pages, |source.pages|)
    ensures r.kept == [] ==> r.pdf == source
    ensures r.kept != [] ==> |r.pdf.pages| == |r.kept|
    ensures r.kept != [] ==> forall i :: 0 <= i < |r.kept| ==> r.pdf.pages[i] == source.pages[r.kept[i]]
  {
    var kept := KeepInRange(pages, |source.pages|);
    if kept == [] then Split(kept, source)
    else Split(kept, Pdf(seq(|kept|, i requires 0 <= i < |kept| => source.pages[kept[i]])))
  }

  // ---------------------------------------------------------------------------------------------
  // Properties of the filter

  /** The filter distributes over concatenation: it works element by element and keeps order. */
  lemma {:induction false} KeepInRangeAppend(a: seq<int>, b: seq<int>, count: nat)
    ensures KeepInRange(a + b, count) == KeepInRange(a, count) + KeepInRange(b, count)
    decreases |a|
  {
    if a == [] {
      assert a + b == b;
    } else {
      assert (a + b)[1..] == a[1..] + b;
      KeepInRangeAppend(a[1..], b, count);
    }
  }

  /** On one index the filter keeps it exactly when it is a page of the document. */
  lemma KeepInRangeSingle(page: int, count: nat)
    ensures KeepInRange([page], count) == if InRange(page, count) then [page as nat] else []
  {
    assert [page][1..] == [];
  }

  /**
   Nothing but out-of-range indices is removed and nothing is added: every in-range index occurs
   in the result exactly as often as in the request, every other value not at all.
   */
  lemma {:induction false} KeepInRangeCounts(pages: seq<int>, count: nat, v: int)
    ensures Count(KeepInRange(pages, count), v) == if InRange(v, count) then Count(pages, v) else 0
    decreases |pages|
  {
    if pages != [] {
      KeepInRangeCounts(pages[1..], count, v);
      var rest := KeepInRange(pages[1..], count);
      if InRange(pages[0], count) {
        assert ([pages[0] as int] + rest)[1..] == rest;
      }
    }
  }

  /** A request that names only pages of the document is passed through unchanged. */
  lemma {:induction false} KeepInRangeAllValid(pages: seq<int>, count: nat)
    requires forall k :: 0 <= k < |pages| ==> InRange(pages[k], count)
    ensures KeepInRange(pages, count) == pages
    decreases |pages|
  {
    if pages != [] {
      KeepInRangeAllValid(pages[1..], count);
    }
  }

  /** A request that names no page of the document is filtered to nothing. */
  lemma {:induction false} KeepInRangeNoneValid(pages: seq<int>, count: nat)
    requires forall k :: 0 <= k < |pages| ==> !InRange(pages[k], count)
    ensures KeepInRange(pages, count) == []
    decreases |pages|
  {
    if pages != [] {
      KeepInRangeNoneValid(pages[1..], count);
    }
  }

  /** Filtering twice is filtering once. */
  lemma KeepInRangeIdempotent(pages: seq<int>, count: nat)
    ensures KeepInRange(KeepInRange(pages, count), count) == KeepInRange(pages, count)
  {
    KeepInRangeAllValid(KeepInRange(pages, count), count);
  }
}
