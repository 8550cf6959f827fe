/**
 `checksize` and `process_file_links`: candidate report links are visited in order under a byte
 budget. Each link's size is probed first; a link that is too large is skipped, one that would push
 the running total past the batch cap costs a fixed penalty and is skipped, and any other link is
 charged, recorded, downloaded and answered. Once the running total reaches the stop threshold the
 remaining links are not looked at. A failed download (a request exception) is reported and the
 loop goes on with the next link.

 The network is an oracle: what the size probe reports for a link (`None` when the probe raises or
 the header is missing), what the download yields (`None` for a request exception), and the
 generative model used by the answerer.
 */
module Budget {
  import opened Wrappers
  import opened PdfPages
  import opened Answerer
  import opened Seqs

  const StopThreshold: int := 3 * 1000 * 1000
  const PerFileLimit: int := 7 * 1000 * 1000
  const BatchLimit: int := 10 * 1000 * 1000
  const OverflowPenalty: int := 100 * 1000
  const UnknownSize: int := 100 * 1000 * 1000

  /** The question asked of every downloaded report. */
  const Question: string := "What are the key impacts of this company?"

  /** The outside world seen by the pipeline. */
  datatype Web = Web(
    contentLength: string -> Option<int>,
    download: string -> Option<Pdf>,
    model: Model)

  /**
   `checksize`: the advertised size when the probe reads one, otherwise a size at or above the
   per-file limit, so that an unreadable link is never downloaded.
   */
  function CheckSize(web: Web, url: string): (size: int)
    ensures web.contentLength(url).Some? ==> size == web.contentLength(url).value
    ensures web.contentLength(url).None? ==> size == UnknownSize && size >= PerFileLimit
  {
    match web.contentLength(url)
    case Some(n) => n
    case None => UnknownSize
  }

  /** What the budget decides for a link of `size` bytes when `sizeSum` bytes are already taken. */
  datatype Verdict = TooLarge | Overflow | Admit

  function Decide(sizeSum: int, size: int): Verdict {
    if size >= PerFileLimit then TooLarge
    else if sizeSum + size >= BatchLimit then Overflow
    else Admit
  }

  /** The answer the pipeline records for a downloaded report. */
  function AnswerFor(web: Web, pdf: Pdf): Answer {
    PdfAnswerer(Question, pdf, web.model)
  }

  /** The state of the loop: the running total and the three result lists. */
  datatype Scan = Scan(sizeSum: int, links: seq<string>, summaries: seq<string>, pageses: seq<seq<nat>>)

  const Start: Scan := Scan(0, [], [], [])

  /**
   One pass of the loop body after the stop test. A link is recorded before it is downloaded, so
   a link whose download fails stays in `links` while nothing is added to `summaries` or `pageses`.
   */
  function Visit(st: Scan, url: string, web: Web): (r: Scan)
    ensures Decide(st.sizeSum, CheckSize(web, url)) == TooLarge ==> r == st
    ensures Decide(st.sizeSum, CheckSize(web, url)) == Overflow ==>
      r == st.(sizeSum := st.sizeSum + OverflowPenalty)
    ensures Decide(st.sizeSum, CheckSize(web, url)) == Admit ==>
      && r.sizeSum == st.sizeSum + CheckSize(web, url)
      && r.links == st.links + [url]
      && r.summaries == st.summaries + SummaryOf(url, web)
      && r.pageses == st.pageses + PagesFor(url, web)
  {
    var size := CheckSize(web, url);
    match Decide(st.sizeSum, size)
    case TooLarge => st
    case Overflow => st.(sizeSum := st.sizeSum + OverflowPenalty)
    case Admit =>
      var charged := st.(sizeSum := st.sizeSum + size, links := st.links + [url]);
      match web.download(url)
      case None => charged
      case Some(pdf) =>
        var a := AnswerFor(web, pdf);
        charged.(summaries := charged.summaries + [a.summary], pageses := charged.pageses + [a.pages])
  }

  /**
   A link whose size cannot be probed is charged as far larger than the per-file limit, so it is
   skipped without touching the running total or the lists.
   */
  lemma FailedProbeSkipped(st: Scan, url: string, web: Web)
    requires web.contentLength(url).None?
    ensures Visit(st, url, web) == st
  {
    assert Decide(st.sizeSum, CheckSize(web, url)) == TooLarge;
  }

  /** `a` is a subsequence of `b`: its elements occur in `b` in the same order. */
  predicate Sub(a: seq<string>, b: seq<string>)
    decreases |b|
  {
    if a == [] then true
    else if b == [] then false
    else (a[0] == b[0] && Sub(a[1..], b[1..])) || Sub(a, b[1..])
  }

  /** The probed sizes of `links`, added up. */
  function TotalSize(links: seq<string>, web: Web): int {
    if links == [] then 0 else CheckSize(web, links[0]) + TotalSize(links[1..], web)
  }

  /** The summary recorded for one link: none when its download fails. */
  function SummaryOf(url: string, web: Web): (r: seq<string>)
    ensures |r| == if web.download(url).Some? then 1 else 0
  {
    match web.download(url)
    case None => []
    case Some(pdf) => [AnswerFor(web, pdf).summary]
  }

  /** The page list recorded for one link: none when its download fails. */
  function PagesFor(url: string, web: Web): (r: seq<seq<nat>>)
    ensures |r| == if web.download(url).Some? then 1 else 0
  {
    match web.download(url)
    case None => []
    case Some(pdf) => [AnswerFor(web, pdf).pages]
  }

  /** The summaries of those of `links` whose download succeeds, in order. */
  function SummariesOf(links: seq<string>, web: Web): seq<string> {
    if links == [] then [] else SummaryOf(links[0], web) + SummariesOf(links[1..], web)
  }

  /** The page lists of those of `links` whose download succeeds, in order. */
  function PagesOf(links: seq<string>, web: Web): seq<seq<nat>> {
    if links == [] then [] else PagesFor(links[0], web) + PagesOf(links[1..], web)
  }

  /** Those of `links` whose download succeeds, in order. */
  function Downloaded(links: seq<string>, web: Web): (r: seq<string>)
    ensures |r| <= |links|
    ensures forall i :: 0 <= i < |r| ==> web.download(r[i]).Some?
    ensures |r| == |links| <==> forall i :: 0 <= i < |links| ==> web.download(links[i]).Some?
  {
    if links == [] then []
    else (if web.download(links[0]).Some? then [links[0]] else []) + Downloaded(links[1..], web)
  }

  /** The links a run records beyond those it started with. */
  function Added(r: Scan, st: Scan): seq<string>
    requires |st.links| <= |r.links|
  {
    r.links[|st.links|..]
  }

  /**
   The `for` loop with its `break`. From any starting state, the run only appends: the links it
   adds occur in `urls` in the same order; the running total grows by exactly the probed sizes of
   the links it adds, so the overflow penalty is never charged; and the summaries and page lists
   grow by the answers for the added links that downloaded, in the same order.
   */
  function Loop(urls: seq<string>, st: Scan, web: Web): (r: Scan)
    ensures |st.links| <= |r.links| && r.links[..|st.links|] == st.links
    ensures Sub(Added(r, st), urls)
    ensures r.sizeSum == st.sizeSum + TotalSize(Added(r, st), web)
    ensures r.summaries == st.summaries + SummariesOf(Added(r, st), web)
    ensures r.pageses == st.pageses + PagesOf(Added(r, st), web)
    ensures st.sizeSum < BatchLimit ==> r.sizeSum < BatchLimit
    decreases |urls|
  {
    if urls == [] then
      assert Added(st, st) == [];
      st
    else if st.sizeSum >= StopThreshold then
      assert Added(st, st) == [];
      st
    else
      var next := Visit(st, urls[0], web);
      var r := Loop(urls[1..], next, web);
      VisitAccounts(st, urls, web, r);
      r
  }

  /** The step case of `Loop`'s contract: one visit followed by the rest of the run. */
  lemma VisitAccounts(st: Scan, urls: seq<string>, web: Web, r: Scan)
    requires urls != [] && st.sizeSum < StopThreshold
    requires var next := Visit(st, urls[0], web);
      && |next.links| <= |r.links| && r.links[..|next.links|] == next.links
      && Sub(Added(r, next), urls[1..])
      && r.sizeSum == next.sizeSum + TotalSize(Added(r, next), web)
      && r.summaries == next.summaries + SummariesOf(Added(r, next), web)
      && r.pageses == next.pageses + PagesOf(Added(r, next), web)
    ensures |st.links| <= |r.links| && r.links[..|st.links|] == st.links
    ensures Sub(Added(r, st), urls)
    ensures r.sizeSum == st.sizeSum + TotalSize(Added(r, st), web)
    ensures r.summaries == st.summaries + SummariesOf(Added(r, st), web)
    ensures r.pageses == st.pageses + PagesOf(Added(r, st), web)
  {
    var url := urls[0];
    var next := Visit(st, url, web);
    var rest := Added(r, next);
    match Decide(st.sizeSum, CheckSize(web, url))
    case TooLarge =>
      SubSkip(rest, urls);
    case Overflow =>
      assert false;
    case Admit =>
      AdmitAccounts(st, next, r, url, web);
      assert ([url] + rest)[1..] == rest;
  }

  /** The admitting visit: the link, its size and its answer (if it downloaded) come first. */
  lemma AdmitAccounts(st: Scan, next: Scan, r: Scan, url: string, web: Web)
    requires next.links == st.links + [url]
    requires next.sizeSum == st.sizeSum + CheckSize(web, url)
    requires next.summaries == st.summaries + SummaryOf(url, web)
    requires next.pageses == st.pageses + PagesFor(url, web)
    requires |next.links| <= |r.links| && r.links[..|next.links|] == next.links
    requires r.sizeSum == next.sizeSum + TotalSize(Added(r, next), web)
    requires r.summaries == next.summaries + SummariesOf(Added(r, next), web)
    requires r.pageses == next.pageses + PagesOf(Added(r, next), web)
    ensures |st.links| <= |r.links| && r.links[..|st.links|] == st.links
    ensures Added(r, st) == [url] + Added(r, next)
    ensures r.sizeSum == st.sizeSum + TotalSize(Added(r, st), web)
    ensures r.summaries == st.summaries + SummariesOf(Added(r, st), web)
    ensures r.pageses == st.pageses + PagesOf(Added(r, st), web)
  {
    AddedAfterAdmit(st, next, r, url);
    var rest := Added(r, next);
    ListsOfCons(url, rest, web);
    Regroup(st.summaries, SummaryOf(url, web), SummariesOf(rest, web));
    Regroup(st.pageses, PagesFor(url, web), PagesOf(rest, web));
  }

  /** Skipping a candidate keeps the recorded links a subsequence of the candidates. */
  lemma SubSkip(a: seq<string>, b: seq<string>)
    requires b != [] && Sub(a, b[1..])
    ensures Sub(a, b)
  {
  }

  lemma AddedAfterAdmit(st: Scan, next: Scan, r: Scan, url: string)
    requires next.links == st.links + [url]
    requires |next.links| <= |r.links| && r.links[..|next.links|] == next.links
    ensures |st.links| <= |r.links| && r.links[..|st.links|] == st.links
    ensures Added(r, st) == [url] + Added(r, next)
  {
    assert r.links[..|st.links|] == next.links[..|st.links|];
    assert r.links[|st.links|] == url;
  }

  lemma ListsOfCons(url: string, rest: seq<string>, web: Web)
    ensures TotalSize([url] + rest, web) == CheckSize(web, url) + TotalSize(rest, web)
    ensures SummariesOf([url] + rest, web) == SummaryOf(url, web) + SummariesOf(rest, web)
    ensures PagesOf([url] + rest, web) == PagesFor(url, web) + PagesOf(rest, web)
  {
    assert ([url] + rest)[1..] == rest;
  }

  /**
   `process_file_links`: the loop from an empty state. The recorded links are candidates in
   candidate order; their probed sizes add up to the final total, which stays below the batch cap.
   The summaries and page lists are those of the recorded links that downloaded, in order.
   */
  function ProcessFileLinks(urls: seq<string>, web: Web): (r: Scan)
    ensures Sub(r.links, urls)
    ensures r.sizeSum == TotalSize(r.links, web) < BatchLimit
    ensures r.summaries == SummariesOf(r.links, web)
    ensures r.pageses == PagesOf(r.links, web)
  {
    var r := Loop(urls, Start, web);
    assert Added(r, Start) == r.links;
    r
  }

  // ---------------------------------------------------------------------------------------------
  // The loop as a fold

  /** Running the loop over `p + q` is running it over `p` and then over `q`. */
  lemma {:induction false} LoopAppend(p: seq<string>, q: seq<string>, st: Scan, web: Web)
    ensures Loop(p + q, st, web) == Loop(q, Loop(p, st, web), web)
    decreases |p|
  {
    if p == [] {
      assert p + q == q;
    } else if st.sizeSum >= StopThreshold {
      assert Loop(q, st, web) == st by {
        if q != [] {}
      }
    } else {
      assert (p + q)[1..] == p[1..] + q;
      LoopAppend(p[1..], q, Visit(st, p[0], web), web);
    }
  }

  /** Once the total reaches the stop threshold, the remaining candidates change nothing. */
  lemma LoopStops(p: seq<string>, q: seq<string>, st: Scan, web: Web)
    requires Loop(p, st, web).sizeSum >= StopThreshold
    ensures Loop(p + q, st, web) == Loop(p, st, web)
  {
    LoopAppend(p, q, st, web);
    if q != [] {}
  }

  /** Whatever the sizes, the loop ends either past the stop threshold or after the last candidate. */
  lemma ProcessFileLinksStopsOnlyAtThreshold(urls: seq<string>, more: seq<string>, web: Web)
    requires ProcessFileLinks(urls, web).sizeSum >= StopThreshold
    ensures ProcessFileLinks(urls + more, web) == ProcessFileLinks(urls, web)
  {
    LoopStops(urls, more, Start, web);
  }

  /** With sizes that are never negative, the running total never decreases. */
  lemma SizeSumNeverDecreases(urls: seq<string>, st: Scan, web: Web)
    requires forall u :: web.contentLength(u).Some? ==> web.contentLength(u).value >= 0
    ensures Loop(urls, st, web).sizeSum >= st.sizeSum
  {
    var r := Loop(urls, st, web);
    TotalSizeNonNegative(Added(r, st), web);
  }

  lemma {:induction false} TotalSizeNonNegative(links: seq<string>, web: Web)
    requires forall u :: web.contentLength(u).Some? ==> web.contentLength(u).value >= 0
    ensures TotalSize(links, web) >= 0
    decreases |links|
  {
    if links != [] {
      TotalSizeNonNegative(links[1..], web);
    }
  }

  // ---------------------------------------------------------------------------------------------
  // Which summary belongs to which link

  /** There is one summary and one page list for each recorded link that downloaded. */
  lemma {:induction false} ListLengths(links: seq<string>, web: Web)
    ensures |SummariesOf(links, web)| == |PagesOf(links, web)| == |Downloaded(links, web)|
    decreases |links|
  {
    if links != [] {
      ListLengths(links[1..], web);
    }
  }

  /**
   The three lists `process_file_links` returns have equal length exactly when every recorded
   link downloaded; otherwise there are fewer summaries and page lists than links.
   */
  lemma ResultListsAlign(urls: seq<string>, web: Web)
    ensures var r := ProcessFileLinks(urls, web);
      && |r.summaries| == |r.pageses| == |Downloaded(r.links, web)| <= |r.links|
      && (|r.summaries| == |r.links| <==>
            forall i :: 0 <= i < |r.links| ==> web.download(r.links[i]).Some?)
  {
    var r := ProcessFileLinks(urls, web);
    ListLengths(r.links, web);
  }

  /** On links that all downloaded, the i-th summary and page list are the i-th link's answer. */
  lemma AllDownloadedAligned(links: seq<string>, web: Web)
    requires forall i :: 0 <= i < |links| ==> web.download(links[i]).Some?
    ensures |SummariesOf(links, web)| == |PagesOf(links, web)| == |links|
    ensures forall i :: 0 <= i < |links| ==>
      && SummariesOf(links, web)[i] == AnswerFor(web, web.download(links[i]).value).summary
      && PagesOf(links, web)[i] == AnswerFor(web, web.download(links[i]).value).pages
  {
    SummariesAligned(links, web);
    PagesAligned(links, web);
  }

  lemma {:induction false} SummariesAligned(links: seq<string>, web: Web)
    requires forall i :: 0 <= i < |links| ==> web.download(links[i]).Some?
    ensures |SummariesOf(links, web)| == |links|
    ensures forall i :: 0 <= i < |links| ==>
      SummariesOf(links, web)[i] == AnswerFor(web, web.download(links[i]).value).summary
    decreases |links|
  {
    if links != [] {
      var tail := links[1..];
      SummariesAligned(tail, web);
      var x := AnswerFor(web, web.download(links[0]).value).summary;
      assert SummaryOf(links[0], web) == [x];
      var whole := SummariesOf(links, web);
      ConsIndex(x, SummariesOf(tail, web), whole);
      forall i | 1 <= i < |links|
        ensures whole[i] == AnswerFor(web, web.download(links[i]).value).summary
      {
        assert tail[i - 1] == links[i];
      }
    }
  }

  lemma {:induction false} PagesAligned(links: seq<string>, web: Web)
    requires forall i :: 0 <= i < |links| ==> web.download(links[i]).Some?
    ensures |PagesOf(links, web)| == |links|
    ensures forall i :: 0 <= i < |links| ==>
      PagesOf(links, web)[i] == AnswerFor(web, web.download(links[i]).value).pages
    decreases |links|
  {
    if links != [] {
      var tail := links[1..];
      PagesAligned(tail, web);
      var x := AnswerFor(web, web.download(links[0]).value).pages;
      assert PagesFor(links[0], web) == [x];
      var whole := PagesOf(links, web);
      ConsIndex(x, PagesOf(tail, web), whole);
      forall i | 1 <= i < |links|
        ensures whole[i] == AnswerFor(web, web.download(links[i]).value).pages
      {
        assert tail[i - 1] == links[i];
      }
    }
  }

  /** When none of `links` downloads, there is no summary and no page list at all. */
  lemma {:induction false} NothingDownloaded(links: seq<string>, web: Web)
    requires forall i :: 0 <= i < |links| ==> web.download(links[i]).None?
    ensures SummariesOf(links, web) == [] && PagesOf(links, web) == []
    decreases |links|
  {
    if links != [] {
      assert web.download(links[0]).None?;
      assert forall i :: 0 <= i < |links[1..]| ==> links[1..][i] == links[i + 1];
      NothingDownloaded(links[1..], web);
    }
  }

  /** Links that failed to download contribute nothing to the summaries or page lists. */
  lemma {:induction false} OnlyDownloadsAnswer(links: seq<string>, web: Web)
    ensures SummariesOf(Downloaded(links, web), web) == SummariesOf(links, web)
    ensures PagesOf(Downloaded(links, web), web) == PagesOf(links, web)
    decreases |links|
  {
    if links != [] {
      var u := links[0];
      var rest := Downloaded(links[1..], web);
      OnlyDownloadsAnswer(links[1..], web);
      if web.download(u).Some? {
        assert Downloaded(links, web) == [u] + rest;
        ListsOfCons(u, rest, web);
      } else {
        assert Downloaded(links, web) == rest;
        assert SummaryOf(u, web) == [] && PagesFor(u, web) == [];
        assert SummariesOf(links, web) == SummariesOf(links[1..], web);
        assert PagesOf(links, web) == PagesOf(links[1..], web);
      }
    }
  }

  // ---------------------------------------------------------------------------------------------
  // A failed download misaligns the lists

  /** Both links are small enough to be admitted one after the other from an empty budget. */
  predicate Small(web: Web, url: string) {
    web.contentLength(url).Some? && 0 <= web.contentLength(url).value < 1000 * 1000
  }

  /**
   As written, a failed download leaves its link in `links` with no summary: for a candidate `a`
   that fails followed by a candidate `b` that downloads, the first summary, which callers pair
   with the first link `a`, is the answer for `b`.
   */
  lemma FailedDownloadShiftsSummaries(web: Web, a: string, b: string, pdf: Pdf)
    requires Small(web, a) && Small(web, b)
    requires web.download(a).None? && web.download(b) == Some(pdf)
    ensures var r := ProcessFileLinks([a, b], web);
      && r.links == [a, b]
      && r.summaries == [AnswerFor(web, pdf).summary]
      && r.pageses == [AnswerFor(web, pdf).pages]
  {
    var s1 := Visit(Start, a, web);
    assert Decide(0, CheckSize(web, a)) == Admit;
    assert s1.sizeSum < StopThreshold && s1.links == [a] && s1.summaries == [] && s1.pageses == [];
    assert Decide(s1.sizeSum, CheckSize(web, b)) == Admit;
    LoopTwo(a, b, Start, web);
  }

  /** Two candidates visited while the budget stays below the stop threshold. */
  lemma LoopTwo(a: string, b: string, st: Scan, web: Web)
    requires st.sizeSum < StopThreshold && Visit(st, a, web).sizeSum < StopThreshold
    ensures Loop([a, b], st, web) == Visit(Visit(st, a, web), b, web)
  {
    var s1 := Visit(st, a, web);
    LoopStep([a, b], st, web);
    assert [a, b][1..] == [b];
    LoopStep([b], s1, web);
    assert [b][1..] == [];
    LoopStep([], Visit(s1, b, web), web);
  }

  /** One turn of the loop: stop at the end or at the threshold, otherwise visit the first candidate. */
  lemma LoopStep(urls: seq<string>, st: Scan, web: Web)
    ensures urls == [] || st.sizeSum >= StopThreshold ==> Loop(urls, st, web) == st
    ensures urls != [] && st.sizeSum < StopThreshold ==>
      Loop(urls, st, web) == Loop(urls[1..], Visit(st, urls[0], web), web)
  {
  }

  /** The corrected loop body: a link is recorded together with its answer, after the download. */
  function VisitAligned(st: Scan, url: string, web: Web): Scan {
    var size := CheckSize(web, url);
    match Decide(st.sizeSum, size)
    case TooLarge => st
    case Overflow => st.(sizeSum := st.sizeSum + OverflowPenalty)
    case Admit =>
      var charged := st.(sizeSum := st.sizeSum + size);
      match web.download(url)
      case None => charged
      case Some(pdf) =>
        var a := AnswerFor(web, pdf);
        charged.(links := charged.links + [url],
                 summaries := charged.summaries + [a.summary],
                 pageses := charged.pageses + [a.pages])
  }

  /** The loop with the corrected body. */
  function LoopAligned(urls: seq<string>, st: Scan, web: Web): Scan
    decreases |urls|
  {
    if urls == [] || st.sizeSum >= StopThreshold then st
    else LoopAligned(urls[1..], VisitAligned(st, urls[0], web), web)
  }

  /** The corrected loop keeps the links of the original that downloaded, and everything else. */
  predicate Matches(fixed: Scan, original: Scan, web: Web) {
    && fixed.sizeSum == original.sizeSum
    && fixed.links == Downloaded(original.links, web)
    && fixed.summaries == original.summaries
    && fixed.pageses == original.pageses
  }

  lemma {:induction false} DownloadedSnoc(links: seq<string>, url: string, web: Web)
    ensures Downloaded(links + [url], web) ==
      Downloaded(links, web) + (if web.download(url).Some? then [url] else [])
    decreases |links|
  {
    if links == [] {
      assert [] + [url] == [url];
      assert [url][1..] == [];
    } else {
      assert (links + [url])[1..] == links[1..] + [url];
      DownloadedSnoc(links[1..], url, web);
    }
  }

  lemma {:induction false} LoopAlignedMatches(urls: seq<string>, fixed: Scan, original: Scan, web: Web)
    requires Matches(fixed, original, web)
    ensures Matches(LoopAligned(urls, fixed, web), Loop(urls, original, web), web)
    decreases |urls|
  {
    if urls != [] && original.sizeSum < StopThreshold {
      DownloadedSnoc(original.links, urls[0], web);
      LoopAlignedMatches(urls[1..], VisitAligned(fixed, urls[0], web), Visit(original, urls[0], web), web);
    }
  }

  /**
   The corrected `process_file_links`: the budget decisions are those of the original, failed
   downloads are left out of `links`, and the three lists line up: the i-th summary and page list
   are the answer for the i-th link, which downloaded.
   */
  function ProcessFileLinksAligned(urls: seq<string>, web: Web): (r: Scan)
    ensures r.sizeSum == ProcessFileLinks(urls, web).sizeSum < BatchLimit
    ensures r.links == Downloaded(ProcessFileLinks(urls, web).links, web)
    ensures |r.summaries| == |r.pageses| == |r.links|
    ensures forall i :: 0 <= i < |r.links| ==>
      && web.download(r.links[i]).Some?
      && r.summaries[i] == AnswerFor(web, web.download(r.links[i]).value).summary
      && r.pageses[i] == AnswerFor(web, web.download(r.links[i]).value).pages
  {
    LoopAlignedMatches(urls, Start, Start, web);
    var original := ProcessFileLinks(urls, web);
    var r := LoopAligned(urls, Start, web);
    OnlyDownloadsAnswer(original.links, web);
    AllDownloadedAligned(r.links, web);
    r
  }
}
