/**
 `runner`, the HTTP entry point. The company comes from the JSON body when it names one, else
 from the query arguments. Without a company the reply's result is null. With one, a non-empty
 collection in the store answers directly: its summaries, in listing order, joined by blank lines.
 Otherwise reports are searched for, processed under the budget, written to the store and their
 summaries returned the same way.

 The search for report links is an oracle from the company name to candidate links. The reply is
 modelled by the value of its `result` field; serialising it to JSON is left out.
 */
module Runner {
  import opened Wrappers
  import opened Ids
  import opened Budget
  import opened Cache

  /** An HTTP request: the parsed JSON body, if any, and the query arguments. */
  datatype Request = Request(json: Option<map<string, string>>, args: map<string, string>)

  const CompanyKey: string := "company"

  /** Blank line between two summaries in the reply. */
  const Separator: string := "\n\n"

  /** The company named by a request; the empty string when it names none. */
  function CompanyOf(req: Request): (company: string)
    ensures req.json.Some? && CompanyKey in req.json.value ==> company == req.json.value[CompanyKey]
    ensures !(req.json.Some? && CompanyKey in req.json.value) && CompanyKey in req.args ==>
      company == req.args[CompanyKey]
    ensures !(req.json.Some? && CompanyKey in req.json.value) && CompanyKey !in req.args ==>
      company == ""
  {
    // A body or argument map holding the key is non-empty, so the truthiness tests of the
    // original are implied by the membership tests.
    if req.json.Some? && CompanyKey in req.json.value then req.json.value[CompanyKey]
    else if CompanyKey in req.args then req.args[CompanyKey]
    else ""
  }

  /** Total length of some strings. */
  function TotalLength(parts: seq<string>): nat {
    if parts == [] then 0 else |parts[0]| + TotalLength(parts[1..])
  }

  /** `sep.join(parts)`. */
  function Join(parts: seq<string>, sep: string): (r: string)
    ensures |r| == TotalLength(parts) + (if parts == [] then 0 else (|parts| - 1) * |sep|)
    ensures parts != [] ==> r[..|parts[0]|] == parts[0]
    ensures |parts| > 1 ==> r[|parts[0]|..|parts[0]| + |sep|] == sep
  {
    if parts == [] then ""
    else if |parts| == 1 then parts[0]
    else
      var rest := Join(parts[1..], sep);
      assert (parts[0] + sep + rest)[..|parts[0]|] == parts[0];
      assert (parts[0] + sep + rest)[|parts[0]|..|parts[0]| + |sep|] == sep;
      parts[0] + sep + rest
  }

  /** Joining one part gives that part. */
  lemma JoinSingle(x: string, sep: string)
    ensures Join([x], sep) == x
  {
  }

  /**
   Joining is compositional: the join of two non-empty lists is the join of the first, one
   separator, and the join of the second. With `JoinSingle` this fixes every part and its place.
   */
  lemma {:induction false} JoinAppend(a: seq<string>, b: seq<string>, sep: string)
    requires a != [] && b != []
    ensures Join(a + b, sep) == Join(a, sep) + sep + Join(b, sep)
    decreases |a|
  {
    if |a| == 1 {
      assert (a + b)[0] == a[0];
      assert (a + b)[1..] == b;
    } else {
      assert (a + b)[0] == a[0];
      assert (a + b)[1..] == a[1..] + b;
      JoinAppend(a[1..], b, sep);
      var x, j, k := a[0], Join(a[1..], sep), Join(b, sep);
      assert x + sep + (j + sep + k) == (x + sep + j) + sep + k;
    }
  }

  /** The summary field of each document, in order. */
  function SummaryList(documents: seq<Entry>): (r: seq<string>)
    ensures |r| == |documents|
    ensures forall i :: 0 <= i < |r| ==> r[i] == documents[i].summary
  {
    seq(|documents|, i requires 0 <= i < |documents| => documents[i].summary)
  }

  /** What the function replies: the `result` field, or no reply because an exception escaped. */
  datatype Reply = Result(result: Option<string>) | Crashed

  /** A request's effect: the reply, the store afterwards, and whether the search was run. */
  datatype Outcome = Outcome(reply: Reply, store: Store, searched: bool)

  /** The reply for a company with stored documents. */
  function CachedReply(store: Store, company: string): string {
    Join(SummaryList(ReadCache(store, company).documents), Separator)
  }

  /**
   `runner`, with the link processing corrected so that the lists written to the store line up
   (see `Budget.ProcessFileLinksAligned`).
   */
  function Runner(req: Request, store: Store, search: string -> seq<string>, web: Web): (out: Outcome)
    ensures CompanyOf(req) == "" ==> out == Outcome(Result(None), store, false)
    ensures CompanyOf(req) != "" && CollectionOf(store, CompanyOf(req)) != map[] ==>
      out == Outcome(Result(Some(CachedReply(store, CompanyOf(req)))), store, false)
    ensures CompanyOf(req) != "" && CollectionOf(store, CompanyOf(req)) == map[] ==>
      && out.searched
      && out.reply == Result(Some(Join(ProcessFileLinksAligned(search(CompanyOf(req)), web).summaries, Separator)))
    ensures forall c :: c != CompanyOf(req) ==> CollectionOf(out.store, c) == CollectionOf(store, c)
  {
    var company := CompanyOf(req);
    if company == "" then Outcome(Result(None), store, false)
    else
      var cached := ReadCache(store, company);
      if |cached.links| != 0 then
        Outcome(Result(Some(Join(SummaryList(cached.documents), Separator))), store, false)
      else
        var scan := ProcessFileLinksAligned(search(company), web);
        WriteCompletes(store, company, scan.links, scan.summaries, scan.pageses);
        WriteKeepsOthersAll(store, company, scan.links, scan.summaries, scan.pageses);
        match WriteCache(store, company, scan.links, scan.summaries, scan.pageses)
        case Written(s, _) => Outcome(Result(Some(Join(scan.summaries, Separator))), s, true)
        case IndexError(s) => Outcome(Crashed, s, true)
  }

  lemma WriteKeepsOthersAll(store: Store, company: string, links: seq<string>,
                            summaries: seq<string>, pages: seq<seq<nat>>)
    ensures forall c :: c != company ==>
      CollectionOf(WriteCache(store, company, links, summaries, pages).store, c) == CollectionOf(store, c)
  {
    forall c | c != company
      ensures CollectionOf(WriteCache(store, company, links, summaries, pages).store, c) == CollectionOf(store, c)
    {
      WriteKeepsOthers(store, company, links, summaries, pages, c);
    }
  }

  /** A miss stores what the corrected link processing recorded, and the write completes. */
  lemma MissWrites(req: Request, store: Store, search: string -> seq<string>, web: Web)
    requires CompanyOf(req) != ""
    requires CollectionOf(store, CompanyOf(req)) == map[]
    ensures var company := CompanyOf(req);
      var scan := ProcessFileLinksAligned(search(company), web);
      var w := WriteCache(store, company, scan.links, scan.summaries, scan.pageses);
      && w.Written?
      && Runner(req, store, search, web) == Outcome(Result(Some(Join(scan.summaries, Separator))), w.store, true)
  {
    var company := CompanyOf(req);
    var scan := ProcessFileLinksAligned(search(company), web);
    WriteCompletes(store, company, scan.links, scan.summaries, scan.pageses);
  }

  /**
   After a miss that found at least one report, the same company is a hit for any later request:
   no search, the store unchanged, and the reply made of the stored summaries.
   */
  lemma MissThenHit(req: Request, req2: Request, store: Store, search: string -> seq<string>,
                    search2: string -> seq<string>, web: Web, web2: Web)
    requires CompanyOf(req) != "" && CompanyOf(req2) == CompanyOf(req)
    requires CollectionOf(store, CompanyOf(req)) == map[]
    requires ProcessFileLinksAligned(search(CompanyOf(req)), web).links != []
    ensures var first := Runner(req, store, search, web);
      var second := Runner(req2, first.store, search2, web2);
      && first.reply.Result?
      && second == Outcome(Result(Some(CachedReply(first.store, CompanyOf(req)))), first.store, false)
  {
    var company := CompanyOf(req);
    var scan := ProcessFileLinksAligned(search(company), web);
    MissWrites(req, store, search, web);
    WriteEffect(store, company, scan.links, scan.summaries, scan.pageses);
    assert scan.links[0] in CollectionOf(Runner(req, store, search, web).store, company);
  }

  /**
   When the links the miss recorded were distinct and already in listing order, the hit that
   follows replies exactly what the miss replied.
   */
  lemma MissThenHitSameReply(req: Request, store: Store, search: string -> seq<string>, web: Web)
    requires CompanyOf(req) != ""
    requires CollectionOf(store, CompanyOf(req)) == map[]
    requires Ascending(ProcessFileLinksAligned(search(CompanyOf(req)), web).links)
    ensures var first := Runner(req, store, search, web);
      CachedReply(first.store, CompanyOf(req)) == first.reply.result.value
  {
    var company := CompanyOf(req);
    var scan := ProcessFileLinksAligned(search(company), web);
    MissWrites(req, store, search, web);
    var w := WriteCache(store, company, scan.links, scan.summaries, scan.pageses);
    ReadAfterWrite(store, company, scan.links, scan.summaries, scan.pageses);
    WriteCompletes(store, company, scan.links, scan.summaries, scan.pageses);
    SummaryListOfWritten(w.documents, scan.summaries, scan.pageses);
  }

  lemma SummaryListOfWritten(documents: seq<Entry>, summaries: seq<string>, pages: seq<seq<nat>>)
    requires |documents| == |summaries| <= |pages|
    requires forall i :: 0 <= i < |documents| ==> documents[i] == Entry(summaries[i], pages[i])
    ensures SummaryList(documents) == summaries
  {
  }

  /** A miss that found no report stores nothing, so the next request searches again. */
  lemma EmptyMissIsNotCached(req: Request, store: Store, search: string -> seq<string>, web: Web)
    requires CompanyOf(req) != ""
    requires CollectionOf(store, CompanyOf(req)) == map[]
    requires ProcessFileLinksAligned(search(CompanyOf(req)), web).links == []
    ensures var out := Runner(req, store, search, web);
      && out.store == store
      && out.reply == Result(Some(""))
      && Runner(req, out.store, search, web).searched
  {
  }

  // ---------------------------------------------------------------------------------------------
  // The original composition

  /**
   With the link processing as written, a miss on which every recorded link failed to download
   has links but no summary, so the write raises `IndexError` on its first document and the
   store is left as it was.
   */
  lemma AsWrittenFailedMissCrashes(urls: seq<string>, web: Web, store: Store, company: string)
    requires ProcessFileLinks(urls, web).links != []
    requires forall i :: 0 <= i < |ProcessFileLinks(urls, web).links| ==>
      web.download(ProcessFileLinks(urls, web).links[i]).None?
    ensures var scan := ProcessFileLinks(urls, web);
      WriteCache(store, company, scan.links, scan.summaries, scan.pageses) == IndexError(store)
  {
    var scan := ProcessFileLinks(urls, web);
    NothingDownloaded(scan.links, web);
  }

  /**
   With the link processing as written, a failed download before a successful one stores the
   second report's summary under the first link and then stops with an `IndexError`, so the
   request gets no reply while the misattributed document stays in the store.
   */
  lemma AsWrittenMissStoresWrongSummary(web: Web, a: string, b: string, pdf: PdfPages.Pdf, company: string)
    requires Small(web, a) && Small(web, b)
    requires web.download(a).None? && web.download(b) == Some(pdf)
    ensures var scan := ProcessFileLinks([a, b], web);
      var w := WriteCache(map[], company, scan.links, scan.summaries, scan.pageses);
      var answer := AnswerFor(web, pdf);
      && w.IndexError?
      && CollectionOf(w.store, company) == map[a := Entry(answer.summary, answer.pages)]
  {
    FailedDownloadShiftsSummaries(web, a, b, pdf);
    var answer := AnswerFor(web, pdf);
    WriteTwoWithOne(map[], company, a, b, answer.summary, answer.pages);
  }
}
