/**
 `firebase_cache`: the document store keeps one collection per company; each document is keyed by
 a report link and holds that report's summary and page list. Called without links, the function
 lists a company's collection; called with links, it writes one document per link, taking the
 summary and page list at the same position, and overwrites any document already stored under
 that link. The lists are indexed by the links' positions, so when they are shorter than the link
 list the write stops with an `IndexError` after the documents before that position are written.
 */
module Cache {
  import opened Ids

  /** A stored document. */
  datatype Entry = Entry(summary: string, pages: seq<nat>)

  /** A company's collection: link to document. */
  type Collection = map<string, Entry>

  /** The whole store: company to collection. A missing company reads as an empty collection. */
  type Store = map<string, Collection>

  function CollectionOf(store: Store, company: string): Collection {
    if company in store then store[company] else map[]
  }

  /** `doc_ref.set(document)`: create or overwrite one document. */
  function Put(store: Store, company: string, link: string, e: Entry): (r: Store)
    ensures CollectionOf(r, company) == CollectionOf(store, company)[link := e]
    ensures forall c :: c != company ==> CollectionOf(r, c) == CollectionOf(store, c)
  {
    store[company := CollectionOf(store, company)[link := e]]
  }

  /** The ids and documents of a collection as the read mode returns them. */
  datatype Listing = Listing(links: seq<string>, documents: seq<Entry>)

  /**
   Read mode: every document of the company's collection exactly once, in ascending order of its
   link, each paired with its contents; a company without a collection lists nothing.
   */
  function ReadCache(store: Store, company: string): (r: Listing)
    ensures Ascending(r.links)
    ensures forall k :: k in r.links <==> k in CollectionOf(store, company)
    ensures |r.documents| == |r.links| == |CollectionOf(store, company)|
    ensures forall i :: 0 <= i < |r.links| ==> r.documents[i] == CollectionOf(store, company)[r.links[i]]
  {
    var coll := CollectionOf(store, company);
    var links := SortedIds(coll.Keys);
    Listing(links, seq(|links|, i requires 0 <= i < |links| => coll[links[i]]))
  }

  /** The outcome of the write mode: the documents written, or the `IndexError` and the store as left. */
  datatype WriteResult = Written(store: Store, documents: seq<Entry>) | IndexError(store: Store)

  /**
   Write mode, one link after the other. A completed write has seen a summary and a page list for
   every link and returns one document per link; `WriteCompletes` gives the converse and the
   documents themselves.
   */
  function WriteCache(store: Store, company: string, links: seq<string>,
                      summaries: seq<string>, pages: seq<seq<nat>>): (r: WriteResult)
    ensures r.Written? ==> |summaries| >= |links| && |pages| >= |links|
    ensures r.Written? ==> |r.documents| == |links|
    decreases |links|
  {
    if links == [] then Written(store, [])
    else if summaries == [] || pages == [] then IndexError(store)
    else
      var e := Entry(summaries[0], pages[0]);
      match WriteCache(Put(store, company, links[0], e), company, links[1..], summaries[1..], pages[1..])
      case Written(s, documents) => Written(s, [e] + documents)
      case IndexError(s) => IndexError(s)
  }

  /**
   The write completes exactly when there is a summary and a page list for every link, and then
   it returns, for each link in order, the document it wrote.
   */
  lemma {:induction false} WriteCompletes(store: Store, company: string, links: seq<string>,
                                          summaries: seq<string>, pages: seq<seq<nat>>)
    ensures var r := WriteCache(store, company, links, summaries, pages);
      && (r.Written? <==> |summaries| >= |links| && |pages| >= |links|)
      && (r.Written? ==>
            && |r.documents| == |links|
            && forall i :: 0 <= i < |links| ==> r.documents[i] == Entry(summaries[i], pages[i]))
    decreases |links|
  {
    if links != [] && summaries != [] && pages != [] {
      var e := Entry(summaries[0], pages[0]);
      var next := Put(store, company, links[0], e);
      WriteCompletes(next, company, links[1..], summaries[1..], pages[1..]);
      var r := WriteCache(next, company, links[1..], summaries[1..], pages[1..]);
      if r.Written? {
        forall i | 1 <= i < |links|
          ensures ([e] + r.documents)[i] == Entry(summaries[i], pages[i])
        {
          assert ([e] + r.documents)[i] == r.documents[i - 1];
        }
      }
    }
  }

  /**
   What the written company's collection holds after a complete write: a link that was not
   written keeps its document (or its absence), and a written link holds the document of its last
   occurrence in the link list.
   */
  lemma {:induction false} WriteEffect(store: Store, company: string, links: seq<string>,
                                       summaries: seq<string>, pages: seq<seq<nat>>)
    requires |summaries| >= |links| && |pages| >= |links|
    ensures var after := CollectionOf(WriteCache(store, company, links, summaries, pages).store, company);
      && (forall k :: k in after <==> k in CollectionOf(store, company) || k in links)
      && (forall k :: k !in links && k in after ==> after[k] == CollectionOf(store, company)[k])
      && (forall i :: 0 <= i < |links| && links[i] !in links[i + 1..] ==>
            after[links[i]] == Entry(summaries[i], pages[i]))
    decreases |links|
  {
    if links != [] {
      var e := Entry(summaries[0], pages[0]);
      var next := Put(store, company, links[0], e);
      var tail := links[1..];
      WriteEffect(next, company, tail, summaries[1..], pages[1..]);
      var after := CollectionOf(WriteCache(store, company, links, summaries, pages).store, company);
      assert after == CollectionOf(WriteCache(next, company, tail, summaries[1..], pages[1..]).store, company);
      forall i | 0 <= i < |links| && links[i] !in links[i + 1..]
        ensures after[links[i]] == Entry(summaries[i], pages[i])
      {
        if i == 0 {
          assert links[1..] == tail;
        } else {
          assert tail[i - 1] == links[i];
          assert tail[i..] == links[i + 1..];
        }
      }
    }
  }

  /** A write, complete or not, leaves every other company's collection as it was. */
  lemma {:induction false} WriteKeepsOthers(store: Store, company: string, links: seq<string>,
                                            summaries: seq<string>, pages: seq<seq<nat>>, other: string)
    requires other != company
    ensures CollectionOf(WriteCache(store, company, links, summaries, pages).store, other)
      == CollectionOf(store, other)
    decreases |links|
  {
    if links != [] && summaries != [] && pages != [] {
      var e := Entry(summaries[0], pages[0]);
      WriteKeepsOthers(Put(store, company, links[0], e), company, links[1..], summaries[1..], pages[1..], other);
    }
  }

  /**
   An interrupted write leaves the store as a complete write of the links before the first
   position without a summary or page list would.
   */
  lemma {:induction false} WriteStopsAtShortList(store: Store, company: string, links: seq<string>,
                                                 summaries: seq<string>, pages: seq<seq<nat>>)
    requires |summaries| < |links| || |pages| < |links|
    ensures var m := if |summaries| < |pages| then |summaries| else |pages|;
      && WriteCache(store, company, links, summaries, pages).IndexError?
      && WriteCache(store, company, links, summaries, pages).store
           == WriteCache(store, company, links[..m], summaries, pages).store
    decreases |links|
  {
    if summaries != [] && pages != [] {
      var e := Entry(summaries[0], pages[0]);
      var next := Put(store, company, links[0], e);
      WriteStopsAtShortList(next, company, links[1..], summaries[1..], pages[1..]);
      var m := if |summaries| < |pages| then |summaries| else |pages|;
      assert links[..m][1..] == links[1..][..m - 1];
    } else {
      assert links[..0] == [];
    }
  }

  /**
   Two links with one summary and one page list: the first link is written, then the write stops
   with an `IndexError`.
   */
  lemma WriteTwoWithOne(store: Store, company: string, a: string, b: string, summary: string, pages: seq<nat>)
    ensures var w := WriteCache(store, company, [a, b], [summary], [pages]);
      && w.IndexError?
      && CollectionOf(w.store, company) == CollectionOf(store, company)[a := Entry(summary, pages)]
  {
    var next := Put(store, company, a, Entry(summary, pages));
    assert [a, b][1..] == [b];
    assert WriteCache(next, company, [b], [], []) == IndexError(next);
  }

  /**
   Reading back a complete write into an empty collection lists the links and the written
   documents as the write returned them, provided the links were distinct and already in listing
   order.
   */
  lemma ReadAfterWrite(store: Store, company: string, links: seq<string>,
                       summaries: seq<string>, pages: seq<seq<nat>>)
    requires CollectionOf(store, company) == map[]
    requires Ascending(links)
    requires |summaries| >= |links| && |pages| >= |links|
    ensures var w := WriteCache(store, company, links, summaries, pages);
      && w.Written?
      && ReadCache(w.store, company) == Listing(links, w.documents)
  {
    var w := WriteCache(store, company, links, summaries, pages);
    WriteCompletes(store, company, links, summaries, pages);
    WriteEffect(store, company, links, summaries, pages);
    var after := CollectionOf(w.store, company);
    AscendingIsSortedIds(links, after.Keys);
    assert forall i :: 0 <= i < |links| ==> links[i] !in links[i + 1..];
  }
}
