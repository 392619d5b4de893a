/** The `domainPages` index of StorageService: for every tracker domain, the
    pages it was seen on, most recent first. The stored value is a JavaScript
    object, whose keys keep their insertion order; it is modelled as a map
    together with the order of its keys. */
module DomainIndex {
  import opened Base

  /** One page a domain was seen on. */
  datatype PageEntry = PageEntry(url: string, title: string, timestamp: int)

  /** `pages` holds each domain's list; `order` lists the object's keys. */
  datatype Index = Index(pages: map<string, seq<PageEntry>>, order: seq<string>)

  /** Every object key is listed once, and only keys are listed. */
  ghost predicate WellFormed(ix: Index) {
    && NoDup(ix.order)
    && (forall d :: d in ix.order <==> d in ix.pages)
  }

  /** `{}` */
  const EmptyIndex: Index := Index(map[], [])

  /** `existingDomainPages[d] || []` */
  function PagesOf(ix: Index, d: string): seq<PageEntry> {
    if d in ix.pages then ix.pages[d] else []
  }

  // ---------------------------------------------------------------------
  // Removing the current URL from a page list
  // ---------------------------------------------------------------------

  /** `pages.filter(entry => entry.url !== url)` */
  function DropUrl(pages: seq<PageEntry>, url: string): (r: seq<PageEntry>)
    ensures forall e :: e in r <==> e in pages && e.url != url
    ensures (forall k :: 0 <= k < |pages| ==> pages[k].url != url) ==> r == pages
    ensures |r| <= |pages|
  {
    if |pages| == 0 then []
    else if pages[0].url == url then DropUrl(pages[1..], url)
    else [pages[0]] + DropUrl(pages[1..], url)
  }

  /** Filtering keeps order and multiplicity: it distributes over
      concatenation, so each kept entry stays where it was relative to the
      others. */
  lemma {:induction false} DropUrlAppend(a: seq<PageEntry>, b: seq<PageEntry>, url: string)
    ensures DropUrl(a + b, url) == DropUrl(a, url) + DropUrl(b, url)
  {
    if |a| > 0 {
      assert (a + b)[0] == a[0];
      assert (a + b)[1..] == a[1..] + b;
      DropUrlAppend(a[1..], b, url);
    } else {
      assert a + b == b;
    }
  }

  // ---------------------------------------------------------------------
  // Ordering domains by their most recent page
  // ---------------------------------------------------------------------

  /** `Math.max(...pages.map(p => p.timestamp))`; the maximum of no pages is
      `-Infinity`, which sorts below every timestamp. */
  datatype Latest = NoPages | At(time: int)

  /** `a` is at least as recent as `b`. */
  predicate NotBefore(a: Latest, b: Latest) {
    match b
    case NoPages => true
    case At(t) => a.At? && a.time >= t
  }

  function LatestOf(pages: seq<PageEntry>): (r: Latest)
    ensures r == NoPages <==> |pages| == 0
    ensures forall k :: 0 <= k < |pages| ==> NotBefore(r, At(pages[k].timestamp))
    ensures r.At? ==> exists k :: 0 <= k < |pages| && pages[k].timestamp == r.time
  {
    if |pages| == 0 then NoPages
    else
      var rest := LatestOf(pages[1..]);
      if rest.At? && rest.time > pages[0].timestamp then rest
      else At(pages[0].timestamp)
  }

  /** The sort key of domain `d`. */
  function Rank(pages: map<string, seq<PageEntry>>, d: string): Latest {
    if d in pages then LatestOf(pages[d]) else NoPages
  }

  /** Domains are listed with non-increasing latest timestamps. */
  ghost predicate SortedByLatest(pages: map<string, seq<PageEntry>>, order: seq<string>) {
    forall i, j :: 0 <= i < j < |order| ==> NotBefore(Rank(pages, order[i]), Rank(pages, order[j]))
  }

  /** Inserts `d` before the first domain it is at least as recent as, so it
      stays behind the ones that are strictly more recent. */
  function Insert(pages: map<string, seq<PageEntry>>, d: string, sorted: seq<string>): (r: seq<string>)
    ensures multiset(r) == multiset(sorted) + multiset{d}
  {
    if |sorted| == 0 then [d]
    else if NotBefore(Rank(pages, d), Rank(pages, sorted[0])) then [d] + sorted
    else
      assert sorted == [sorted[0]] + sorted[1..];
      [sorted[0]] + Insert(pages, d, sorted[1..])
  }

  /** A domain at least as recent as every listed one can go first. */
  lemma SortedCons(pages: map<string, seq<PageEntry>>, head: string, rest: seq<string>)
    requires SortedByLatest(pages, rest)
    requires forall k :: 0 <= k < |rest| ==> NotBefore(Rank(pages, head), Rank(pages, rest[k]))
    ensures SortedByLatest(pages, [head] + rest)
  {
    var r := [head] + rest;
    forall i, j | 0 <= i < j < |r| ensures NotBefore(Rank(pages, r[i]), Rank(pages, r[j])) {
      assert r[j] == rest[j - 1];
      if i > 0 {
        assert r[i] == rest[i - 1];
      }
    }
  }

  lemma {:induction false} InsertSorted(pages: map<string, seq<PageEntry>>, d: string, sorted: seq<string>)
    requires SortedByLatest(pages, sorted)
    ensures SortedByLatest(pages, Insert(pages, d, sorted))
  {
    if |sorted| == 0 {
    } else if NotBefore(Rank(pages, d), Rank(pages, sorted[0])) {
      forall k | 0 <= k < |sorted| ensures NotBefore(Rank(pages, d), Rank(pages, sorted[k])) {
        if k > 0 {
          assert NotBefore(Rank(pages, sorted[0]), Rank(pages, sorted[k]));
        }
      }
      SortedCons(pages, d, sorted);
    } else {
      var head := sorted[0];
      var tail := sorted[1..];
      var rest := Insert(pages, d, tail);
      assert SortedByLatest(pages, tail) by {
        forall i, j | 0 <= i < j < |tail| ensures NotBefore(Rank(pages, tail[i]), Rank(pages, tail[j])) {
          assert tail[i] == sorted[i + 1] && tail[j] == sorted[j + 1];
        }
      }
      InsertSorted(pages, d, tail);
      forall k | 0 <= k < |rest| ensures NotBefore(Rank(pages, head), Rank(pages, rest[k])) {
        assert rest[k] in multiset(rest);
        if rest[k] != d {
          assert rest[k] in multiset(tail);
          var j :| 0 <= j < |tail| && tail[j] == rest[k];
          assert sorted[j + 1] == rest[k];
        }
      }
      SortedCons(pages, head, rest);
    }
  }

  /** The ordering step: `Object.entries(...).sort((a, b) => latestB - latestA)`,
      a stable sort by most recent page, newest first. */
  function SortByLatest(pages: map<string, seq<PageEntry>>, keys: seq<string>): (r: seq<string>)
    ensures SortedByLatest(pages, r)
    ensures multiset(r) == multiset(keys)
  {
    if |keys| == 0 then []
    else
      var rest := SortByLatest(pages, keys[1..]);
      assert keys == [keys[0]] + keys[1..];
      InsertSorted(pages, keys[0], rest);
      Insert(pages, keys[0], rest)
  }

  // ---------------------------------------------------------------------
  // Rebuilding the index for one scanned page
  // ---------------------------------------------------------------------

  /** The keys of the old index that this scan did not touch, in order. */
  function Untouched(order: seq<string>, touched: set<string>): (r: seq<string>)
    ensures forall d :: d in r <==> d in order && d !in touched
    ensures NoDup(order) ==> NoDup(r)
  {
    if |order| == 0 then []
    else
      var rest := Untouched(order[..|order| - 1], touched);
      var d := order[|order| - 1];
      assert order == order[..|order| - 1] + [d];
      if d in touched then rest else rest + [d]
  }

  /** The untouched keys keep their old relative order: selecting them
      distributes over concatenation. */
  lemma {:induction false} UntouchedAppend(a: seq<string>, b: seq<string>, touched: set<string>)
    ensures Untouched(a + b, touched) == Untouched(a, touched) + Untouched(b, touched)
  {
    if |b| == 0 {
      assert a + b == a;
    } else {
      var b', x := b[..|b| - 1], b[|b| - 1];
      assert (a + b)[..|a + b| - 1] == a + b';
      assert (a + b)[|a + b| - 1] == x;
      assert b[..|b| - 1] == b';
      UntouchedAppend(a, b', touched);
    }
  }

  /** The fresh list of a scanned domain: the new entry, then the old list
      without any entry for the same URL. */
  function FreshPages(ix: Index, d: string, entry: PageEntry): seq<PageEntry> {
    [entry] + DropUrl(PagesOf(ix, d), entry.url)
  }

  /** Keys a JavaScript object built as in the save would list before
      sorting: scanned domains in first-seen order, then the untouched old
      keys in their old order. */
  function UnsortedKeys(ix: Index, scanned: seq<string>): seq<string> {
    Dedup(scanned) + Untouched(ix.order, Elems(scanned))
  }

  lemma UnsortedKeysWellFormed(ix: Index, scanned: seq<string>)
    requires WellFormed(ix)
    ensures NoDup(UnsortedKeys(ix, scanned))
    ensures forall d :: d in UnsortedKeys(ix, scanned) <==> d in scanned || d in ix.pages
  {
    var a, b := Dedup(scanned), Untouched(ix.order, Elems(scanned));
    forall d ensures d in a <==> d in scanned {
      if d in a {
        var i :| 0 <= i < |a| && a[i] == d;
      }
      if d in scanned {
        var i :| 0 <= i < |scanned| && scanned[i] == d;
      }
    }
    forall i, j | 0 <= i < j < |a + b| ensures (a + b)[i] != (a + b)[j] {
      if i < |a| && j >= |a| {
        assert (a + b)[i] in a && (a + b)[j] in b;
      }
    }
  }

  /** Every scanned domain gets its fresh list; every other domain keeps
      its list; no domain disappears. */
  function RebuiltPages(ix: Index, scanned: seq<string>, entry: PageEntry): (pages: map<string, seq<PageEntry>>)
    ensures pages.Keys == ix.pages.Keys + Elems(scanned)
    ensures forall d :: d in scanned ==> pages[d] == FreshPages(ix, d, entry)
    ensures forall d :: d in ix.pages && d !in scanned ==> pages[d] == ix.pages[d]
  {
    var updates := map d | d in scanned :: FreshPages(ix, d, entry);
    assert updates.Keys == Elems(scanned);
    ix.pages + updates
  }

  /** The domain-page index after saving a page whose scan found the domains
      `scanned`: the rebuilt lists, keyed in order of most recent page. */
  function Rebuild(ix: Index, scanned: seq<string>, entry: PageEntry): (r: Index)
    requires WellFormed(ix)
    ensures WellFormed(r)
    ensures r.pages == RebuiltPages(ix, scanned, entry)
    ensures SortedByLatest(r.pages, r.order)
  {
    var pages := RebuiltPages(ix, scanned, entry);
    var keys := UnsortedKeys(ix, scanned);
    var order := SortByLatest(pages, keys);
    UnsortedKeysWellFormed(ix, scanned);
    NoDupPermutation(keys, order);
    assert forall d :: d in order <==> d in multiset(keys);
    Index(pages, order)
  }

  /** After the rebuild the saved URL occurs exactly once in a scanned
      domain's list, at its head, and that domain's latest timestamp is at
      least the new entry's. */
  lemma FreshEntryUniqueAtHead(ix: Index, scanned: seq<string>, entry: PageEntry, d: string)
    requires d in scanned
    ensures var pages := RebuiltPages(ix, scanned, entry);
            && d in pages
            && pages[d] == [entry] + DropUrl(PagesOf(ix, d), entry.url)
            && (forall k :: 1 <= k < |pages[d]| ==> pages[d][k].url != entry.url)
            && NotBefore(LatestOf(pages[d]), At(entry.timestamp))
  {
    var pages := RebuiltPages(ix, scanned, entry)[d];
    var rest := DropUrl(PagesOf(ix, d), entry.url);
    assert pages == [entry] + rest;
    forall k | 1 <= k < |pages| ensures pages[k].url != entry.url {
      assert pages[k] == rest[k - 1];
      assert rest[k - 1] in rest;
    }
  }

  lemma DropUrlKeepsHead(pages: seq<PageEntry>, url: string)
    requires |pages| >= 1 && pages[0].url != url
    ensures |DropUrl(pages, url)| >= 1 && DropUrl(pages, url)[0] == pages[0]
  {
  }

  /** `DropUrl` leaves nothing to drop the second time. */
  lemma DropUrlIdempotent(pages: seq<PageEntry>, url: string)
    ensures DropUrl(DropUrl(pages, url), url) == DropUrl(pages, url)
  {
    var once := DropUrl(pages, url);
    forall k | 0 <= k < |once| ensures once[k].url != url {
      assert once[k] in once;
    }
  }

  /** Rebuilding the lists again for the same page and scan changes none:
      the page's URL is already only at the head of each scanned list. */
  lemma RebuiltPagesStable(ix: Index, ix1: Index, scanned: seq<string>, entry: PageEntry)
    requires ix1.pages == RebuiltPages(ix, scanned, entry)
    ensures RebuiltPages(ix1, scanned, entry) == ix1.pages
  {
    forall d | d in scanned ensures RebuiltPages(ix1, scanned, entry)[d] == ix1.pages[d] {
      var kept := DropUrl(PagesOf(ix, d), entry.url);
      DropUrlIdempotent(PagesOf(ix, d), entry.url);
      assert PagesOf(ix1, d) == [entry] + kept;
      assert ([entry] + kept)[1..] == kept;
    }
  }

  /** Rebuilding a second time for the same page and scan changes no list
      and keeps the same keys. */
  lemma RebuildIdempotent(ix: Index, scanned: seq<string>, entry: PageEntry)
    requires WellFormed(ix)
    ensures Rebuild(Rebuild(ix, scanned, entry), scanned, entry).pages == Rebuild(ix, scanned, entry).pages
    ensures multiset(Rebuild(Rebuild(ix, scanned, entry), scanned, entry).order) ==
            multiset(Rebuild(ix, scanned, entry).order)
  {
    var ix1 := Rebuild(ix, scanned, entry);
    var ix2 := Rebuild(ix1, scanned, entry);
    RebuiltPagesStable(ix, ix1, scanned, entry);
    NoDupSameElements(ix1.order, ix2.order);
  }

  /** Two rebuilds for different URLs that both name `d` leave the later
      entry first and the earlier one second in `d`'s list. */
  lemma RebuildTwoPages(ix: Index, scanned1: seq<string>, e1: PageEntry,
                        ix1: Index, scanned2: seq<string>, e2: PageEntry, d: string)
    requires ix1.pages == RebuiltPages(ix, scanned1, e1)
    requires d in scanned1 && d in scanned2
    requires e1.url != e2.url
    ensures var pages := RebuiltPages(ix1, scanned2, e2);
            && d in pages && |pages[d]| >= 2 && pages[d][0] == e2 && pages[d][1] == e1
  {
    FreshEntryUniqueAtHead(ix, scanned1, e1, d);
    FreshEntryUniqueAtHead(ix1, scanned2, e2, d);
    assert PagesOf(ix1, d) == ix1.pages[d];
    DropUrlKeepsHead(ix1.pages[d], e2.url);
  }
}
