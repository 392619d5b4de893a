/** StorageService: the five stored keys, their defaults, the lookups by
    normalised URL, and `saveInjectionResults`, which rewrites the current-page
    view, the domain-page index and the per-URL record in one step. The
    key-value store is explicit state passed in and returned; `Date.now()`
    readings are parameters. */
module Storage {
  import opened Base
  import opened Url
  import opened Trackers
  import opened DomainIndex

  /** One tracker domain as stored for the current page. */
  datatype DomainStatus = DomainStatus(url: string, status: int)

  /** What the current page shows: `currentPageDomains[url]`. */
  datatype CurrentPage = CurrentPage(domains: seq<DomainStatus>, timestamp: int)

  /** The per-URL record `mauticData[url]`. */
  datatype MauticData = MauticData(
    domain: string, author: Option<string>, trackingInfo: seq<Tracker>, timestamp: int)

  /** The extension's local storage; `None` is a key that was never set. */
  datatype Store = Store(
    mauticData: Option<map<string, MauticData>>,
    domainPages: Option<Index>,
    currentPageDomains: Option<map<string, CurrentPage>>,
    domain: Option<string>,
    author: Option<string>)

  /** Storage with no key set. */
  const EmptyStore: Store := Store(None, None, None, None, None)

  /** The status recorded when a tracker carries no usable code. */
  const DefaultStatus: int := 200

  /** The three `Date.now()` readings a save takes: for the current-page
      view, for the index entry, and for the per-URL record. */
  datatype Clock = Clock(pageTime: int, entryTime: int, dataTime: int)

  /** The stored index is a well-formed object (see `DomainIndex.WellFormed`). */
  ghost predicate Valid(s: Store) {
    s.domainPages.Some? ==> WellFormed(s.domainPages.value)
  }

  // ---------------------------------------------------------------------
  // Defaults
  // ---------------------------------------------------------------------

  /** `initializeStorage`: every key that is not set gets its default (`{}`
      for the three maps, `""` for domain and author); keys that are set are
      left exactly as they are. */
  function InitializeStorage(s: Store): (r: Store)
    ensures s.mauticData.Some? ==> r.mauticData == s.mauticData
    ensures s.mauticData.None? ==> r.mauticData == Some(map[])
    ensures s.domainPages.Some? ==> r.domainPages == s.domainPages
    ensures s.domainPages.None? ==> r.domainPages == Some(EmptyIndex)
    ensures s.currentPageDomains.Some? ==> r.currentPageDomains == s.currentPageDomains
    ensures s.currentPageDomains.None? ==> r.currentPageDomains == Some(map[])
    ensures s.domain.Some? ==> r.domain == s.domain
    ensures s.domain.None? ==> r.domain == Some("")
    ensures s.author.Some? ==> r.author == s.author
    ensures s.author.None? ==> r.author == Some("")
    ensures Valid(s) ==> Valid(r)
  {
    Store(
      Some(s.mauticData.GetOr(map[])),
      Some(s.domainPages.GetOr(EmptyIndex)),
      Some(s.currentPageDomains.GetOr(map[])),
      Some(s.domain.GetOr("")),
      Some(s.author.GetOr("")))
  }

  /** Initialising twice is initialising once: after the first call every
      key is set. */
  lemma InitializeIdempotent(s: Store)
    ensures InitializeStorage(InitializeStorage(s)) == InitializeStorage(s)
  {
  }

  /** `clearStorage`: wipe every key, then initialise. */
  function ClearStorage(s: Store): (r: Store)
    ensures r == Store(Some(map[]), Some(EmptyIndex), Some(map[]), Some(""), Some(""))
    ensures Valid(r)
  {
    InitializeStorage(EmptyStore)
  }

  // ---------------------------------------------------------------------
  // Lookups
  // ---------------------------------------------------------------------

  /** `getMauticData(url)`: the record under the normalised URL, or `null`. */
  function GetMauticData(parse: Parser, s: Store, url: string): (r: Option<MauticData>)
    ensures r.Some? <==> s.mauticData.Some? && Normalize(parse, url) in s.mauticData.value
    ensures r.Some? ==> r.value == s.mauticData.value[Normalize(parse, url)]
  {
    var key := Normalize(parse, url);
    if s.mauticData.Some? && key in s.mauticData.value then Some(s.mauticData.value[key]) else None
  }

  /** `getCurrentPageDomains(url)`: the stored domains of the normalised
      URL, or the empty list. */
  function GetCurrentPageDomains(parse: Parser, s: Store, url: string): (r: seq<DomainStatus>)
    ensures s.currentPageDomains.None? || Normalize(parse, url) !in s.currentPageDomains.value ==> r == []
    ensures s.currentPageDomains.Some? && Normalize(parse, url) in s.currentPageDomains.value ==>
              r == s.currentPageDomains.value[Normalize(parse, url)].domains
  {
    var key := Normalize(parse, url);
    if s.currentPageDomains.Some? && key in s.currentPageDomains.value
    then s.currentPageDomains.value[key].domains
    else []
  }

  /** After clearing, no URL has a record or current domains, and the index
      is empty. */
  lemma ClearForgetsEverything(parse: Parser, s: Store, url: string)
    ensures GetMauticData(parse, ClearStorage(s), url).None?
    ensures GetCurrentPageDomains(parse, ClearStorage(s), url) == []
    ensures ClearStorage(s).domainPages == Some(EmptyIndex)
  {
  }

  // ---------------------------------------------------------------------
  // Saving one page's results
  // ---------------------------------------------------------------------

  /** `tracker.statusCode || 200`: a missing code and a code of 0 both
      become 200. */
  function StatusOrDefault(code: Option<int>): (r: int)
    ensures r != 0
    ensures code.Some? && code.value != 0 ==> r == code.value
    ensures code.None? || code.value == 0 ==> r == DefaultStatus
  {
    if code.Some? && code.value != 0 then code.value else DefaultStatus
  }

  function AsDomainStatus(t: Tracker): DomainStatus
    requires HasDomain(t)
  {
    DomainStatus(t.domain.value, StatusOrDefault(t.statusCode))
  }

  /** The conversion to domain statuses: trackers without a domain are
      dropped, the others keep their order and get a status. */
  function ToDomainStatuses(info: seq<Tracker>): (r: seq<DomainStatus>)
    ensures |r| <= |info|
    ensures forall x :: x in r ==> x.url != "" && x.status != 0
    ensures forall x :: x in r <==> exists t :: t in info && HasDomain(t) && x == AsDomainStatus(t)
  {
    if |info| == 0 then []
    else
      var rest := ToDomainStatuses(info[1..]);
      assert info == [info[0]] + info[1..];
      if HasDomain(info[0]) then [AsDomainStatus(info[0])] + rest else rest
  }

  lemma {:induction false} ToDomainStatusesAppend(a: seq<Tracker>, b: seq<Tracker>)
    ensures ToDomainStatuses(a + b) == ToDomainStatuses(a) + ToDomainStatuses(b)
  {
    if |a| > 0 {
      assert (a + b)[1..] == a[1..] + b;
      ToDomainStatusesAppend(a[1..], b);
    } else {
      assert a + b == b;
    }
  }

  /** The domains the save indexes, in order, repeats kept. */
  function DomainUrls(ds: seq<DomainStatus>): (r: seq<string>)
    ensures |r| == |ds|
    ensures forall k :: 0 <= k < |ds| ==> r[k] == ds[k].url
  {
    seq(|ds|, k requires 0 <= k < |ds| => ds[k].url)
  }

  /** A domain is indexed by the save exactly when some tracker names it. */
  lemma ScannedDomain(info: seq<Tracker>, d: string)
    ensures d in DomainUrls(ToDomainStatuses(info)) <==>
              exists t :: t in info && HasDomain(t) && t.domain.value == d
  {
    var ds := ToDomainStatuses(info);
    if d in DomainUrls(ds) {
      var k :| 0 <= k < |ds| && DomainUrls(ds)[k] == d;
      assert ds[k] in ds;
    }
    if exists t :: t in info && HasDomain(t) && t.domain.value == d {
      var t :| t in info && HasDomain(t) && t.domain.value == d;
      var x := AsDomainStatus(t);
      assert x in ds;
      var k :| 0 <= k < |ds| && ds[k] == x;
      assert DomainUrls(ds)[k] == d;
    }
  }

  /** The index entry for the page: its title falls back to the URL. */
  function MakePageEntry(normalizedUrl: string, pageTitle: string, now: int): (e: PageEntry)
    ensures e.url == normalizedUrl && e.timestamp == now
    ensures pageTitle != "" ==> e.title == pageTitle
    ensures pageTitle == "" ==> e.title == normalizedUrl
  {
    PageEntry(normalizedUrl, if pageTitle != "" then pageTitle else normalizedUrl, now)
  }

  /** `saveMauticData`: the record under the normalised URL is replaced;
      every other URL's record is kept. */
  function SaveMauticData(parse: Parser, s: Store, url: string, domain: string,
                          author: Option<string>, info: seq<Tracker>, now: int): (r: Store)
    ensures r == s.(mauticData := r.mauticData)
    ensures r.mauticData.Some?
    ensures var prev := s.mauticData.GetOr(map[]);
            var key := Normalize(parse, url);
            && r.mauticData.value.Keys == prev.Keys + {key}
            && r.mauticData.value[key] == MauticData(domain, author, info, now)
            && forall u :: u in prev && u != key ==> r.mauticData.value[u] == prev[u]
  {
    var key := Normalize(parse, url);
    s.(mauticData := Some(s.mauticData.GetOr(map[])[key := MauticData(domain, author, info, now)]))
  }

  /** The current-page view after a save: this URL's domains are replaced
      wholesale; every other URL's view is kept. */
  function SavedCurrentPages(parse: Parser, s: Store, currentUrl: string, trackingInfo: seq<Tracker>,
                             clock: Clock): (m: map<string, CurrentPage>)
    ensures var prev := s.currentPageDomains.GetOr(map[]);
            var key := Normalize(parse, currentUrl);
            && m.Keys == prev.Keys + {key}
            && m[key] == CurrentPage(ToDomainStatuses(trackingInfo), clock.pageTime)
            && forall u :: u in prev && u != key ==> m[u] == prev[u]
  {
    s.currentPageDomains.GetOr(map[])[Normalize(parse, currentUrl) :=
                                       CurrentPage(ToDomainStatuses(trackingInfo), clock.pageTime)]
  }

  /** The domain-page index after a save: rebuilt around this page's entry
      for the domains the scan named. */
  function SavedIndex(parse: Parser, s: Store, currentUrl: string, trackingInfo: seq<Tracker>,
                      pageTitle: string, clock: Clock): (ix: Index)
    requires Valid(s)
    ensures WellFormed(ix)
    ensures ix.pages == RebuiltPages(s.domainPages.GetOr(EmptyIndex), DomainUrls(ToDomainStatuses(trackingInfo)),
                                     MakePageEntry(Normalize(parse, currentUrl), pageTitle, clock.entryTime))
    ensures SortedByLatest(ix.pages, ix.order)
  {
    Rebuild(s.domainPages.GetOr(EmptyIndex), DomainUrls(ToDomainStatuses(trackingInfo)),
            MakePageEntry(Normalize(parse, currentUrl), pageTitle, clock.entryTime))
  }

  /** `saveInjectionResults`: the three stored maps are rewritten for this
      page; the domain and author keys are untouched. */
  function SaveInjectionResults(parse: Parser, s: Store, domain: string, author: Option<string>,
                                currentUrl: string, trackingInfo: seq<Tracker>, pageTitle: string,
                                clock: Clock): (r: Store)
    requires Valid(s)
    ensures Valid(r)
    ensures r.domain == s.domain && r.author == s.author
    ensures r.currentPageDomains == Some(SavedCurrentPages(parse, s, currentUrl, trackingInfo, clock))
    ensures r.domainPages == Some(SavedIndex(parse, s, currentUrl, trackingInfo, pageTitle, clock))
    ensures r.mauticData == SaveMauticData(parse, s, currentUrl, domain, author, trackingInfo, clock.dataTime).mauticData
  {
    var written := s.(currentPageDomains := Some(SavedCurrentPages(parse, s, currentUrl, trackingInfo, clock)),
                      domainPages := Some(SavedIndex(parse, s, currentUrl, trackingInfo, pageTitle, clock)));
    SaveMauticData(parse, written, currentUrl, domain, author, trackingInfo, clock.dataTime)
  }

  // ---------------------------------------------------------------------
  // Properties of a save
  // ---------------------------------------------------------------------

  /** Reading back right after a save finds what was saved, under any URL
      that normalises to the same key. */
  lemma SaveThenRead(parse: Parser, s: Store, domain: string, author: Option<string>,
                     currentUrl: string, trackingInfo: seq<Tracker>, pageTitle: string,
                     clock: Clock, url: string)
    requires Valid(s)
    requires Normalize(parse, url) == Normalize(parse, currentUrl)
    ensures var r := SaveInjectionResults(parse, s, domain, author, currentUrl, trackingInfo, pageTitle, clock);
            && GetCurrentPageDomains(parse, r, url) == ToDomainStatuses(trackingInfo)
            && GetMauticData(parse, r, url) == Some(MauticData(domain, author, trackingInfo, clock.dataTime))
  {
  }

  /** A save leaves every other URL's reads as they were. */
  lemma SaveKeepsOtherUrls(parse: Parser, s: Store, domain: string, author: Option<string>,
                           currentUrl: string, trackingInfo: seq<Tracker>, pageTitle: string,
                           clock: Clock, url: string)
    requires Valid(s)
    requires Normalize(parse, url) != Normalize(parse, currentUrl)
    ensures var r := SaveInjectionResults(parse, s, domain, author, currentUrl, trackingInfo, pageTitle, clock);
            && GetCurrentPageDomains(parse, r, url) == GetCurrentPageDomains(parse, s, url)
            && GetMauticData(parse, r, url) == GetMauticData(parse, s, url)
  {
  }

  /** A tracker with a domain puts that domain among the ones indexed. */
  lemma TrackerDomainScanned(trackingInfo: seq<Tracker>, t: Tracker)
    requires t in trackingInfo && HasDomain(t)
    ensures t.domain.value in DomainUrls(ToDomainStatuses(trackingInfo))
  {
    ScannedDomain(trackingInfo, t.domain.value);
  }

  /** For every domain of the scan, its list becomes the new entry followed
      by its old list without this URL; the URL occurs there once, at the
      head, with the save's title and timestamp. */
  lemma SaveIndexesScannedDomain(parse: Parser, s: Store, domain: string, author: Option<string>,
                                 currentUrl: string, trackingInfo: seq<Tracker>, pageTitle: string,
                                 clock: Clock, t: Tracker)
    requires Valid(s)
    requires t in trackingInfo && HasDomain(t)
    ensures var r := SaveInjectionResults(parse, s, domain, author, currentUrl, trackingInfo, pageTitle, clock);
            var key := Normalize(parse, currentUrl);
            var d := t.domain.value;
            var prev := PagesOf(s.domainPages.GetOr(EmptyIndex), d);
            && d in r.domainPages.value.pages
            && r.domainPages.value.pages[d] == [MakePageEntry(key, pageTitle, clock.entryTime)] + DropUrl(prev, key)
            && r.domainPages.value.pages[d][0].title == (if pageTitle != "" then pageTitle else key)
            && r.domainPages.value.pages[d][0].timestamp == clock.entryTime
            && (forall k :: 1 <= k < |r.domainPages.value.pages[d]| ==> r.domainPages.value.pages[d][k].url != key)
  {
    TrackerDomainScanned(trackingInfo, t);
    SavedIndexFreshList(parse, s, currentUrl, trackingInfo, pageTitle, clock, t.domain.value);
  }

  lemma SavedIndexFreshList(parse: Parser, s: Store, currentUrl: string, trackingInfo: seq<Tracker>,
                            pageTitle: string, clock: Clock, d: string)
    requires Valid(s)
    requires d in DomainUrls(ToDomainStatuses(trackingInfo))
    ensures var key := Normalize(parse, currentUrl);
            var pages := SavedIndex(parse, s, currentUrl, trackingInfo, pageTitle, clock).pages;
            && d in pages
            && pages[d] == [MakePageEntry(key, pageTitle, clock.entryTime)] + DropUrl(PagesOf(s.domainPages.GetOr(EmptyIndex), d), key)
            && (forall k :: 1 <= k < |pages[d]| ==> pages[d][k].url != key)
  {
    FreshEntryUniqueAtHead(s.domainPages.GetOr(EmptyIndex), DomainUrls(ToDomainStatuses(trackingInfo)),
                           MakePageEntry(Normalize(parse, currentUrl), pageTitle, clock.entryTime), d);
  }

  /** Domains the scan did not name keep their lists exactly, and no domain
      ever leaves the index. */
  lemma SaveKeepsOtherDomains(parse: Parser, s: Store, domain: string, author: Option<string>,
                              currentUrl: string, trackingInfo: seq<Tracker>, pageTitle: string,
                              clock: Clock, d: string)
    requires Valid(s)
    requires s.domainPages.Some? && d in s.domainPages.value.pages
    ensures var r := SaveInjectionResults(parse, s, domain, author, currentUrl, trackingInfo, pageTitle, clock);
            && d in r.domainPages.value.pages
            && ((forall t :: t in trackingInfo && HasDomain(t) ==> t.domain.value != d) ==>
                  r.domainPages.value.pages[d] == s.domainPages.value.pages[d])
  {
    ScannedDomain(trackingInfo, d);
  }

  /** After a save the index lists its domains newest first, each once. */
  lemma SaveSortsDomains(parse: Parser, s: Store, domain: string, author: Option<string>,
                         currentUrl: string, trackingInfo: seq<Tracker>, pageTitle: string,
                         clock: Clock)
    requires Valid(s)
    ensures var ix := SaveInjectionResults(parse, s, domain, author, currentUrl, trackingInfo, pageTitle, clock).domainPages.value;
            && NoDup(ix.order)
            && (forall d :: d in ix.order <==> d in ix.pages)
            && forall i, j :: 0 <= i < j < |ix.order| ==>
                 NotBefore(LatestOf(ix.pages[ix.order[i]]), LatestOf(ix.pages[ix.order[j]]))
  {
    var ix := SaveInjectionResults(parse, s, domain, author, currentUrl, trackingInfo, pageTitle, clock).domainPages.value;
    forall i, j | 0 <= i < j < |ix.order|
      ensures NotBefore(LatestOf(ix.pages[ix.order[i]]), LatestOf(ix.pages[ix.order[j]]))
    {
      assert ix.order[i] in ix.order && ix.order[j] in ix.order;
      assert Rank(ix.pages, ix.order[i]) == LatestOf(ix.pages[ix.order[i]]);
      assert Rank(ix.pages, ix.order[j]) == LatestOf(ix.pages[ix.order[j]]);
    }
  }

  lemma SavedIndexTwoPages(parse: Parser, s: Store, s1: Store, d: string,
                           url1: string, info1: seq<Tracker>, title1: string, clock1: Clock,
                           url2: string, info2: seq<Tracker>, title2: string, clock2: Clock)
    requires Valid(s) && Valid(s1)
    requires s1.domainPages == Some(SavedIndex(parse, s, url1, info1, title1, clock1))
    requires Normalize(parse, url1) != Normalize(parse, url2)
    requires d in DomainUrls(ToDomainStatuses(info1)) && d in DomainUrls(ToDomainStatuses(info2))
    ensures d in SavedIndex(parse, s1, url2, info2, title2, clock2).pages
    ensures var pages := SavedIndex(parse, s1, url2, info2, title2, clock2).pages[d];
            && |pages| >= 2
            && pages[0] == MakePageEntry(Normalize(parse, url2), title2, clock2.entryTime)
            && pages[1] == MakePageEntry(Normalize(parse, url1), title1, clock1.entryTime)
  {
    RebuildTwoPages(s.domainPages.GetOr(EmptyIndex), DomainUrls(ToDomainStatuses(info1)),
                    MakePageEntry(Normalize(parse, url1), title1, clock1.entryTime),
                    s1.domainPages.value, DomainUrls(ToDomainStatuses(info2)),
                    MakePageEntry(Normalize(parse, url2), title2, clock2.entryTime), d);
  }

  /** Two pages seen with the same tracker domain are both listed for it,
      the later save first. */
  lemma TwoPagesSameDomain(parse: Parser, s: Store, d: string,
                           domain1: string, author1: Option<string>, url1: string,
                           info1: seq<Tracker>, title1: string, clock1: Clock,
                           domain2: string, author2: Option<string>, url2: string,
                           info2: seq<Tracker>, title2: string, clock2: Clock, s1: Store,
                           t1: Tracker, t2: Tracker)
    requires Valid(s)
    requires s1 == SaveInjectionResults(parse, s, domain1, author1, url1, info1, title1, clock1)
    requires Normalize(parse, url1) != Normalize(parse, url2)
    requires t1 in info1 && HasDomain(t1) && t1.domain.value == d
    requires t2 in info2 && HasDomain(t2) && t2.domain.value == d
    ensures var pages := SaveInjectionResults(parse, s1, domain2, author2, url2, info2, title2, clock2).domainPages.value.pages;
            && d in pages
            && |pages[d]| >= 2
            && pages[d][0] == MakePageEntry(Normalize(parse, url2), title2, clock2.entryTime)
            && pages[d][1] == MakePageEntry(Normalize(parse, url1), title1, clock1.entryTime)
  {
    TrackerDomainScanned(info1, t1);
    TrackerDomainScanned(info2, t2);
    SavedIndexTwoPages(parse, s, s1, d, url1, info1, title1, clock1, url2, info2, title2, clock2);
  }



  lemma CurrentPagesStable(parse: Parser, s: Store, s1: Store, currentUrl: string,
                            trackingInfo: seq<Tracker>, clock: Clock)
    requires s1.currentPageDomains == Some(SavedCurrentPages(parse, s, currentUrl, trackingInfo, clock))
    ensures SavedCurrentPages(parse, s1, currentUrl, trackingInfo, clock) == s1.currentPageDomains.value
  {
  }

  lemma MauticDataStable(parse: Parser, s: Store, s1: Store, url: string, domain: string,
                         author: Option<string>, info: seq<Tracker>, now: int)
    requires s1.mauticData == SaveMauticData(parse, s, url, domain, author, info, now).mauticData
    ensures SaveMauticData(parse, s1, url, domain, author, info, now).mauticData == s1.mauticData
  {
    assert SaveMauticData(parse, s1, url, domain, author, info, now).mauticData.value == s1.mauticData.value;
  }

  lemma SavedIndexStable(parse: Parser, s: Store, s1: Store, currentUrl: string,
                         trackingInfo: seq<Tracker>, pageTitle: string, clock: Clock)
    requires Valid(s) && Valid(s1)
    requires s1.domainPages == Some(SavedIndex(parse, s, currentUrl, trackingInfo, pageTitle, clock))
    ensures SavedIndex(parse, s1, currentUrl, trackingInfo, pageTitle, clock).pages == s1.domainPages.value.pages
    ensures multiset(SavedIndex(parse, s1, currentUrl, trackingInfo, pageTitle, clock).order) ==
            multiset(s1.domainPages.value.order)
  {
    RebuildIdempotent(s.domainPages.GetOr(EmptyIndex), DomainUrls(ToDomainStatuses(trackingInfo)),
                      MakePageEntry(Normalize(parse, currentUrl), pageTitle, clock.entryTime));
  }

  /** Repeating a save with the same arguments and clock changes none of
      the stored maps or lists (the refresh is idempotent); the index keeps
      the same set of domains. */
  lemma SaveIdempotent(parse: Parser, s: Store, domain: string, author: Option<string>,
                       currentUrl: string, trackingInfo: seq<Tracker>, pageTitle: string,
                       clock: Clock, s1: Store)
    requires Valid(s)
    requires s1 == SaveInjectionResults(parse, s, domain, author, currentUrl, trackingInfo, pageTitle, clock)
    ensures var s2 := SaveInjectionResults(parse, s1, domain, author, currentUrl, trackingInfo, pageTitle, clock);
            && s2.currentPageDomains == s1.currentPageDomains
            && s2.mauticData == s1.mauticData
            && s2.domainPages.value.pages == s1.domainPages.value.pages
            && multiset(s2.domainPages.value.order) == multiset(s1.domainPages.value.order)
  {
    CurrentPagesStable(parse, s, s1, currentUrl, trackingInfo, clock);
    MauticDataStable(parse, s, s1, currentUrl, domain, author, trackingInfo, clock.dataTime);
    SavedIndexStable(parse, s, s1, currentUrl, trackingInfo, pageTitle, clock);
  }

}
