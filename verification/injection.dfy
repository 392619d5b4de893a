/** InjectionService.inject: after storage is initialised and the page
    script has run, the callback decides which badge the tab gets and
    whether the page's results are saved. The badge calls and the storage
    writes are modelled as the returned decision and the returned store. */
module Injection {
  import opened Base
  import opened Url
  import opened Trackers
  import opened Storage
  import Scanner

  /** `setError`, `setSuccess(domain)`, `setNotFound`. */
  datatype Badge = ErrorBadge | SuccessBadge(domain: string) | NotFoundBadge

  /** The value the page script resolved to; each field may be missing. */
  datatype Payload = Payload(
    author: Option<string>, title: Option<string>, trackingInfo: Option<seq<Tracker>>)

  /** How the `executeScript` callback is reached. */
  datatype Outcome =
    | InjectionFailed               // `chrome.runtime.lastError` is set
    | ResultRejected                // awaiting the result threw
    | Resolved(result: Option<Payload>)

  /** The arguments of one `saveInjectionResults` call. */
  datatype SaveCall = SaveCall(
    domain: string, author: Option<string>, currentUrl: string,
    trackingInfo: seq<Tracker>, pageTitle: string)

  datatype Decision = Decision(badge: Badge, save: Option<SaveCall>)

  datatype InjectResult = InjectResult(badge: Badge, store: Store)

  const UnknownDomain: string := "unknown"
  const UntitledPage: string := "Untitled Page"

  /** `tab.url || ""` */
  function CurrentUrl(tabUrl: Option<string>): string {
    tabUrl.GetOr("")
  }

  /** `firstTracker?.domain || "unknown"`: never empty. */
  function MainDomain(info: seq<Tracker>): (d: string)
    requires |info| > 0
    ensures d != ""
    ensures HasDomain(info[0]) ==> d == info[0].domain.value
    ensures !HasDomain(info[0]) ==> d == UnknownDomain
  {
    if HasDomain(info[0]) then info[0].domain.value else UnknownDomain
  }

  /** `result?.trackingInfo?.length > 0` */
  predicate Found(outcome: Outcome) {
    && outcome.Resolved?
    && outcome.result.Some?
    && outcome.result.value.trackingInfo.Some?
    && |outcome.result.value.trackingInfo.value| > 0
  }

  /** The callback: an injection error or a failed result gives the error
      badge and no save; a result with trackers gives the success badge for
      the first tracker's domain and saves every tracker under the tab's
      URL; anything else is "not found". */
  function Decide(tabUrl: Option<string>, outcome: Outcome): (r: Decision)
    ensures r.badge == ErrorBadge <==> outcome.InjectionFailed? || outcome.ResultRejected?
    ensures r.badge.SuccessBadge? <==> Found(outcome)
    ensures r.badge == NotFoundBadge <==> outcome.Resolved? && !Found(outcome)
    ensures r.save.Some? <==> r.badge.SuccessBadge?
    ensures r.save.Some? ==>
              var p := outcome.result.value;
              && r.save.value.domain == r.badge.domain
              && r.save.value.domain == MainDomain(p.trackingInfo.value)
              && r.save.value.author == p.author
              && r.save.value.currentUrl == CurrentUrl(tabUrl)
              && r.save.value.trackingInfo == p.trackingInfo.value
              && r.save.value.pageTitle != ""
              && (p.title.Some? && p.title.value != "" ==> r.save.value.pageTitle == p.title.value)
              && (p.title.None? || p.title.value == "" ==> r.save.value.pageTitle == UntitledPage)
  {
    match outcome
    case InjectionFailed => Decision(ErrorBadge, None)
    case ResultRejected => Decision(ErrorBadge, None)
    case Resolved(result) =>
      if Found(outcome) then
        var p := result.value;
        var info := p.trackingInfo.value;
        var mainDomain := MainDomain(info);
        var title := if p.title.Some? && p.title.value != "" then p.title.value else UntitledPage;
        Decision(SuccessBadge(mainDomain), Some(SaveCall(mainDomain, p.author, CurrentUrl(tabUrl), info, title)))
      else
        Decision(NotFoundBadge, None)
  }

  /** `inject(tabId)`: initialise storage, then run the callback on the
      script's outcome; the save, if any, acts on the initialised store. */
  function Inject(parse: Parser, s: Store, tabUrl: Option<string>, outcome: Outcome, clock: Clock): (r: InjectResult)
    requires Valid(s)
    ensures Valid(r.store)
    ensures r.badge == Decide(tabUrl, outcome).badge
    ensures !Found(outcome) ==> r.store == InitializeStorage(s)
    ensures Found(outcome) ==>
              var call := Decide(tabUrl, outcome).save.value;
              r.store == SaveInjectionResults(parse, InitializeStorage(s), call.domain, call.author,
                                              call.currentUrl, call.trackingInfo, call.pageTitle, clock)
  {
    var initialized := InitializeStorage(s);
    var decision := Decide(tabUrl, outcome);
    match decision.save
    case None => InjectResult(decision.badge, initialized)
    case Some(call) =>
      InjectResult(decision.badge,
        SaveInjectionResults(parse, initialized, call.domain, call.author, call.currentUrl,
                             call.trackingInfo, call.pageTitle, clock))
  }

  /** The payload `getTrackingInfo` resolves to. */
  function PayloadOf(t: Scanner.TrackingResult): (p: Payload)
    ensures p.author == Some(t.author) && p.title == Some(t.title)
    ensures p.trackingInfo == Some(t.trackingInfo)
  {
    Payload(Some(t.author), Some(t.title), Some(t.trackingInfo))
  }

  /** The domain statuses saved for a scan's trackers: every non-empty
      found origin, each with the default status. */
  lemma DetectedStatuses(ds: seq<string>)
    ensures forall x :: x in ToDomainStatuses(Scanner.AsTrackers(ds)) <==>
                          x.url in ds && x.url != "" && x.status == DefaultStatus
  {
    var info := Scanner.AsTrackers(ds);
    forall x ensures x in ToDomainStatuses(info) <==> x.url in ds && x.url != "" && x.status == DefaultStatus {
      if x.url in ds && x.url != "" && x.status == DefaultStatus {
        var k :| 0 <= k < |ds| && ds[k] == x.url;
        assert info[k] in info && HasDomain(info[k]) && x == AsDomainStatus(info[k]);
      }
      if x in ToDomainStatuses(info) {
        var t :| t in info && HasDomain(t) && x == AsDomainStatus(t);
        var k :| 0 <= k < |info| && info[k] == t;
        assert t.domain.value == ds[k];
      }
    }
  }

  /** End to end: a scan that found trackers badges the tab with the first
      found origin (or "unknown" when that origin is empty), leaves the tab's
      URL showing every found non-empty origin with status 200, and records
      the scan under that URL. A scan that found nothing badges "not found"
      and only initialises storage. */
  lemma ScanThenInject(parse: Parser, s: Store, tabUrl: Option<string>, t: Scanner.TrackingResult,
                       ds: seq<string>, clock: Clock)
    requires Valid(s)
    requires t.trackingInfo == Scanner.AsTrackers(ds)
    ensures var r := Inject(parse, s, tabUrl, Resolved(Some(PayloadOf(t))), clock);
            && (|ds| == 0 ==> r.badge == NotFoundBadge && r.store == InitializeStorage(s))
            && (|ds| > 0 ==> r.badge == SuccessBadge(if ds[0] != "" then ds[0] else UnknownDomain))
            && (|ds| > 0 ==>
                  forall x :: x in GetCurrentPageDomains(parse, r.store, CurrentUrl(tabUrl)) <==>
                                x.url in ds && x.url != "" && x.status == DefaultStatus)
            && (|ds| > 0 ==>
                  GetMauticData(parse, r.store, CurrentUrl(tabUrl)) ==
                    Some(MauticData(if ds[0] != "" then ds[0] else UnknownDomain, Some(t.author),
                                    t.trackingInfo, clock.dataTime)))
  {
    var outcome := Resolved(Some(PayloadOf(t)));
    if |ds| > 0 {
      var call := Decide(tabUrl, outcome).save.value;
      assert t.trackingInfo[0] == Scanner.Detected(ds[0]);
      SaveThenRead(parse, InitializeStorage(s), call.domain, call.author, call.currentUrl,
                   call.trackingInfo, call.pageTitle, clock, CurrentUrl(tabUrl));
      DetectedStatuses(ds);
    }
  }
}
