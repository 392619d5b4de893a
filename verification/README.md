# detect-mautic-script: a Dafny model of the detection and storage core

The browser extension scans a page for Mautic tracking code, badges the tab, and keeps a history of which tracker domains were seen on which pages. This project models the four sequential parts underneath the Chrome, storage and React plumbing, and proves properties of them:

- **The page scan** (`findMauticTrackers`, `getTrackingInfo`): four ordered detection passes over a document. The passes look at script `src` attributes, inline script text (including the exact quoted `https://…/mtc.js` pattern), forms and tracking pixels. Origins are deduplicated and the first detection wins.
- **StorageService**: `normalizeUrl`, the domain-status conversion, and `saveInjectionResults`. The save rewrites three things:
  - the current-page view;
  - the domain → pages index, including the sort by most recent page;
  - the per-URL record.
  The service also covers the two lookups, `initializeStorage` and `clearStorage`.
- **StatusBadge**: colour and label of an HTTP status code, and nothing for an absent code.
- **InjectionService.inject**: the result callback, as a decision (error, success with a domain, or not found) plus the optional save, composed with storage initialisation.

How the model represents the program:

- Storage is an explicit `Store` value passed in and returned. A key that was never set is `None`.
- The `domainPages` object keeps its keys in insertion order. It is modelled as a map plus the sequence of its keys (`DomainIndex.Index`), with the invariant `DomainIndex.WellFormed`.
- The save reads `Date.now()` three separate times: the current-page view (StorageService.ts:185), the index entry (line 202) and the per-URL record (line 104). These readings are the three fields of `Storage.Clock`.
- The WHATWG URL parser is a parameter `parse: string -> Option<UrlParts>`. `None` means the `URL` constructor throws. The scan's `new URL(s).origin` and the page key are both derived from that one parser.
- Behaviours of the code that the model keeps as written:
  - there is no request-correlation state;
  - statuses are overwritten, not merged monotonically;
  - `clearStorage` wipes every key, including the current-page view;
  - an empty scan saves nothing;
  - a domain that a later scan of the same URL no longer reports keeps its old entry for that URL.

Modules, one per file: `Base` (options, duplicate-free sequences, first-occurrence deduplication), `Strings` (`includes`, decimal strings), `Url`, `Trackers`, `Scanner`, `StatusBadge`, `DomainIndex`, `Storage`, `Injection`, `StoredBadges`.

## Model

| member | source | states |
|---|---|---|
| Url.OriginOf | background/injected-helper.ts:43 | `new URL(s).origin` exists exactly when the string parses, and is the parsed origin |
| Url.StripTrailingSlashes | background/services/StorageService.ts:76 | `replace(/\/+$/, "")` leaves a prefix of the path that does not end in `/`, and everything it removes is `/` |
| Url.Normalize | background/services/StorageService.ts:73-81 | a parsable URL becomes its origin, then its path with every trailing `/` removed, then its query; the fragment is dropped; an unparsable string is returned unchanged |
| Url.StripIgnoresAddedSlashes | background/services/StorageService.ts:76 | any number of trailing slashes added to a path strip to the same result |
| Url.NormalizeIdentifiesVariants | background/services/StorageService.ts:73-81 | URLs with the same origin and query whose paths differ only in trailing slashes (and whose fragments may differ) get the same key |
| Url.NormalizeIdempotent | background/services/StorageService.ts:73-81 | normalising a stored key again leaves it unchanged, so a page entry's URL (the link the history list opens, components/History.tsx:50) keys the same page when it is scanned again; this holds by assumption on the parser (`Url.ReparsesConsistently` states the re-parse facts the proof unfolds), not by proof work |
| Strings.Contains | background/injected-helper.ts:41 | `includes` holds exactly when the substring occurs at some index |
| Strings.IntToDecimal | components/StatusBadge.tsx:22 | for integers below 10^21 in magnitude, `code.toString()`: reads back as the same integer and is in canonical form: a leading `-` exactly for negatives, never "-0", and no leading zero except "0" itself |
| Strings.CanonicalDigitsRoundTrip | components/StatusBadge.tsx:22 | a digit string without leading zeros is the decimal writing of its own value |
| Strings.IntToDecimalUnique | components/StatusBadge.tsx:22 | the decimal writer's output is the only canonical string that reads back as the code (`code.toString()` for integers below 10^21 in magnitude) |
| Strings.NatDecimalRoundTrip | components/StatusBadge.tsx:22 | the digit string of a natural number reads back as that number |
| Strings.IntToDecimalInjective | components/StatusBadge.tsx:22 | distinct codes have distinct decimal labels |
| Base.Dedup | background/injected-helper.ts:32 | first-occurrence deduplication: no repeats, every element comes from the input, and every input element is kept |
| Base.DedupAppend | background/injected-helper.ts:44-47 | deduplicating more input only extends the earlier result, and what it appends is new and comes from the added input |
| Scanner.CaptureAt | background/injected-helper.ts:59 | a match opening at index `i` exists exactly when a group is captured there, and the capture is the text between the quotes |
| Scanner.FirstMatchFrom | background/injected-helper.ts:59 | no capture exactly when no match opens at or after `i`; otherwise the capture belongs to the leftmost such match |
| Scanner.InlineUrl | background/injected-helper.ts:59 | `content.match(...)?.[1]` is present exactly when the pattern matches somewhere, and is the group of the leftmost match |
| Scanner.LeftmostMatchUnique | background/injected-helper.ts:59 | there is only one leftmost match |
| Scanner.InlineHitIff | background/injected-helper.ts:57-66 | a script yields an origin in the inline pass exactly when its text holds the marker and the leftmost match's URL has that origin |
| Scanner.SrcPassMembership | background/injected-helper.ts:39-53 | pass 1 yields origin `d` exactly when some script's `src` contains `/mtc.js` and parses to origin `d` |
| Scanner.InlinePassMembership | background/injected-helper.ts:56-73 | pass 2 yields origin `d` exactly when some script's text holds `MauticTrackingObject` and its leftmost pattern match parses to origin `d` |
| Scanner.FormPassMembership | background/injected-helper.ts:76-97 | pass 3 yields origin `d` exactly when some form's class contains `mauticform` or its action contains `/form/submit` or `/mautic/`, and its action parses to origin `d` |
| Scanner.ImgPassMembership | background/injected-helper.ts:100-115 | pass 4 yields origin `d` exactly when some image's `src` contains `/mtracking.gif` and parses to origin `d` |
| Scanner.CandidatesOrigins | background/injected-helper.ts:38-115 | the scan's origins are the four passes' origins in pass order |
| Scanner.ScanMembership | background/injected-helper.ts:38-115 | a domain is reported exactly when some element produces it in one of the four passes |
| Scanner.EarlierPassesComeFirst | background/injected-helper.ts:38-115 | the result after each pass is a prefix of the final result, and no later pass adds a domain an earlier pass found |
| Scanner.ScanPass | background/injected-helper.ts:39-115 | one pass over its elements, continuing the shared processed set, ends with the deduplicated origins of all elements seen so far |
| Scanner.FindMauticTrackers | background/injected-helper.ts:27-119 | the trackers are the deduplicated origins of the four passes in order; each has a domain and no status code, and no two share a domain |
| Scanner.GetTrackingInfo | background/injected-helper.ts:121-129 | the result always has author "Bob Smith", the page origin as domain, the document title, and the scan's trackers |
| Scanner.UnparsableScriptSkipped | background/injected-helper.ts:39-73 | a script whose URLs do not parse can be inserted anywhere without changing the result, so the later scripts are still scanned |
| Scanner.UnparsableFormSkipped | background/injected-helper.ts:86-95 | a form whose action does not parse can be inserted anywhere without changing the result |
| Scanner.UnparsableImgSkipped | background/injected-helper.ts:104-113 | an image whose `src` does not parse can be inserted anywhere without changing the result |
| Scanner.ScanEmptyIff | background/injected-helper.ts:118 | the result is the empty list, not an error, exactly when no element produces an origin |
| StatusBadge.StatusColor | components/StatusBadge.tsx:10-17 | `Colour` stands for the four Tailwind classes (`StatusBadge.ClassName`): green exactly for 200–299, yellow exactly for 300–399 (399 included), red exactly from 400 up, grey exactly below 200 (0 and negatives included) |
| StatusBadge.StatusClassName | components/StatusBadge.tsx:10-17 | the class string `getStatusColor` returns: "bg-green-500" exactly for 200–299, "bg-yellow-500" exactly for 300–399, "bg-red-500" exactly from 400 up, "bg-gray-500" exactly below 200 |
| StatusBadge.StatusText | components/StatusBadge.tsx:19-23 | "Error" for 0, "Redirect" for 399, otherwise a canonical decimal label that reads back as the code |
| StatusBadge.StatusTextCanonical | components/StatusBadge.tsx:19-23 | for any other code, the label is the one canonical decimal string of the code, which is `code.toString()` for integers below 10^21 in magnitude |
| StatusBadge.LabelsIdentifyCodes | components/StatusBadge.tsx:19-23 | two codes with the same label are the same code |
| StatusBadge.Render | components/StatusBadge.tsx:7-29 | nothing exactly when the code is absent; 0 is present and shows as a grey "Error"; 399 shows as a yellow "Redirect"; otherwise the colour and label of the code |
| DomainIndex.DropUrl | background/services/StorageService.ts:214-216 | the list keeps exactly the entries with another URL, and is unchanged when the URL is absent |
| DomainIndex.DropUrlAppend | background/services/StorageService.ts:214-216 | filtering distributes over concatenation, so the kept entries keep their order and multiplicity (the list stays newest first) |
| DomainIndex.DropUrlIdempotent | background/services/StorageService.ts:214-216 | filtering a URL out a second time changes nothing |
| DomainIndex.LatestOf | background/services/StorageService.ts:232-233 | the latest timestamp is absent exactly for an empty list, and is one of the list's timestamps and at least every other one |
| DomainIndex.InsertSorted | background/services/StorageService.ts:230-236 | inserting a domain into a list ordered newest first keeps it ordered |
| DomainIndex.SortByLatest | background/services/StorageService.ts:230-236 | the sorted keys are a permutation of the input keys, ordered by non-increasing latest page timestamp |
| DomainIndex.Untouched | background/services/StorageService.ts:223-227 | exactly the old keys not rescanned, without repeats |
| DomainIndex.UntouchedAppend | background/services/StorageService.ts:223-227 | selecting the untouched keys distributes over concatenation, so they keep their old relative order (the sort's tie-break) |
| DomainIndex.UnsortedKeysWellFormed | background/services/StorageService.ts:206-227 | before sorting, the new object has every scanned domain and every old domain as a key, each once |
| DomainIndex.RebuiltPages | background/services/StorageService.ts:206-227 | every scanned domain gets the fresh entry followed by its old list without this URL; every other old domain keeps its list; no domain is dropped |
| DomainIndex.Rebuild | background/services/StorageService.ts:193-247 | the rebuilt index is well formed, holds the rebuilt lists, and lists its domains newest first |
| DomainIndex.FreshEntryUniqueAtHead | background/services/StorageService.ts:209-220 | in a scanned domain's list the page's URL occurs once, at the head, and the domain's latest timestamp is at least the entry's |
| DomainIndex.RebuildIdempotent | background/services/StorageService.ts:206-242 | rebuilding again for the same page and scan changes no list and keeps the same keys |
| DomainIndex.RebuildTwoPages | background/services/StorageService.ts:209-220 | after two rebuilds for different URLs that both name a domain, that domain's list starts with the later entry, then the earlier one |
| Storage.InitializeStorage | background/services/StorageService.ts:45-67 | each absent key gets its default (`{}` for the three maps, `""` for domain and author), and each present key is left exactly as it is |
| Storage.InitializeIdempotent | background/services/StorageService.ts:45-67 | initialising twice is the same as initialising once |
| Storage.ClearStorage | background/services/StorageService.ts:83-92 | after clearing, every key holds its default and nothing else survives |
| Storage.ClearForgetsEverything | background/services/StorageService.ts:83-92 | after clearing, every URL has no record and no current domains, and the index is empty |
| Storage.GetMauticData | background/services/StorageService.ts:123-137 | the record under the normalised URL if there is one, otherwise `null` |
| Storage.GetCurrentPageDomains | background/services/StorageService.ts:139-145 | the stored domains under the normalised URL if there are any, otherwise the empty list |
| Storage.StatusOrDefault | background/services/StorageService.ts:172 | `statusCode \|\| 200`: a present non-zero code is kept; a missing code and 0 both become 200; the result is never 0 |
| Storage.ToDomainStatuses | background/services/StorageService.ts:166-173 | a status is kept exactly when some tracker with a non-empty domain converts to it; no kept status has an empty URL or status 0 |
| Storage.ToDomainStatusesAppend | background/services/StorageService.ts:166-173 | the conversion keeps order, since it distributes over concatenation |
| Storage.ScannedDomain | background/services/StorageService.ts:209-211 | the save indexes a domain exactly when some tracker names it |
| Storage.MakePageEntry | background/services/StorageService.ts:199-203 | the entry has the normalised URL and the clock reading; its title is `pageTitle` when non-empty, otherwise the normalised URL |
| Storage.SaveMauticData | background/services/StorageService.ts:94-121 | the record under the normalised URL is replaced, the other records are kept, and no other key changes |
| Storage.SavedCurrentPages | background/services/StorageService.ts:178-191 | the current-page view of this URL becomes exactly the new domains and timestamp; every other URL's view is kept |
| Storage.SavedIndex | background/services/StorageService.ts:193-247 | the stored index after a save is well formed, holds the rebuilt lists, and is ordered newest first |
| Storage.SaveInjectionResults | background/services/StorageService.ts:147-266 | a save keeps the store well formed and leaves domain and author untouched; it rewrites the current-page view, the index and the per-URL record for this page only |
| Storage.SaveThenRead | background/services/StorageService.ts:147-266 | right after a save, reading any URL with the same key gives the saved domain statuses and the saved record |
| Storage.SaveKeepsOtherUrls | background/services/StorageService.ts:178-186 | a save leaves what every other URL reads back unchanged |
| Storage.SaveIndexesScannedDomain | background/services/StorageService.ts:209-220 | each scanned domain's list is the new entry followed by its old list without this URL; the URL occurs there once, at the head, with the save's title and timestamp |
| Storage.SaveKeepsOtherDomains | background/services/StorageService.ts:222-227 | no domain leaves the index, and domains the scan did not name keep their lists exactly |
| Storage.SaveSortsDomains | background/services/StorageService.ts:229-242 | after a save the index lists each domain once, and in non-increasing order of latest page timestamp |
| Storage.TwoPagesSameDomain | background/services/StorageService.ts:209-220 | two pages saved with the same tracker domain are both listed for it, the later save first |
| Storage.SaveIdempotent | background/services/StorageService.ts:147-266 | repeating a save with the same arguments and clock changes neither stored map nor any page list, and keeps the same domains |
| Injection.MainDomain | background/services/InjectionService.ts:43-44 | the first tracker's domain when it is non-empty, otherwise "unknown"; never empty |
| Injection.Decide | background/services/InjectionService.ts:29-69 | an injection error or a failed result gives the error badge; trackers found gives success with the main domain; anything else gives not found. A save happens exactly on success, with the main domain, the author, the tab URL, all trackers, and the title or "Untitled Page" |
| Injection.Inject | background/services/InjectionService.ts:15-70 | storage is initialised first; the badge is the callback's decision; the store is saved on exactly when trackers were found |
| Injection.PayloadOf | background/services/InjectionService.ts:37-38 | the result `executeScript` hands back is the object `getTrackingInfo` built (injected-helper.ts:121-129): its author, title and trackers arrive as present values; its unused `domain` field is dropped |
| Injection.DetectedStatuses | background/services/StorageService.ts:166-173 | a scan's trackers convert to exactly the non-empty found origins, each with status 200 |
| Injection.ScanThenInject | background/services/InjectionService.ts:41-64 | a scan that finds nothing badges "not found" and only initialises storage; otherwise the tab is badged with the first origin (or "unknown"), the tab's URL reads back every found origin with status 200, and the scan is recorded under that URL |
| StoredBadges.StoredStatusesNeverError | background/services/StorageService.ts:172 | because 0 becomes 200 on save, a stored status always renders a badge and never the "Error" label |
| StoredBadges.ScannedStatusIsDefault | background/injected-helper.ts:46 | the scan sets no status code, so every scanned domain is stored with status 200 |
| StoredBadges.ScannedDomainsShowGreen | components/StatusBadge.tsx:13 | every domain a scan found shows a green "200" badge |

## Left out

- URL parsing: the WHATWG parser is an abstract parameter. Normalisation being idempotent is proved only for parsers that re-read a normalised URL consistently (`Url.ReparsesConsistently`).
- The popup and side panel carry their own copies of `normalizeUrl` (popup.tsx:20-28, sidepanel.tsx:27-35), the same code as the background's; the model has the one `Url.Normalize`, so a UI lookup of a tab's URL is the read-after-write of `Storage.SaveThenRead`.
- The DOM: the queries are replaced by element records. A missing `src` attribute is `None`. A missing `action`, `class` or image `src`, and a `null` `textContent`, are read as `""`, as the code does.
- Asynchrony and the Chrome APIs: `chrome.tabs.get`, `executeScript`, `await` ordering and the write-then-verify read (StorageService.ts:114) are not modelled. The script outcome is an input (`Injection.Outcome`).
- The `@plasmohq/storage` library is replaced by the `Store` value. Storage failures and partial writes are not modelled. The save either happens entirely or not at all.
- The swallowed save error (InjectionService.ts:58-60) is not modelled as a separate path. The badge never depends on the save in the model either.
- BadgeService: only the abstract badge action is modelled, not the Chrome badge calls.
- Event wiring in background/index.ts, and all React UI except the status badge, including the timer-driven display in CurrentPageTrackers.tsx.
- `getStorageState` (StorageService.ts:268-290): a debugging read of all five keys, with nothing to state beyond the `Store` value itself.
- Storage.InitializeStorage: treats only an absent key as unset. A stored `null` or other falsy value is not modelled, though the code would also replace it for the three maps.
- Clock readings: the three `Date.now()` readings are independent parameters, not one shared timestamp. They can be equal.
- Strings.IntToDecimal: the decimal form is modelled for every integer, but `toString()` gives it only for safe integers below 10^21 in magnitude. The exponent form (`"1e+21"`) and the precision lost above 2^53 are not modelled; status codes are three-digit numbers.
- StatusBadge.StatusText: inherits that limit; for codes of magnitude 10^21 or more the label is the full digit string, not the exponent form.
- Storage.StatusOrDefault: status codes are integers. `NaN` and fractional numbers are not modelled.
- Key order of the index: JavaScript orders integer-like keys such as `"123"` before the others, whatever the insertion order. The model keeps pure insertion order, which is right for origins. Keys that are `Object.prototype` member names (`__proto__`, `constructor`, `toString`, `hasOwnProperty`, …) are not modelled: the code would read an inherited value for them (StorageService.ts:211, 224) and `.filter` would throw (line 214). Origins never take these forms, so the scan cannot produce them.
- DomainIndex.SortByLatest: states sortedness and permutation, not stability. The stable order that `Array.prototype.sort` gives equal timestamps is what the definition computes, but no lemma states it.
- Storage.SaveIdempotent: for the index order it states only that a repeated save keeps the same set of domains, not the same order of domains with equal timestamps.

## Notes on the code

- `statusCode || 200` (StorageService.ts:172) turns a 0 code into 200 before it is stored, and the scan sets no code at all. So StatusBadge's grey "Error" case for code 0 cannot appear for a stored status (`StoredBadges.StoredStatusesNeverError`).
- `inject` always passes a non-empty title (`result.title || "Untitled Page"`). So the save's fallback of titling an entry with its URL (StorageService.ts:201) is never used on that path (`Injection.Decide`).
