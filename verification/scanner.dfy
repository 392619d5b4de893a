/** The in-page tracker scan (`findMauticTrackers` and `getTrackingInfo` of
    background/injected-helper.ts). The document is reduced to what the scan
    reads: the `src` attribute and text of every script, the `action` and
    `class` of every form, and the `src` of every image. */
module Scanner {
  import opened Base
  import opened Strings
  import opened Url
  import opened Trackers

  const ScriptPath: string := "/mtc.js"
  const InitMarker: string := "MauticTrackingObject"
  const FormClassMarker: string := "mauticform"
  const FormSubmitPath: string := "/form/submit"
  const FormMauticPath: string := "/mautic/"
  const PixelPath: string := "/mtracking.gif"
  const SecureScheme: string := "https://"
  const Author: string := "Bob Smith"

  /** A `<script>`: its `src` attribute if any, and its `textContent`
      (`null` already read as `""`). */
  datatype Script = Script(src: Option<string>, text: string)
  /** A `<form>`: absent `action` and `class` attributes read as `""`. */
  datatype Form = Form(action: string, cls: string)
  /** An `<img>`: an absent `src` reads as `""`. */
  datatype Img = Img(src: string)
  datatype Document = Document(
    scripts: seq<Script>, forms: seq<Form>, images: seq<Img>,
    title: string, origin: string)

  /** What `getTrackingInfo` hands back to the extension. */
  datatype TrackingResult = TrackingResult(
    author: string, domain: string, title: string, trackingInfo: seq<Tracker>)

  // ---------------------------------------------------------------------
  // The inline-initialisation pattern /["'](https:\/\/[^"']+\/mtc\.js)["']/
  // ---------------------------------------------------------------------

  predicate IsQuote(c: char) {
    c == '"' || c == '\''
  }

  /** A quote-free group matches `https:\/\/[^"']+\/mtc\.js` exactly when it
      starts with the scheme, ends with the script path, and has at least
      one character between them. */
  predicate GroupShape(g: string) {
    && |g| >= |SecureScheme| + 1 + |ScriptPath|
    && SecureScheme <= g
    && HasSuffix(g, ScriptPath)
  }

  /** The pattern matches `s` with its opening quote at `i` and its closing
      quote at `e`; the captured URL is `s[i + 1..e]`. */
  ghost predicate RegexMatch(s: string, i: int, e: int) {
    && 0 <= i < e < |s|
    && IsQuote(s[i]) && IsQuote(s[e])
    && (forall k :: i < k < e ==> !IsQuote(s[k]))
    && GroupShape(s[i + 1..e])
  }

  /** No match of the pattern opens at an index in `[lo, hi)`. */
  ghost predicate NoMatchBetween(s: string, lo: int, hi: int) {
    forall j, e :: lo <= j < hi ==> !RegexMatch(s, j, e)
  }

  /** Index of the first quote at or after `k`, or `|s|` if there is none. */
  function NextQuote(s: string, k: nat): (e: nat)
    requires k <= |s|
    ensures k <= e <= |s|
    ensures forall j :: k <= j < e ==> !IsQuote(s[j])
    ensures e < |s| ==> IsQuote(s[e])
    decreases |s| - k
  {
    if k == |s| || IsQuote(s[k]) then k else NextQuote(s, k + 1)
  }

  /** The group cannot contain a quote, so a match that opens at `i` closes
      at the very next quote. */
  lemma MatchClosesAtNextQuote(s: string, i: int, e: int)
    requires RegexMatch(s, i, e)
    ensures e == NextQuote(s, i + 1)
  {
  }

  /** The group captured by a match opening at `i`, if there is one. */
  function CaptureAt(s: string, i: nat): (r: Option<string>)
    requires i < |s|
    ensures r.Some? <==> exists e :: RegexMatch(s, i, e)
    ensures forall e :: RegexMatch(s, i, e) ==> r == Some(s[i + 1..e])
  {
    if !IsQuote(s[i]) then None
    else
      var e := NextQuote(s, i + 1);
      if e < |s| && GroupShape(s[i + 1..e]) then
        assert RegexMatch(s, i, e);
        forall e' | RegexMatch(s, i, e') ensures e' == e {
          MatchClosesAtNextQuote(s, i, e');
        }
        Some(s[i + 1..e])
      else
        forall e' | RegexMatch(s, i, e') ensures false {
          MatchClosesAtNextQuote(s, i, e');
        }
        None
  }

  /** The leftmost match opening at index `i` or later. */
  function FirstMatchFrom(s: string, i: nat): (r: Option<string>)
    requires i <= |s|
    ensures r.None? <==> NoMatchBetween(s, i, |s|)
    ensures r.Some? ==>
              exists j, e :: i <= j && RegexMatch(s, j, e) && r.value == s[j + 1..e]
                             && NoMatchBetween(s, i, j)
    decreases |s| - i
  {
    if i == |s| then None
    else
      match CaptureAt(s, i)
      case Some(g) =>
        assert NoMatchBetween(s, i, i);
        Some(g)
      case None =>
        var r := FirstMatchFrom(s, i + 1);
        assert NoMatchBetween(s, i, i + 1);
        r
  }

  /** `content.match(pattern)?.[1]`: the URL captured by the leftmost match. */
  function InlineUrl(s: string): (r: Option<string>)
    ensures r.Some? <==> exists j, e :: RegexMatch(s, j, e)
    ensures r.Some? ==>
              exists j, e :: RegexMatch(s, j, e) && r.value == s[j + 1..e] && NoMatchBetween(s, 0, j)
  {
    FirstMatchFrom(s, 0)
  }

  // ---------------------------------------------------------------------
  // The four detection passes
  // ---------------------------------------------------------------------

  /** Pass 1: a script whose `src` contains the tracker script path. */
  function SrcCandidate(s: Script): Option<string> {
    if s.src.Some? && Contains(s.src.value, ScriptPath) then s.src else None
  }

  /** Pass 2: a script whose text mentions the initialisation marker and
      holds a quoted `https://…/mtc.js` literal. */
  function InlineCandidate(s: Script): Option<string> {
    if Contains(s.text, InitMarker) then InlineUrl(s.text) else None
  }

  predicate FormLooksTracked(f: Form) {
    || Contains(f.cls, FormClassMarker)
    || Contains(f.action, FormSubmitPath)
    || Contains(f.action, FormMauticPath)
  }

  /** Pass 3: a form recognised by its class or action path. */
  function FormCandidate(f: Form): Option<string> {
    if FormLooksTracked(f) then Some(f.action) else None
  }

  /** Pass 4: an image whose `src` contains the tracking-pixel path. */
  function ImgCandidate(m: Img): Option<string> {
    if Contains(m.src, PixelPath) then Some(m.src) else None
  }

  function SrcPass(doc: Document): seq<Option<string>> {
    MapSeq(SrcCandidate, doc.scripts)
  }

  function InlinePass(doc: Document): seq<Option<string>> {
    MapSeq(InlineCandidate, doc.scripts)
  }

  function FormPass(doc: Document): seq<Option<string>> {
    MapSeq(FormCandidate, doc.forms)
  }

  function ImgPass(doc: Document): seq<Option<string>> {
    MapSeq(ImgCandidate, doc.images)
  }

  /** Every URL the scan would try to parse, in scanning order. */
  function Candidates(doc: Document): seq<Option<string>> {
    SrcPass(doc) + InlinePass(doc) + FormPass(doc) + ImgPass(doc)
  }

  /** The origin an element contributes: none when it did not match its
      pass or when its URL does not parse (the `catch` skips it). */
  function CandidateOrigin(parse: Parser, c: Option<string>): Option<string> {
    if c.Some? then OriginOf(parse, c.value) else None
  }

  /** The origins the elements contribute, in scanning order, repeats kept. */
  function Origins(parse: Parser, cands: seq<Option<string>>): seq<string> {
    if |cands| == 0 then []
    else
      var rest := Origins(parse, cands[..|cands| - 1]);
      match CandidateOrigin(parse, cands[|cands| - 1])
      case Some(d) => rest + [d]
      case None => rest
  }

  /** An origin is contributed exactly when some element yields it. */
  lemma {:induction false} OriginsMembership(parse: Parser, cands: seq<Option<string>>, d: string)
    ensures d in Origins(parse, cands) <==>
              exists k :: 0 <= k < |cands| && CandidateOrigin(parse, cands[k]) == Some(d)
  {
    if |cands| > 0 {
      var init := cands[..|cands| - 1];
      OriginsMembership(parse, init, d);
      assert forall k :: 0 <= k < |init| ==> init[k] == cands[k];
      if d in Origins(parse, cands) && d !in Origins(parse, init) {
        assert CandidateOrigin(parse, cands[|cands| - 1]) == Some(d);
      }
    }
  }

  lemma OriginsSnoc(parse: Parser, cands: seq<Option<string>>, c: Option<string>)
    ensures Origins(parse, cands + [c]) ==
              Origins(parse, cands) + (if CandidateOrigin(parse, c).Some? then [CandidateOrigin(parse, c).value] else [])
  {
    assert (cands + [c])[..|cands|] == cands;
  }

  lemma {:induction false} OriginsAppend(parse: Parser, a: seq<Option<string>>, b: seq<Option<string>>)
    ensures Origins(parse, a + b) == Origins(parse, a) + Origins(parse, b)
  {
    if |b| == 0 {
      assert a + b == a;
    } else {
      var b' := b[..|b| - 1];
      var c := b[|b| - 1];
      assert a + b == (a + b') + [c];
      assert b == b' + [c];
      OriginsSnoc(parse, a + b', c);
      OriginsSnoc(parse, b', c);
      OriginsAppend(parse, a, b');
    }
  }

  /** The reference result of the scan: every contributed origin, first
      detection wins. */
  function ScanDomains(parse: Parser, doc: Document): seq<string> {
    Dedup(Origins(parse, Candidates(doc)))
  }

  /** The record pushed for a newly found domain: `{ domain }`. */
  function Detected(d: string): Tracker {
    Tracker(Some(d), None)
  }

  function AsTrackers(ds: seq<string>): seq<Tracker> {
    MapSeq(Detected, ds)
  }

  /** The effect of one more candidate on the deduplicated result: its
      origin is appended exactly when it is new. */
  lemma ScanStep(parse: Parser, seen: seq<Option<string>>, c: Option<string>)
    ensures var d := Dedup(Origins(parse, seen));
            var o := CandidateOrigin(parse, c);
            Dedup(Origins(parse, seen + [c])) == if o.Some? && o.value !in d then d + [o.value] else d
  {
    OriginsSnoc(parse, seen, c);
    var o := CandidateOrigin(parse, c);
    if o.Some? {
      DedupSnoc(Origins(parse, seen), o.value);
    }
  }

  /** The loop state of a pass stays the deduplicated origins seen so far. */
  lemma ScanStateStep(parse: Parser, seen: seq<Option<string>>, c: Option<string>,
                      info: seq<Tracker>, processed: set<string>)
    requires info == AsTrackers(Dedup(Origins(parse, seen)))
    requires processed == Elems(Dedup(Origins(parse, seen)))
    ensures var o := CandidateOrigin(parse, c);
            if o.Some? && o.value !in processed then
              && info + [Detected(o.value)] == AsTrackers(Dedup(Origins(parse, seen + [c])))
              && processed + {o.value} == Elems(Dedup(Origins(parse, seen + [c])))
            else
              && info == AsTrackers(Dedup(Origins(parse, seen + [c])))
              && processed == Elems(Dedup(Origins(parse, seen + [c])))
  {
    var d := Dedup(Origins(parse, seen));
    var d' := Dedup(Origins(parse, seen + [c]));
    var o := CandidateOrigin(parse, c);
    ScanStep(parse, seen, c);
    if o.Some? && o.value !in d {
      assert d' == d + [o.value];
      MapSeqAppend(Detected, d, [o.value]);
      assert MapSeq(Detected, [o.value]) == [Detected(o.value)];
      ElemsSnoc(d, o.value);
      assert o.value !in processed;
    } else {
      assert d' == d;
      assert o.Some? ==> o.value in processed;
    }
  }

  /** One detection pass over the candidate URLs `cands`, continuing from the
      records and processed-domain set left by the passes over `before`. */
  method ScanPass(parse: Parser, cands: seq<Option<string>>, info0: seq<Tracker>,
                  processed0: set<string>, ghost before: seq<Option<string>>)
    returns (info: seq<Tracker>, processed: set<string>)
    requires info0 == AsTrackers(Dedup(Origins(parse, before)))
    requires processed0 == Elems(Dedup(Origins(parse, before)))
    ensures info == AsTrackers(Dedup(Origins(parse, before + cands)))
    ensures processed == Elems(Dedup(Origins(parse, before + cands)))
  {
    info, processed := info0, processed0;
    var k := 0;
    ghost var seen := before;
    assert before + cands[..0] == before;
    while k < |cands|
      invariant 0 <= k <= |cands|
      invariant seen == before + cands[..k]
      invariant info == AsTrackers(Dedup(Origins(parse, seen)))
      invariant processed == Elems(Dedup(Origins(parse, seen)))
    {
      var c := cands[k];
      PrefixSnoc(before, cands, k);
      ScanStateStep(parse, seen, c, info, processed);
      var origin := CandidateOrigin(parse, c);
      if origin.Some? && origin.value !in processed {
        info := info + [Detected(origin.value)];
        processed := processed + {origin.value};
      }
      seen := seen + [c];
      k := k + 1;
    }
    assert cands[..|cands|] == cands;
  }

  /** `findMauticTrackers`: the four passes in order over one shared set of
      processed domains. */
  method FindMauticTrackers(parse: Parser, doc: Document) returns (info: seq<Tracker>)
    ensures info == AsTrackers(ScanDomains(parse, doc))
    ensures forall k :: 0 <= k < |info| ==> info[k].domain.Some? && info[k].statusCode.None?
    ensures forall i, j :: 0 <= i < j < |info| ==> info[i].domain != info[j].domain
  {
    var processed: set<string> := {};
    info := [];
    var p1, p2, p3, p4 := SrcPass(doc), InlinePass(doc), FormPass(doc), ImgPass(doc);
    assert [] + p1 == p1;
    info, processed := ScanPass(parse, p1, info, processed, []);
    info, processed := ScanPass(parse, p2, info, processed, p1);
    info, processed := ScanPass(parse, p3, info, processed, p1 + p2);
    info, processed := ScanPass(parse, p4, info, processed, p1 + p2 + p3);
  }

  /** `getTrackingInfo`: the scan plus the fixed author, the page origin and
      the document title. */
  method GetTrackingInfo(parse: Parser, doc: Document) returns (r: TrackingResult)
    ensures r.author == Author
    ensures r.domain == doc.origin && r.title == doc.title
    ensures r.trackingInfo == AsTrackers(ScanDomains(parse, doc))
  {
    var info := FindMauticTrackers(parse, doc);
    r := TrackingResult(Author, doc.origin, doc.title, info);
  }

  // ---------------------------------------------------------------------
  // Properties of the scan
  // ---------------------------------------------------------------------

  /** Pass 1 contributes `d` for a script whose `src` contains the script
      path and parses with origin `d`. */
  ghost predicate SrcHit(parse: Parser, sc: Script, d: string) {
    sc.src.Some? && Contains(sc.src.value, ScriptPath) && OriginOf(parse, sc.src.value) == Some(d)
  }

  /** Pass 2 contributes `d` for a script whose text has the marker and whose
      leftmost pattern match captures a URL of origin `d`. */
  ghost predicate InlineHit(parse: Parser, sc: Script, d: string) {
    && Contains(sc.text, InitMarker)
    && exists j, e :: RegexMatch(sc.text, j, e) && NoMatchBetween(sc.text, 0, j)
                      && OriginOf(parse, sc.text[j + 1..e]) == Some(d)
  }

  /** Pass 3 contributes `d` for a recognised form whose action has origin `d`. */
  ghost predicate FormHit(parse: Parser, f: Form, d: string) {
    FormLooksTracked(f) && OriginOf(parse, f.action) == Some(d)
  }

  /** Pass 4 contributes `d` for a pixel image whose `src` has origin `d`. */
  ghost predicate ImgHit(parse: Parser, m: Img, d: string) {
    Contains(m.src, PixelPath) && OriginOf(parse, m.src) == Some(d)
  }

  /** Two leftmost matches are the same match. */
  lemma LeftmostMatchUnique(s: string, j: int, e: int, j': int, e': int)
    requires RegexMatch(s, j, e) && NoMatchBetween(s, 0, j)
    requires RegexMatch(s, j', e') && NoMatchBetween(s, 0, j')
    ensures j == j' && e == e'
  {
    if j < j' {
      assert false;
    } else if j' < j {
      assert false;
    } else {
      MatchClosesAtNextQuote(s, j, e);
      MatchClosesAtNextQuote(s, j', e');
    }
  }

  lemma InlineHitIff(parse: Parser, sc: Script, d: string)
    ensures InlineHit(parse, sc, d) <==> CandidateOrigin(parse, InlineCandidate(sc)) == Some(d)
  {
    if InlineHit(parse, sc, d) {
      var j, e :| RegexMatch(sc.text, j, e) && NoMatchBetween(sc.text, 0, j)
                  && OriginOf(parse, sc.text[j + 1..e]) == Some(d);
      var r := InlineUrl(sc.text);
      var j', e' :| RegexMatch(sc.text, j', e') && r.value == sc.text[j' + 1..e'] && NoMatchBetween(sc.text, 0, j');
      LeftmostMatchUnique(sc.text, j, e, j', e');
    }
  }

  lemma PassMembership<E>(parse: Parser, f: E -> Option<string>, xs: seq<E>, d: string)
    ensures d in Origins(parse, MapSeq(f, xs)) <==>
              exists k :: 0 <= k < |xs| && CandidateOrigin(parse, f(xs[k])) == Some(d)
  {
    OriginsMembership(parse, MapSeq(f, xs), d);
  }

  lemma DedupMembership(xs: seq<string>, d: string)
    ensures d in Dedup(xs) <==> d in xs
  {
    if d in Dedup(xs) {
      var i :| 0 <= i < |Dedup(xs)| && Dedup(xs)[i] == d;
    }
    if d in xs {
      var i :| 0 <= i < |xs| && xs[i] == d;
    }
  }

  lemma SrcPassMembership(parse: Parser, doc: Document, d: string)
    ensures d in Origins(parse, SrcPass(doc)) <==>
              exists k :: 0 <= k < |doc.scripts| && SrcHit(parse, doc.scripts[k], d)
  {
    PassMembership(parse, SrcCandidate, doc.scripts, d);
  }

  lemma InlinePassMembership(parse: Parser, doc: Document, d: string)
    ensures d in Origins(parse, InlinePass(doc)) <==>
              exists k :: 0 <= k < |doc.scripts| && InlineHit(parse, doc.scripts[k], d)
  {
    PassMembership(parse, InlineCandidate, doc.scripts, d);
    forall k | 0 <= k < |doc.scripts|
      ensures InlineHit(parse, doc.scripts[k], d) <==>
                CandidateOrigin(parse, InlineCandidate(doc.scripts[k])) == Some(d)
    {
      InlineHitIff(parse, doc.scripts[k], d);
    }
  }

  lemma FormPassMembership(parse: Parser, doc: Document, d: string)
    ensures d in Origins(parse, FormPass(doc)) <==>
              exists k :: 0 <= k < |doc.forms| && FormHit(parse, doc.forms[k], d)
  {
    PassMembership(parse, FormCandidate, doc.forms, d);
  }

  lemma ImgPassMembership(parse: Parser, doc: Document, d: string)
    ensures d in Origins(parse, ImgPass(doc)) <==>
              exists k :: 0 <= k < |doc.images| && ImgHit(parse, doc.images[k], d)
  {
    PassMembership(parse, ImgCandidate, doc.images, d);
  }

  /** The scan's origins are the four passes' origins, in pass order. */
  lemma CandidatesOrigins(parse: Parser, doc: Document)
    ensures Origins(parse, Candidates(doc)) ==
              Origins(parse, SrcPass(doc)) + Origins(parse, InlinePass(doc))
              + Origins(parse, FormPass(doc)) + Origins(parse, ImgPass(doc))
  {
    OriginsAppend(parse, SrcPass(doc) + InlinePass(doc) + FormPass(doc), ImgPass(doc));
    OriginsAppend(parse, SrcPass(doc) + InlinePass(doc), FormPass(doc));
    OriginsAppend(parse, SrcPass(doc), InlinePass(doc));
  }

  /** A domain is reported exactly when some element yields it in its pass:
      a script by its `src`, a script by its inline initialisation, a form,
      or a tracking pixel. */
  lemma ScanMembership(parse: Parser, doc: Document, d: string)
    ensures d in ScanDomains(parse, doc) <==>
              || (exists k :: 0 <= k < |doc.scripts| && SrcHit(parse, doc.scripts[k], d))
              || (exists k :: 0 <= k < |doc.scripts| && InlineHit(parse, doc.scripts[k], d))
              || (exists k :: 0 <= k < |doc.forms| && FormHit(parse, doc.forms[k], d))
              || (exists k :: 0 <= k < |doc.images| && ImgHit(parse, doc.images[k], d))
  {
    DedupMembership(Origins(parse, Candidates(doc)), d);
    CandidatesOrigins(parse, doc);
    SrcPassMembership(parse, doc, d);
    InlinePassMembership(parse, doc, d);
    FormPassMembership(parse, doc, d);
    ImgPassMembership(parse, doc, d);
  }

  /** Earlier passes are listed first: the result of the passes up to any
      point is a prefix of the final result, and whatever a later pass
      appends was not found by an earlier one. */
  lemma EarlierPassesComeFirst(parse: Parser, doc: Document)
    ensures var o1 := Origins(parse, SrcPass(doc));
            var o2 := Origins(parse, SrcPass(doc) + InlinePass(doc));
            var o3 := Origins(parse, SrcPass(doc) + InlinePass(doc) + FormPass(doc));
            var all := ScanDomains(parse, doc);
            && Dedup(o1) <= Dedup(o2) <= Dedup(o3) <= all
            && (forall i :: |Dedup(o1)| <= i < |all| ==> all[i] !in o1)
            && (forall i :: |Dedup(o2)| <= i < |all| ==> all[i] !in o2)
            && (forall i :: |Dedup(o3)| <= i < |all| ==> all[i] !in o3)
  {
    var p1, p2, p3, p4 := SrcPass(doc), InlinePass(doc), FormPass(doc), ImgPass(doc);
    var o1, o2, o3 := Origins(parse, p1), Origins(parse, p1 + p2), Origins(parse, p1 + p2 + p3);
    OriginsAppend(parse, p1, p2);
    OriginsAppend(parse, p1 + p2, p3);
    OriginsAppend(parse, p1 + p2 + p3, p4);
    var q2, q3, q4 := Origins(parse, p2), Origins(parse, p3), Origins(parse, p4);
    DedupAppend(o1, q2);
    DedupAppend(o2, q3);
    DedupAppend(o3, q4);
    var all := ScanDomains(parse, doc);
    assert all == Dedup(o3 + q4);
    assert o3 == o2 + q3 && o2 == o1 + q2;
    forall i | |Dedup(o1)| <= i < |all| ensures all[i] !in o1 {
      if i < |Dedup(o2)| {
        assert all[i] == Dedup(o2)[i];
      } else if i < |Dedup(o3)| {
        assert all[i] == Dedup(o3)[i];
      }
    }
    forall i | |Dedup(o2)| <= i < |all| ensures all[i] !in o2 {
      if i < |Dedup(o3)| {
        assert all[i] == Dedup(o3)[i];
      }
    }
  }

  /** An element that contributes nothing leaves the rest of the scan as it
      was. */
  lemma OriginsSkipDead(parse: Parser, a: seq<Option<string>>, c: Option<string>, b: seq<Option<string>>)
    requires CandidateOrigin(parse, c).None?
    ensures Origins(parse, a + [c] + b) == Origins(parse, a + b)
  {
    OriginsAppend(parse, a + [c], b);
    OriginsAppend(parse, a, b);
    OriginsSnoc(parse, a, c);
  }

  lemma InsertIntoPass<E>(parse: Parser, f: E -> Option<string>, xs: seq<E>, k: int, x: E)
    requires 0 <= k <= |xs|
    requires CandidateOrigin(parse, f(x)).None?
    ensures Origins(parse, MapSeq(f, xs[..k] + [x] + xs[k..])) == Origins(parse, MapSeq(f, xs))
  {
    var a, b := MapSeq(f, xs[..k]), MapSeq(f, xs[k..]);
    MapSeqAppend(f, xs[..k] + [x], xs[k..]);
    MapSeqAppend(f, xs[..k], [x]);
    MapSeqAppend(f, xs[..k], xs[k..]);
    assert MapSeq(f, [x]) == [f(x)];
    assert MapSeq(f, xs[..k] + [x] + xs[k..]) == a + [f(x)] + b;
    assert xs[..k] + xs[k..] == xs;
    OriginsSkipDead(parse, MapSeq(f, xs[..k]), f(x), MapSeq(f, xs[k..]));
  }

  /** The scan result depends on each pass only through the origins it
      contributes. */
  lemma ScanFromPassOrigins(parse: Parser, doc: Document, doc': Document)
    requires Origins(parse, SrcPass(doc)) == Origins(parse, SrcPass(doc'))
    requires Origins(parse, InlinePass(doc)) == Origins(parse, InlinePass(doc'))
    requires Origins(parse, FormPass(doc)) == Origins(parse, FormPass(doc'))
    requires Origins(parse, ImgPass(doc)) == Origins(parse, ImgPass(doc'))
    ensures ScanDomains(parse, doc) == ScanDomains(parse, doc')
  {
    CandidatesOrigins(parse, doc);
    CandidatesOrigins(parse, doc');
  }

  /** A form whose action does not parse is skipped on its own: inserting it
      anywhere changes nothing, and the forms after it are still scanned. */
  lemma UnparsableFormSkipped(parse: Parser, doc: Document, k: int, f: Form)
    requires 0 <= k <= |doc.forms|
    requires OriginOf(parse, f.action).None?
    ensures ScanDomains(parse, doc.(forms := doc.forms[..k] + [f] + doc.forms[k..])) == ScanDomains(parse, doc)
  {
    InsertIntoPass(parse, FormCandidate, doc.forms, k, f);
    ScanFromPassOrigins(parse, doc.(forms := doc.forms[..k] + [f] + doc.forms[k..]), doc);
  }

  /** An image whose `src` does not parse is skipped on its own. */
  lemma UnparsableImgSkipped(parse: Parser, doc: Document, k: int, m: Img)
    requires 0 <= k <= |doc.images|
    requires OriginOf(parse, m.src).None?
    ensures ScanDomains(parse, doc.(images := doc.images[..k] + [m] + doc.images[k..])) == ScanDomains(parse, doc)
  {
    InsertIntoPass(parse, ImgCandidate, doc.images, k, m);
    ScanFromPassOrigins(parse, doc.(images := doc.images[..k] + [m] + doc.images[k..]), doc);
  }

  /** A script neither of whose URLs parses (its `src`, and the URL its
      inline code captures) is skipped on its own in both script passes. */
  lemma UnparsableScriptSkipped(parse: Parser, doc: Document, k: int, sc: Script)
    requires 0 <= k <= |doc.scripts|
    requires sc.src.Some? ==> OriginOf(parse, sc.src.value).None?
    requires InlineUrl(sc.text).Some? ==> OriginOf(parse, InlineUrl(sc.text).value).None?
    ensures ScanDomains(parse, doc.(scripts := doc.scripts[..k] + [sc] + doc.scripts[k..])) == ScanDomains(parse, doc)
  {
    InsertIntoPass(parse, SrcCandidate, doc.scripts, k, sc);
    InsertIntoPass(parse, InlineCandidate, doc.scripts, k, sc);
    ScanFromPassOrigins(parse, doc.(scripts := doc.scripts[..k] + [sc] + doc.scripts[k..]), doc);
  }

  /** Nothing found is an empty list, not a failure: the scan is empty
      exactly when no element yields an origin. */
  lemma ScanEmptyIff(parse: Parser, doc: Document)
    ensures ScanDomains(parse, doc) == [] <==>
              forall k :: 0 <= k < |Candidates(doc)| ==> CandidateOrigin(parse, Candidates(doc)[k]).None?
  {
    var all := Origins(parse, Candidates(doc));
    if ScanDomains(parse, doc) == [] {
      forall k | 0 <= k < |Candidates(doc)| ensures CandidateOrigin(parse, Candidates(doc)[k]).None? {
        var o := CandidateOrigin(parse, Candidates(doc)[k]);
        if o.Some? {
          OriginsMembership(parse, Candidates(doc), o.value);
          assert false;
        }
      }
    } else {
      var d := ScanDomains(parse, doc)[0];
      DedupMembership(all, d);
      OriginsMembership(parse, Candidates(doc), d);
    }
  }
}
