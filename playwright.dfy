/** The Playwright service: `scrapeData`, the all-or-nothing extraction loop that runs inside the
    page, and `initializePlaywright`, the browser session around it (services/playwright-service.js). */
module Playwright {
  import opened Wrappers
  import opened Text
  import opened Uri
  import opened Dom

  // ---------------------------------------------------------------------------------------
  // Field maps and records

  /** Key/value pairs in the order `Object.entries` lists them. */
  type Entries = seq<(string, string)>

  /** The property names of one object are distinct. */
  predicate DistinctKeys(entries: Entries) {
    forall i, j :: 0 <= i < j < |entries| ==> entries[i].0 != entries[j].0
  }

  lemma DistinctKeysTail(entries: Entries)
    requires DistinctKeys(entries) && entries != []
    ensures DistinctKeys(entries[1..])
  {
    forall i, j | 0 <= i < j < |entries| - 1 ensures entries[1..][i].0 != entries[1..][j].0 {
      assert entries[1..][i] == entries[i + 1] && entries[1..][j] == entries[j + 1];
    }
  }

  /** The `config` object: field name to CSS selector. `Object.entries` never lists a name
      twice, so only sequences with DistinctKeys stand for a config; the extraction below does
      not depend on it. */
  type Config = Entries

  /** The `data` object `scrapeData` builds: field name to trimmed text. */
  type Record = Entries

  function Keys(entries: Entries): (ks: seq<string>)
    ensures |ks| == |entries|
    ensures forall i :: 0 <= i < |entries| ==> ks[i] == entries[i].0
  {
    if entries == [] then [] else [entries[0].0] + Keys(entries[1..])
  }

  /** The shape of the in-page loop over `Object.entries(config)`: the selectors are looked up
      in order, each found text is stored under its field name, and the first selector that
      finds nothing makes the whole result None, so that no partial record is ever produced. */
  function Collect(config: Config, lookup: string -> Option<string>): (r: Option<Record>)
    ensures r.Some? ==> |r.value| == |config|
  {
    if config == [] then Some([])
    else
      var head := lookup(config[0].1);
      var tail := Collect(config[1..], lookup);
      if head.None? || tail.None? then None
      else Some([(config[0].0, head.value)] + tail.value)
  }

  /** A record is collected exactly when every selector finds something. */
  lemma {:induction false} CollectDefined(config: Config, lookup: string -> Option<string>)
    ensures Collect(config, lookup).Some? <==> forall i :: 0 <= i < |config| ==> lookup(config[i].1).Some?
  {
    if config != [] {
      CollectDefined(config[1..], lookup);
      assert forall i :: 0 < i < |config| ==> config[i] == config[1..][i - 1];
    }
  }

  /** Entry `i` of a collected record is field `i` of the config with what its selector found. */
  lemma {:induction false} CollectAt(config: Config, lookup: string -> Option<string>, i: nat)
    requires Collect(config, lookup).Some? && i < |config|
    ensures lookup(config[i].1).Some?
    ensures Collect(config, lookup).value[i] == (config[i].0, lookup(config[i].1).value)
  {
    if i > 0 {
      CollectAt(config[1..], lookup, i - 1);
      assert config[1..][i - 1] == config[i];
    }
  }

  /** `element.innerText.trim()` for the element `document.querySelector(selector)` returns. */
  function TrimmedText(doc: Document, selector: string): Option<string> {
    match FirstMatchText(doc, selector)
    case None => None
    case Some(text) => Some(Trim(text))
  }

  /** What the in-page loop of `scrapeData` computes: every field of `config`, in order, bound to
      the trimmed `innerText` of the first element its selector matches (ExtractedDefined,
      ExtractedAt). */
  function Extracted(doc: Document, config: Config): (r: Option<Record>)
    ensures r.Some? ==> |r.value| == |config|
  {
    Collect(config, selector => TrimmedText(doc, selector))
  }

  /** A record is extracted exactly when every selector of the config matches some element. */
  lemma ExtractedDefined(doc: Document, config: Config)
    ensures Extracted(doc, config).Some? <==>
      forall i :: 0 <= i < |config| ==> FirstMatchText(doc, config[i].1).Some?
  {
    CollectDefined(config, selector => TrimmedText(doc, selector));
  }

  /** Entry `i` of an extracted record is field `i` of the config with the trimmed text of the
      first element its selector matches. */
  lemma ExtractedAt(doc: Document, config: Config, i: nat)
    requires Extracted(doc, config).Some? && i < |config|
    ensures FirstMatchText(doc, config[i].1).Some?
    ensures Extracted(doc, config).value[i] == (config[i].0, Trim(FirstMatchText(doc, config[i].1).value))
  {
    CollectAt(config, selector => TrimmedText(doc, selector), i);
  }

  /** `scrapeData(page, config, query)`: the loop `page.evaluate` runs over `Object.entries(config)`,
      with its early `return null`. */
  method ScrapeData(doc: Document, config: Config) returns (data: Option<Record>)
    ensures data == Extracted(doc, config)
  {
    ghost var lookup := selector => TrimmedText(doc, selector);
    var fields: Record := [];
    for i := 0 to |config|
      invariant |fields| == i && FieldsSoFar(config, lookup, fields)
    {
      var key, selector := config[i].0, config[i].1;
      var element := QuerySelector(doc, selector);
      if element.None? {
        CollectMissing(config, lookup, i);
        return None;
      }
      var value := Trim(doc[element.value].innerText);
      FieldsSoFarStep(config, lookup, fields, value);
      fields := fields + [(key, value)];
    }
    CollectIsTheFields(config, lookup, fields);
    return Some(fields);
  }

  /** The loop's invariant: `fields` holds the first `|fields|` entries of the record, each
      selector so far having found something. */
  ghost predicate FieldsSoFar(config: Config, lookup: string -> Option<string>, fields: Record) {
    && |fields| <= |config|
    && forall j :: 0 <= j < |fields| ==>
         lookup(config[j].1).Some? && fields[j] == (config[j].0, lookup(config[j].1).value)
  }

  lemma FieldsSoFarStep(config: Config, lookup: string -> Option<string>, fields: Record, value: string)
    requires FieldsSoFar(config, lookup, fields) && |fields| < |config|
    requires lookup(config[|fields|].1) == Some(value)
    ensures FieldsSoFar(config, lookup, fields + [(config[|fields|].0, value)])
  {
    var next := fields + [(config[|fields|].0, value)];
    forall j | 0 <= j < |next|
      ensures lookup(config[j].1).Some? && next[j] == (config[j].0, lookup(config[j].1).value)
    {
      if j < |fields| {
        assert next[j] == fields[j];
      }
    }
  }

  /** One selector that finds nothing makes the whole result None. */
  lemma CollectMissing(config: Config, lookup: string -> Option<string>, k: nat)
    requires k < |config| && lookup(config[k].1).None?
    ensures Collect(config, lookup) == None
  {
    CollectDefined(config, lookup);
  }

  /** The record the loop has built when it finishes is the one Collect describes. */
  lemma CollectIsTheFields(config: Config, lookup: string -> Option<string>, fields: Record)
    requires |fields| == |config| && FieldsSoFar(config, lookup, fields)
    ensures Collect(config, lookup) == Some(fields)
  {
    CollectDefined(config, lookup);
    var expected := Collect(config, lookup).value;
    forall j | 0 <= j < |fields| ensures expected[j] == fields[j] {
      CollectAt(config, lookup, j);
    }
    assert expected == fields;
  }

  /** One selector that matches nothing makes the whole extraction null. */
  lemma ExtractedMissing(doc: Document, config: Config, k: nat)
    requires k < |config| && FirstMatchText(doc, config[k].1).None?
    ensures Extracted(doc, config) == None
  {
    ExtractedDefined(doc, config);
  }

  /** A successful extraction has exactly the config's keys, in the config's order. */
  lemma ExtractedKeys(doc: Document, config: Config)
    requires Extracted(doc, config).Some?
    ensures Keys(Extracted(doc, config).value) == Keys(config)
  {
    var rec := Extracted(doc, config).value;
    forall i | 0 <= i < |config| ensures rec[i].0 == config[i].0 {
      ExtractedAt(doc, config, i);
    }
  }

  /** Every extracted value is trimmed: no leading or trailing white space or line terminator,
      and trimming it again changes nothing. */
  lemma ExtractedValuesTrimmed(doc: Document, config: Config)
    requires Extracted(doc, config).Some?
    ensures forall i :: 0 <= i < |config| ==>
      var v := Extracted(doc, config).value[i].1; IsTrimmed(v) && Trim(v) == v
  {
    var rec := Extracted(doc, config).value;
    forall i | 0 <= i < |config| ensures IsTrimmed(rec[i].1) && Trim(rec[i].1) == rec[i].1 {
      ExtractedAt(doc, config, i);
      TrimIdempotent(FirstMatchText(doc, config[i].1).value);
    }
  }

  /** An empty config yields an empty record, not null. */
  lemma ExtractedEmpty(doc: Document)
    ensures Extracted(doc, []) == Some([])
  {
  }

  // ---------------------------------------------------------------------------------------
  // The browser session

  /** The user agent the session gives its browser context; it has one value. */
  datatype UserAgent = DesktopChrome91

  /** The header value the user agent stands for. */
  function UserAgentString(agent: UserAgent): string {
    "Mozilla/5.0 (Windows NT 10.0; Win64; x64) AppleWebKit/537.36 (KHTML, like Gecko) Chrome/91.0.4472.124 Safari/537.36"
  }

  const DomContentLoaded: string := "domcontentloaded"

  /** How one awaited call into the browser ends. */
  datatype Step = Ok | Fails(error: Error)

  /** What the injected `chromium` and the browser, context and page it hands out do during one
      call of initializePlaywright. */
  datatype Chromium = Chromium(
    launch: Step,               // chromium.launch({ headless: true })
    newContext: Step,           // browser.newContext({ userAgent: UserAgentString(DesktopChrome91) })
    newPage: Step,              // context.newPage()
    goto: Step,                 // page.goto(target)
    isClosed: bool,             // page.isClosed() right after the navigation
    waitForNavigation: Step,    // page.waitForNavigation({ waitUntil: "domcontentloaded" })
    evaluate: Step,             // page.evaluate rejecting on its own (a destroyed context, say)
    render: string -> Document, // the page the browser shows for a navigation target
    close: Step)                // browser.close()

  /** The calls the session makes into the browser, with the arguments that matter. */
  datatype BrowserCall =
    | Launch(headless: bool)
    | NewContext(userAgent: UserAgent)
    | NewPage
    | Goto(url: string)
    | IsClosed
    | WaitForNavigation(waitUntil: string)
    | Evaluate(config: Config)
    | Close

  /** `${url}${encodeURIComponent(query)}`. */
  function NavigationTarget(url: string, query: string): string {
    url + EncodeURIComponent(query)
  }

  /** The protected region's calls when nothing goes wrong, in order. */
  function Protocol(url: string, config: Config, query: string): seq<BrowserCall> {
    [Launch(true), NewContext(DesktopChrome91), NewPage, Goto(NavigationTarget(url, query)),
     IsClosed, WaitForNavigation(DomContentLoaded), Evaluate(config)]
  }

  /** How many calls of the protocol are made before the first one that throws, or that finds
      the page closed, ends the protected region. */
  function Attempted(chromium: Chromium): (n: nat)
    ensures 1 <= n <= 7
  {
    if chromium.launch.Fails? then 1
    else if chromium.newContext.Fails? then 2
    else if chromium.newPage.Fails? then 3
    else if chromium.goto.Fails? then 4
    else if chromium.isClosed then 5
    else if chromium.waitForNavigation.Fails? then 6
    else 7
  }

  /** Every step up to and including the scrape succeeds. */
  predicate Completes(chromium: Chromium) {
    Attempted(chromium) == 7 && chromium.evaluate.Ok?
  }

  /** The value initializePlaywright settles with: null when launch throws (`browser` is still
      unset, so nothing is closed); the error of `browser.close()` when that throws in `finally`;
      otherwise the scraped record, which is null too when any step threw or the page closed. */
  function SessionOutcome(chromium: Chromium, url: string, config: Config, query: string)
    : (r: Outcome<Option<Record>>)
    ensures r.Threw? <==> chromium.launch.Ok? && chromium.close.Fails?
    ensures r.Threw? ==> r.error == chromium.close.error
    ensures r.Returned? && r.value.Some? ==> Completes(chromium)
  {
    if chromium.launch.Ok? && chromium.close.Fails? then Threw(chromium.close.error)
    else if Completes(chromium) then Returned(Extracted(chromium.render(NavigationTarget(url, query)), config))
    else Returned(None)
  }

  /** The `try` block of initializePlaywright. `launched` says whether `browser` was assigned. */
  method TryScrape(chromium: Chromium, url: string, config: Config, query: string)
    returns (launched: bool, settled: Outcome<Option<Record>>, ghost calls: seq<BrowserCall>)
    ensures launched == chromium.launch.Ok?
    ensures calls == Protocol(url, config, query)[..Attempted(chromium)]
    ensures Completes(chromium) ==>
      settled == Returned(Extracted(chromium.render(NavigationTarget(url, query)), config))
    ensures !Completes(chromium) ==> settled.Threw? || settled == Returned(None)
  {
    var protocol := Protocol(url, config, query);
    calls := [Launch(true)];
    assert calls == protocol[..1];
    launched := false;
    if chromium.launch.Fails? {
      settled := Threw(chromium.launch.error);
      assert Attempted(chromium) == 1;
      return;
    }
    launched := true;
    PrefixExtend(protocol, 1);
    calls := calls + [NewContext(DesktopChrome91)];
    if chromium.newContext.Fails? {
      settled := Threw(chromium.newContext.error);
      assert Attempted(chromium) == 2;
      return;
    }
    PrefixExtend(protocol, 2);
    calls := calls + [NewPage];
    if chromium.newPage.Fails? {
      settled := Threw(chromium.newPage.error);
      assert Attempted(chromium) == 3;
      return;
    }
    var target := NavigationTarget(url, query);
    PrefixExtend(protocol, 3);
    calls := calls + [Goto(target)];
    if chromium.goto.Fails? {
      settled := Threw(chromium.goto.error);
      assert Attempted(chromium) == 4;
      return;
    }
    PrefixExtend(protocol, 4);
    calls := calls + [IsClosed];
    if chromium.isClosed {
      settled := Returned(None);
      assert Attempted(chromium) == 5;
      return;
    }
    PrefixExtend(protocol, 5);
    calls := calls + [WaitForNavigation(DomContentLoaded)];
    if chromium.waitForNavigation.Fails? {
      settled := Threw(chromium.waitForNavigation.error);
      assert Attempted(chromium) == 6;
      return;
    }
    PrefixExtend(protocol, 6);
    calls := calls + [Evaluate(config)];
    assert Attempted(chromium) == 7 && calls == protocol;
    if chromium.evaluate.Fails? {
      settled := Threw(chromium.evaluate.error);
      return;
    }
    var data := ScrapeData(chromium.render(target), config);
    settled := Returned(data);
  }

  lemma PrefixExtend<T>(s: seq<T>, n: nat)
    requires n < |s|
    ensures s[..n] + [s[n]] == s[..n + 1]
  {
  }

  /** The calls one session makes: the protocol up to where the protected region stopped, then
      `browser.close()` whenever the browser was launched. */
  function SessionCalls(chromium: Chromium, url: string, config: Config, query: string): (r: seq<BrowserCall>)
    ensures 1 <= |r| <= 8 && r[0] == Launch(true)
    ensures chromium.launch.Fails? <==> r == [Launch(true)]
  {
    Protocol(url, config, query)[..Attempted(chromium)] + (if chromium.launch.Ok? then [Close] else [])
  }

  /** Teardown, navigation and the closed-page guard, read off the calls of a session. */
  lemma SessionCallsShape(chromium: Chromium, url: string, config: Config, query: string)
    ensures var calls := SessionCalls(chromium, url, config, query);
      && multiset(calls)[Close] == (if chromium.launch.Ok? then 1 else 0)
      && (chromium.launch.Ok? ==> calls[|calls| - 1] == Close)
      && (forall c :: c in calls && c.Goto? ==> c.url == NavigationTarget(url, query))
      && (chromium.isClosed ==> WaitForNavigation(DomContentLoaded) !in calls && Evaluate(config) !in calls)
  {
    var n := Attempted(chromium);
    var p := Protocol(url, config, query)[..n];
    ProtocolPrefix(url, config, query, n);
    if chromium.launch.Ok? {
      assert SessionCalls(chromium, url, config, query) == p + [Close];
      assert multiset(p + [Close]) == multiset(p) + multiset{Close};
    } else {
      assert SessionCalls(chromium, url, config, query) == p;
    }
  }

  /** `initializePlaywright(url, config, query)`: the protected region, a `catch` that turns any
      exception into null, and a `finally` that closes the browser whenever it was launched. */
  method InitializePlaywright(chromium: Chromium, url: string, config: Config, query: string)
    returns (r: Outcome<Option<Record>>, ghost calls: seq<BrowserCall>)
    ensures r == SessionOutcome(chromium, url, config, query)
    ensures calls == SessionCalls(chromium, url, config, query)
    // teardown: exactly one close, as the last call, whenever launch succeeded; none otherwise
    ensures multiset(calls)[Close] == if chromium.launch.Ok? then 1 else 0
    ensures chromium.launch.Ok? ==> calls[|calls| - 1] == Close
    // navigation goes to url + encodeURIComponent(query), and nowhere else
    ensures forall c :: c in calls && c.Goto? ==> c.url == NavigationTarget(url, query)
    // a page found closed is never waited on nor scraped
    ensures chromium.isClosed ==>
      WaitForNavigation(DomContentLoaded) !in calls && Evaluate(config) !in calls
    // the only exception that escapes is the one browser.close() throws
    ensures r.Threw? <==> chromium.launch.Ok? && chromium.close.Fails?
  {
    var launched, settled, tried := TryScrape(chromium, url, config, query);
    SessionCallsShape(chromium, url, config, query);
    calls := tried;
    // catch (error) { return null; }
    var value := if settled.Returned? then settled.value else None;
    // finally { if (browser) await browser.close(); }
    if launched {
      calls := calls + [Close];
      if chromium.close.Fails? {
        r := Threw(chromium.close.error);
        return;
      }
    }
    r := Returned(value);
  }

  /** What any prefix of the protocol contains: no close, navigation only to the target, and,
      when it stops at `isClosed`, no wait and no scrape. */
  lemma ProtocolPrefix(url: string, config: Config, query: string, n: nat)
    requires 1 <= n <= 7
    ensures var p := Protocol(url, config, query)[..n];
      && multiset(p)[Close] == 0
      && (forall c :: c in p && c.Goto? ==> c.url == NavigationTarget(url, query))
      && (n <= 5 ==> WaitForNavigation(DomContentLoaded) !in p && Evaluate(config) !in p)
  {
    var p := Protocol(url, config, query)[..n];
    assert forall i :: 0 <= i < n ==> p[i] != Close;
    assert Close !in p;
  }

  /** Distinct queries navigate to distinct URLs: the encoding loses nothing. */
  lemma NavigationTargetInjective(url: string, q1: string, q2: string)
    requires NavigationTarget(url, q1) == NavigationTarget(url, q2)
    ensures q1 == q2
  {
    assert NavigationTarget(url, q1)[|url|..] == EncodeURIComponent(q1);
    assert NavigationTarget(url, q2)[|url|..] == EncodeURIComponent(q2);
    EncodeInjective(q1, q2);
  }
}
