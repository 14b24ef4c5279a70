/** The Tunebat client (services/tunebat-service.js): a fixed field map for tunebat.com's song
    page, handed to the Playwright service together with the base URL and the query. */
module Tunebat {
  import opened Wrappers
  import opened Dom
  import opened Playwright

  /** `initializePlaywright(url, config, query)` of the injected Playwright service. */
  type SessionManager = (string, Config, string) -> Outcome<Option<Record>>

  /** `new TunebatService(baseUrl, playwrightService)`. */
  datatype TunebatService = TunebatService(baseUrl: string, initializePlaywright: SessionManager)

  const TunebatFields: seq<string> := ["artist", "title", "key", "bpm", "camelotKey", "popularity"]

  /** The `config` object of getTunebatData. */
  const TunebatConfig: Config := [
    ("artist", ".ant-typography-ellipsis._2zAVA"),
    ("title", ".ant-typography-ellipsis-multiple-line.aZDDf"),
    ("key", ".k43JJ:nth-child(1) .lAjUd"),
    ("bpm", ".k43JJ:nth-child(2) .lAjUd"),
    ("camelotKey", ".k43JJ:nth-child(3) .lAjUd"),
    ("popularity", ".k43JJ:nth-child(4) .lAjUd")
  ]

  /** `getTunebatData(query)`: one call of the session manager with the service's base URL, the
      fixed config and the query, all unchanged; whatever it settles with, null and a rejection
      included, is what getTunebatData settles with (there is no catch). */
  function GetTunebatData(service: TunebatService, query: string): (r: Outcome<Option<Record>>)
    ensures r == service.initializePlaywright(service.baseUrl, TunebatConfig, query)
  {
    service.initializePlaywright(service.baseUrl, TunebatConfig, query)
  }

  /** The config has exactly six distinct fields, in this order. */
  lemma TunebatConfigFields()
    ensures Keys(TunebatConfig) == TunebatFields && DistinctKeys(TunebatConfig)
  {
    // the six field names start with six different letters
    var initials := "atkbcp";
    assert forall i :: 0 <= i < |TunebatConfig| ==>
      TunebatConfig[i].0 == TunebatFields[i] && TunebatFields[i][0] == initials[i];
    forall i, j | 0 <= i < j < |TunebatConfig| ensures TunebatConfig[i].0 != TunebatConfig[j].0 {
      assert initials[i] != initials[j];
    }
  }

  /** A successful Tunebat scrape has exactly the six fields, in order, whatever the page. */
  lemma TunebatRecordFields(doc: Document)
    requires Extracted(doc, TunebatConfig).Some?
    ensures Keys(Extracted(doc, TunebatConfig).value) == TunebatFields
  {
    ExtractedKeys(doc, TunebatConfig);
    TunebatConfigFields();
  }

  /** Over the modelled browser session, getTunebatData yields null or a record of the six
      fields scraped from `baseUrl + encodeURIComponent(query)`, or the error of a failing
      `browser.close()`. */
  lemma TunebatOverPlaywright(chromium: Chromium, baseUrl: string, query: string)
    ensures var service := TunebatService(baseUrl, (u, c, q) => SessionOutcome(chromium, u, c, q));
      var r := GetTunebatData(service, query);
      && (r.Threw? ==> chromium.launch.Ok? && chromium.close.Fails?)
      && (r.Returned? && r.value.Some? ==>
            && r.value == Extracted(chromium.render(NavigationTarget(baseUrl, query)), TunebatConfig)
            && Keys(r.value.value) == TunebatFields)
  {
    var doc := chromium.render(NavigationTarget(baseUrl, query));
    if Extracted(doc, TunebatConfig).Some? {
      TunebatRecordFields(doc);
    }
  }
}
