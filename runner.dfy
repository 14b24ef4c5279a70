/** The run of one search term (dj-automation-runner-service.js): Tunebat metadata, then a
    YouTube search with the raw term, then the first result, then the download of its URL. */
module Runner {
  import opened Wrappers
  import opened Playwright
  import opened YouTube
  import opened Tunebat

  /** The injected ytdl-mp3 downloader, seen through `downloadSong(url)`. */
  datatype Downloader = Downloader(downloadSong: string -> Outcome<()>)

  /** `new DJAutomationRunnerService(tunebatService, youtubeService, downloader)`. */
  datatype RunnerService = RunnerService(
    tunebatService: TunebatService, youtubeService: YouTubeService, downloader: Downloader)

  /** Where a run stopped, when it rejected. */
  datatype Stage =
    | FetchMetadata  // getTunebatData rejected
    | ReadMetadata   // `tunebatData.artist` read on a null tunebatData
    | Search         // searchVideos rejected
    | Download       // downloadSong rejected

  /** How `run(searchTerm)` ends: it resolved after downloading, resolved after finding no
      result, or rejected at some stage with that stage's error. */
  datatype RunOutcome = Downloaded(url: string) | NoResult | Failed(stage: Stage, error: Error)

  /** The calls a run makes into its collaborators. */
  datatype RunnerCall =
    | GetTunebatDataCall(query: string)
    | SearchVideosCall(query: string)
    | GetFirstResultCall(videos: seq<SearchResult>, tunebatData: Option<Record>)
    | DownloadSongCall(url: string)

  /** The message of the TypeError that reading a property of null throws. */
  const NullArtist: Error := Error("Cannot read properties of null (reading 'artist')")

  /** From the YouTube search on: the search with `searchTerm` settles first; a rejection ends the
      run; otherwise the first result is taken with the metadata, and only when there is one is
      its URL downloaded, exactly once, as the last call. */
  ghost predicate SearchesThenDownloads(service: RunnerService, searchTerm: string,
                                        tunebatData: Option<Record>, r: RunOutcome, calls: seq<RunnerCall>)
  {
    match SearchVideos(service.youtubeService, searchTerm)
    case Threw(e) =>
      calls == [SearchVideosCall(searchTerm)] && r == Failed(Search, e)
    case Returned(videos) =>
      match GetFirstResult(videos, tunebatData)
      case None =>
        calls == [SearchVideosCall(searchTerm), GetFirstResultCall(videos, tunebatData)] && r == NoResult
      case Some(first) =>
        && calls == [SearchVideosCall(searchTerm), GetFirstResultCall(videos, tunebatData),
                     DownloadSongCall(first.url)]
        && r == match service.downloader.downloadSong(first.url)
                case Returned(_) => Downloaded(first.url)
                case Threw(e) => Failed(Download, e)
  }

  /** The part of `run` that follows the metadata: search, select, download. */
  method SearchAndDownload(service: RunnerService, searchTerm: string, tunebatData: Option<Record>)
    returns (r: RunOutcome, ghost calls: seq<RunnerCall>)
    ensures SearchesThenDownloads(service, searchTerm, tunebatData, r, calls)
  {
    var youtubeSearch := SearchVideos(service.youtubeService, searchTerm);
    calls := [SearchVideosCall(searchTerm)];
    if youtubeSearch.Threw? {
      r := Failed(Search, youtubeSearch.error);
      return;
    }
    var firstYoutubeResult := GetFirstResult(youtubeSearch.value, tunebatData);
    calls := calls + [GetFirstResultCall(youtubeSearch.value, tunebatData)];
    if firstYoutubeResult.Some? {
      var url := firstYoutubeResult.value.url;
      calls := calls + [DownloadSongCall(url)];
      var downloaded := service.downloader.downloadSong(url);
      if downloaded.Threw? {
        r := Failed(Download, downloaded.error);
        return;
      }
      r := Downloaded(url);
    } else {
      r := NoResult;
    }
  }

  /** `run(searchTerm)` as written: a null tunebatData is dereferenced (`tunebatData.artist`)
      before the search, so the run rejects with a TypeError and YouTube is never searched. */
  method Run(service: RunnerService, searchTerm: string) returns (r: RunOutcome, ghost calls: seq<RunnerCall>)
    ensures calls != [] && calls[0] == GetTunebatDataCall(searchTerm)
    ensures var t := GetTunebatData(service.tunebatService, searchTerm);
      && (t.Threw? ==> r == Failed(FetchMetadata, t.error) && calls == [GetTunebatDataCall(searchTerm)])
      && (t == Returned(None) ==> r == Failed(ReadMetadata, NullArtist) && calls == [GetTunebatDataCall(searchTerm)])
      && (t.Returned? && t.value.Some? ==> SearchesThenDownloads(service, searchTerm, t.value, r, calls[1..]))
    // YouTube is searched with the raw search term, never with the scraped artist or title
    ensures forall c :: c in calls && c.SearchVideosCall? ==> c.query == searchTerm
    // a download is only ever the last call, and it is of the first result's watch URL
    ensures forall i :: 0 <= i < |calls| - 1 ==> !calls[i].DownloadSongCall?
    ensures r.Downloaded? ==> calls[|calls| - 1] == DownloadSongCall(r.url) && VideoIdOf(r.url).Some?
    ensures r.NoResult? ==> forall c :: c in calls ==> !c.DownloadSongCall?
  {
    var tunebatData := GetTunebatData(service.tunebatService, searchTerm);
    calls := [GetTunebatDataCall(searchTerm)];
    if tunebatData.Threw? {
      r := Failed(FetchMetadata, tunebatData.error);
      return;
    }
    // `${tunebatData.artist} - ${tunebatData.title}`
    if tunebatData.value.None? {
      r := Failed(ReadMetadata, NullArtist);
      return;
    }
    ghost var rest;
    r, rest := SearchAndDownload(service, searchTerm, tunebatData.value);
    calls := calls + rest;
    assert calls[1..] == rest;
  }

  /** `run(searchTerm)` with the metadata read as `tunebatData?.artist`: missing metadata no
      longer stops the run; the search goes ahead with the raw term and the result carries null. */
  method RunTolerant(service: RunnerService, searchTerm: string) returns (r: RunOutcome, ghost calls: seq<RunnerCall>)
    ensures calls != [] && calls[0] == GetTunebatDataCall(searchTerm)
    ensures var t := GetTunebatData(service.tunebatService, searchTerm);
      && (t.Threw? ==> r == Failed(FetchMetadata, t.error) && calls == [GetTunebatDataCall(searchTerm)])
      && (t.Returned? ==> SearchesThenDownloads(service, searchTerm, t.value, r, calls[1..]))
    ensures r.Failed? ==> r.stage != ReadMetadata
    ensures GetTunebatData(service.tunebatService, searchTerm) == Returned(None) ==>
      SearchVideosCall(searchTerm) in calls
  {
    var tunebatData := GetTunebatData(service.tunebatService, searchTerm);
    calls := [GetTunebatDataCall(searchTerm)];
    if tunebatData.Threw? {
      r := Failed(FetchMetadata, tunebatData.error);
      return;
    }
    ghost var rest;
    r, rest := SearchAndDownload(service, searchTerm, tunebatData.value);
    calls := calls + rest;
    assert calls[1..] == rest;
  }

  /** A client of Run's contract: a Tunebat record, one search result with id "abc123", and a
      download that succeeds make the run download https://www.youtube.com/watch?v=abc123. */
  method CurbiVertigo(metadata: Record)
  {
    var video := SearchResult(ResourceId("abc123"), Snippet("Vertigo", Thumbnails(Thumbnail("thumb"))));
    var tunebat := TunebatService("https://tunebat.com/Search?q=", (u, c, q) => Returned(Some(metadata)));
    var axios := Axios(req => Returned(Response(SearchListResponse([video]))),
                       req => Returned(Response(VideoListResponse([]))));
    var service := RunnerService(tunebat, YouTubeService(axios, "token", "https://www.googleapis.com/youtube/v3"),
                                 Downloader(url => Returned(())));
    var r, calls := Run(service, "curbi vertigo");
    assert r == Downloaded("https://www.youtube.com/watch?v=abc123");
  }
}
