/** The YouTube Data API v3 client (services/youtube-service.js): the two GET requests it builds,
    the parts of the responses it returns, and the normalisation of search results. */
module YouTube {
  import opened Wrappers
  import opened Playwright

  // ---------------------------------------------------------------------------------------
  // Response shapes (the fields the service reads)

  datatype ResourceId = ResourceId(videoId: string)
  datatype Thumbnail = Thumbnail(url: string)
  /** `snippet.thumbnails`. */
  datatype Thumbnails = Thumbnails(default: Thumbnail)
  datatype Snippet = Snippet(title: string, thumbnails: Thumbnails)
  /** One element of `items` in a search response. */
  datatype SearchResult = SearchResult(id: ResourceId, snippet: Snippet)
  datatype ContentDetails = ContentDetails(duration: string)
  /** One element of `items` in a videos response. */
  datatype Video = Video(id: string, snippet: Snippet, contentDetails: ContentDetails)

  datatype SearchListResponse = SearchListResponse(items: seq<SearchResult>)
  datatype VideoListResponse = VideoListResponse(items: seq<Video>)

  /** What `axios.get` resolves with: the parsed body is under `data`. */
  datatype Response<T> = Response(data: T)

  /** One `axios.get(url, { params })`. */
  datatype HttpGet = HttpGet(url: string, params: seq<(string, string)>)

  /** The injected axios, seen once per endpoint: what a GET resolves with or rejects with. */
  datatype Axios = Axios(
    getSearch: HttpGet -> Outcome<Response<SearchListResponse>>,
    getVideos: HttpGet -> Outcome<Response<VideoListResponse>>)

  /** `new YouTubeService(axios, token, baseUrl)`; the fields are only read. */
  datatype YouTubeService = YouTubeService(axios: Axios, token: string, baseUrl: string)

  /** The value of a query parameter, if the request has it. */
  function Param(params: seq<(string, string)>, name: string): Option<string>
  {
    if params == [] then None
    else if params[0].0 == name then Some(params[0].1)
    else Param(params[1..], name)
  }

  /** With distinct names, each parameter is found under its own name. */
  lemma {:induction false} ParamAt(params: seq<(string, string)>, k: nat)
    requires DistinctKeys(params) && k < |params|
    ensures Param(params, params[k].0) == Some(params[k].1)
  {
    if k > 0 {
      assert params[0].0 != params[k].0;
      DistinctKeysTail(params);
      ParamAt(params[1..], k - 1);
    }
  }

  // ---------------------------------------------------------------------------------------
  // searchVideos and getVideoDetails

  /** The GET of `searchVideos(query)`: `${baseUrl}/search` with q, key, part=snippet and type=video. */
  function SearchRequest(service: YouTubeService, query: string): (req: HttpGet)
    ensures req.url == service.baseUrl + "/search"
    ensures |req.params| == 4 && DistinctKeys(req.params)
    ensures Param(req.params, "q") == Some(query)
    ensures Param(req.params, "key") == Some(service.token)
    ensures Param(req.params, "part") == Some("snippet")
    ensures Param(req.params, "type") == Some("video")
  {
    var req := HttpGet(service.baseUrl + "/search",
                       [("q", query), ("key", service.token), ("part", "snippet"), ("type", "video")]);
    ParamAt(req.params, 2);
    ParamAt(req.params, 3);
    req
  }

  /** The GET of `getVideoDetails(videoId)`: `${baseUrl}/videos` with id, key and
      part=snippet,contentDetails. */
  function VideosRequest(service: YouTubeService, videoId: string): (req: HttpGet)
    ensures req.url == service.baseUrl + "/videos"
    ensures |req.params| == 3 && DistinctKeys(req.params)
    ensures Param(req.params, "id") == Some(videoId)
    ensures Param(req.params, "key") == Some(service.token)
    ensures Param(req.params, "part") == Some("snippet,contentDetails")
  {
    var req := HttpGet(service.baseUrl + "/videos",
                       [("id", videoId), ("key", service.token), ("part", "snippet,contentDetails")]);
    ParamAt(req.params, 2);
    req
  }

  /** `searchVideos(query)`: one GET; it resolves with `response.data.items` unchanged and
      rethrows whatever the GET rejects with. */
  function SearchVideos(service: YouTubeService, query: string): (r: Outcome<seq<SearchResult>>)
    ensures var sent := service.axios.getSearch(SearchRequest(service, query));
      && (r.Threw? <==> sent.Threw?)
      && (sent.Threw? ==> r.error == sent.error)
      && (sent.Returned? ==> r.value == sent.value.data.items)
  {
    match service.axios.getSearch(SearchRequest(service, query))
    case Returned(response) => Returned(response.data.items)
    case Threw(error) => Threw(error)
  }

  /** `getVideoDetails(videoId)`: one GET; it resolves with `response.data.items[0]`, which is
      `undefined` (None) when `items` is empty, and rethrows whatever the GET rejects with. */
  function GetVideoDetails(service: YouTubeService, videoId: string): (r: Outcome<Option<Video>>)
    ensures var sent := service.axios.getVideos(VideosRequest(service, videoId));
      && (r.Threw? <==> sent.Threw?)
      && (sent.Threw? ==> r.error == sent.error)
      && (sent.Returned? ==> (r.value.Some? <==> sent.value.data.items != []))
      && (sent.Returned? && r.value.Some? ==> r.value.value == sent.value.data.items[0])
  {
    match service.axios.getVideos(VideosRequest(service, videoId))
    case Returned(response) =>
      var items := response.data.items;
      Returned(if items == [] then None else Some(items[0]))
    case Threw(error) => Threw(error)
  }

  // ---------------------------------------------------------------------------------------
  // Normalisation

  /** The record getFirstResult and getAllResults build for one video. */
  datatype VideoResult = VideoResult(
    id: string, name: string, url: string, img: string, tunebatData: Option<Record>)

  const WatchPrefix: string := "https://www.youtube.com/watch?v="

  /** `https://www.youtube.com/watch?v=${videoId}`. */
  function WatchUrl(videoId: string): string {
    WatchPrefix + videoId
  }

  /** The video id a watch URL names: the partner of WatchUrl. */
  function VideoIdOf(url: string): Option<string> {
    if |url| >= |WatchPrefix| && url[..|WatchPrefix|] == WatchPrefix then Some(url[|WatchPrefix|..])
    else None
  }

  lemma VideoIdOfWatchUrl(videoId: string)
    ensures VideoIdOf(WatchUrl(videoId)) == Some(videoId)
  {
    assert WatchUrl(videoId)[..|WatchPrefix|] == WatchPrefix;
  }

  /** The per-video object literal of getFirstResult and getAllResults. */
  function Normalize(video: SearchResult, tunebatData: Option<Record>): (v: VideoResult)
    ensures VideoIdOf(v.url) == Some(v.id)
  {
    VideoIdOfWatchUrl(video.id.videoId);
    VideoResult(video.id.videoId, video.snippet.title, WatchUrl(video.id.videoId),
                video.snippet.thumbnails.default.url, tunebatData)
  }

  /** `searchTerm.map(video => ({ ... }))`. */
  function NormalizeAll(videos: seq<SearchResult>, tunebatData: Option<Record>): (vs: seq<VideoResult>)
    ensures |vs| == |videos|
    ensures forall i :: 0 <= i < |videos| ==> vs[i] == Normalize(videos[i], tunebatData)
  {
    if videos == [] then [] else [Normalize(videos[0], tunebatData)] + NormalizeAll(videos[1..], tunebatData)
  }

  /** `getFirstResult(searchTerm, tunebatData)`: null for no results; otherwise the record of
      the first result only, carrying the metadata it was given. */
  function GetFirstResult(videos: seq<SearchResult>, tunebatData: Option<Record>): (r: Option<VideoResult>)
    ensures r.None? <==> videos == []
    ensures r.Some? ==>
      && r.value.id == videos[0].id.videoId
      && r.value.name == videos[0].snippet.title
      && r.value.url == WatchUrl(videos[0].id.videoId)
      && r.value.img == videos[0].snippet.thumbnails.default.url
      && r.value.tunebatData == tunebatData
  {
    if videos == [] then None else Some(Normalize(videos[0], tunebatData))
  }

  /** `getAllResults(searchTerm, tunebatData)`: null (not an empty array) for no results;
      otherwise one record per result, in order, all carrying the same metadata. */
  function GetAllResults(videos: seq<SearchResult>, tunebatData: Option<Record>): (r: Option<seq<VideoResult>>)
    ensures r.None? <==> videos == []
    ensures r.Some? ==> |r.value| == |videos|
    ensures r.Some? ==> forall i :: 0 <= i < |videos| ==>
      r.value[i] == Normalize(videos[i], tunebatData) && r.value[i].tunebatData == tunebatData
  {
    if videos == [] then None else Some(NormalizeAll(videos, tunebatData))
  }

  /** The first result is the head of all results. */
  lemma FirstIsHeadOfAll(videos: seq<SearchResult>, tunebatData: Option<Record>)
    requires videos != []
    ensures GetFirstResult(videos, tunebatData) == Some(GetAllResults(videos, tunebatData).value[0])
  {
  }

  /** Only the first result matters to getFirstResult. */
  lemma FirstResultIgnoresRest(videos: seq<SearchResult>, others: seq<SearchResult>, tunebatData: Option<Record>)
    requires videos != []
    ensures GetFirstResult([videos[0]] + others, tunebatData) == GetFirstResult(videos, tunebatData)
  {
  }

  /** Normalising keeps order: the results for two runs of videos are the results for each. */
  lemma {:induction false} NormalizeAllConcat(a: seq<SearchResult>, b: seq<SearchResult>, tunebatData: Option<Record>)
    ensures NormalizeAll(a + b, tunebatData) == NormalizeAll(a, tunebatData) + NormalizeAll(b, tunebatData)
  {
    if a == [] {
      assert a + b == b;
    } else {
      assert (a + b)[0] == a[0];
      assert (a + b)[1..] == a[1..] + b;
      NormalizeAllConcat(a[1..], b, tunebatData);
    }
  }
}
