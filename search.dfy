/** `ytSearch`: the query is either reduced to a video id, rejected, or passed
    on unchanged to the search library; of the library's answer only the
    videos are kept, each turned into a summary of fixed shape. The library
    itself is a function parameter: its answer for a text is taken as given. */
module Search {
  import opened Wrappers
  import opened JsText
  import opened Seqs
  import opened VideoId

  /** The message `ytSearch` rejects an unusable link with. */
  const InvalidUrl := "Invalid YouTube URL"

  /** A query that `ytSearch` treats as a link. The test is case-sensitive:
      `HTTPS://...` is searched for as text. */
  predicate IsUrlQuery(query: string) {
    StartsWith(query, "http://") || StartsWith(query, "https://")
  }

  /** What becomes of a query before the library is called. */
  datatype Dispatch = SearchFor(text: string) | Rejected(message: string)

  /** The text handed to the search library, or the rejection. A link is
      searched for by its video id; a link without one is rejected. */
  function DispatchQuery(query: string): (d: Dispatch)
    ensures !IsUrlQuery(query) ==> d == SearchFor(query)
    ensures IsUrlQuery(query) && d.SearchFor? ==> IsVideoId(d.text) && Accepts(query, d.text)
    ensures IsUrlQuery(query) && (forall id :: !Accepts(query, id)) ==> d == Rejected(InvalidUrl)
    ensures IsUrlQuery(query) && (exists id :: Accepts(query, id)) ==> d.SearchFor?
    ensures d.Rejected? ==> IsUrlQuery(query) && d.message == InvalidUrl
  {
    if IsUrlQuery(query) then
      match ExtractVideoId(query)
      case Some(id) => SearchFor(id)
      case None => Rejected(InvalidUrl)
    else SearchFor(query)
  }

  /** The `author` object of an entry, reduced to the field read. */
  datatype Channel = Channel(name: string)

  /** One element of the library's `all` list, reduced to the fields read. */
  datatype SearchEntry = SearchEntry(
    kind: string,             // `type`: "video", "channel", "list", ...
    videoId: string,
    title: string,
    description: string,
    views: int,
    ago: string,
    author: Option<Channel>,  // `author` may be absent, hence `author?.name`
    timestamp: string,
    seconds: int,
    thumbnail: string)

  datatype Formats = Formats(video: bool, audio: bool)

  /** One element of the `videos` list `ytSearch` resolves with. */
  datatype VideoSummary = VideoSummary(
    kind: string,
    id: string,
    name: string,
    description: string,
    url: string,
    views: int,
    published: string,
    author: Option<string>,
    duration: string,
    durationSeconds: int,
    thumbnail: string,
    isLive: bool,
    formats: Formats)

  const WatchPrefix := "https://www.youtube.com/watch?v="

  /** The canonical watch page of a video. */
  function WatchUrl(id: string): string {
    WatchPrefix + id
  }

  predicate IsVideo(e: SearchEntry) {
    e.kind == "video"
  }

  /** The name of an entry's author, absent when the entry has no author. */
  function AuthorName(author: Option<Channel>): Option<string> {
    match author
    case Some(c) => Some(c.name)
    case None => None
  }

  /** The entry a summary was made from: every field of a video entry is
      carried into its summary, none is lost. */
  function SourceEntry(v: VideoSummary): SearchEntry {
    SearchEntry(v.kind, v.id, v.name, v.description, v.views, v.published,
                match v.author case Some(n) => Some(Channel(n)) case None => None,
                v.duration, v.durationSeconds, v.thumbnail)
  }

  /** The summary of one video entry. */
  function Summarize(e: SearchEntry): (v: VideoSummary)
    ensures v.url == WatchUrl(e.videoId) && v.id == e.videoId
    ensures !v.isLive && v.formats == Formats(true, true)
    ensures SourceEntry(v) == e
  {
    VideoSummary(e.kind, e.videoId, e.title, e.description, WatchUrl(e.videoId), e.views, e.ago,
                 AuthorName(e.author), e.timestamp, e.seconds, e.thumbnail, false, Formats(true, true))
  }

  /** `data.all.filter(video => video.type === 'video').map(...)`. */
  function ShapeResults(entries: seq<SearchEntry>): (vs: seq<VideoSummary>)
    ensures |vs| <= |entries|
    ensures forall j :: 0 <= j < |vs| ==>
      && vs[j].kind == "video"
      && vs[j].url == WatchUrl(vs[j].id)
      && !vs[j].isLive
      && vs[j].formats == Formats(true, true)
  {
    var videos := Filter(entries, IsVideo);
    seq(|videos|, j requires 0 <= j < |videos| => Summarize(videos[j]))
  }

  /** Shaping one entry: a video gives its summary, anything else nothing. */
  lemma ShapeOne(e: SearchEntry)
    ensures ShapeResults([e]) == if IsVideo(e) then [Summarize(e)] else []
  {
    assert [e][1..] == [];
  }

  /** Shaping works entry by entry: the summaries come out in the order of
      the entries they are made from. */
  lemma ShapeAppend(a: seq<SearchEntry>, b: seq<SearchEntry>)
    ensures ShapeResults(a + b) == ShapeResults(a) + ShapeResults(b)
  {
    FilterAppend(a, b, IsVideo);
  }

  /** Every video entry is summarised, and every summary is that of a video
      entry of the input. */
  lemma ShapeCovers(entries: seq<SearchEntry>)
    ensures forall e :: e in entries && IsVideo(e) ==> Summarize(e) in ShapeResults(entries)
    ensures forall v :: v in ShapeResults(entries) ==>
      IsVideo(SourceEntry(v)) && SourceEntry(v) in entries && v == Summarize(SourceEntry(v))
  {
    var videos := Filter(entries, IsVideo);
    var vs := ShapeResults(entries);
    forall e | e in entries && IsVideo(e) ensures Summarize(e) in vs {
      var j :| 0 <= j < |entries| && entries[j] == e;
      var i :| 0 <= i < |videos| && videos[i] == e;
      assert vs[i] == Summarize(e);
    }
  }

  /** The watch page of a well-formed video id leads back to that id. */
  lemma WatchUrlRoundTrip(id: string)
    requires IsVideoId(id)
    ensures ExtractVideoId(WatchUrl(id)) == Some(id)
  {
    assert WatchUrl(id) == "https://www." + "youtube.com/watch?v=" + id + "";
    WatchLinkId("https://www.", id, "");
  }

  /** The library's answer for a text: its `all` list, or the error it
      rejects with. */
  datatype LibraryAnswer = Entries(all: seq<SearchEntry>) | LibraryError(message: string)

  /** What `ytSearch` resolves or rejects with. */
  datatype SearchOutcome = Found(videos: seq<VideoSummary>) | Failed(message: string)

  /** The `.then` / `.catch` on the library's promise. */
  function Settle(answer: LibraryAnswer): SearchOutcome {
    match answer
    case Entries(all) => Found(ShapeResults(all))
    case LibraryError(m) => Failed(m)
  }

  /** `ytSearch(query)` against a search library. */
  function YtSearch(query: string, library: string -> LibraryAnswer): (o: SearchOutcome)
    ensures !IsUrlQuery(query) ==> o == Settle(library(query))
    ensures IsUrlQuery(query) && (forall id :: !Accepts(query, id)) ==> o == Failed(InvalidUrl)
    ensures IsUrlQuery(query) && (exists id :: Accepts(query, id)) ==>
      exists id :: IsVideoId(id) && Accepts(query, id) && o == Settle(library(id))
  {
    match DispatchQuery(query)
    case Rejected(m) => Failed(m)
    case SearchFor(text) =>
      assert IsUrlQuery(query) ==> IsVideoId(text) && Accepts(query, text);
      Settle(library(text))
  }

  /** A rejected link issues no search: the outcome does not depend on the
      library at all. */
  lemma RejectionIssuesNoSearch(query: string, one: string -> LibraryAnswer, other: string -> LibraryAnswer)
    requires DispatchQuery(query).Rejected?
    ensures YtSearch(query, one) == YtSearch(query, other) == Failed(InvalidUrl)
  {
  }

  /** A short link is searched for by its id. */
  lemma ShortLinkSearched(lead: string, id: string, rest: string)
    requires IsLead(lead) && IsVideoId(id)
    requires StartsWith(lead, "http://") || StartsWith(lead, "https://")
    ensures DispatchQuery(lead + "youtu.be/" + id + rest) == SearchFor(id)
  {
    var q := lead + "youtu.be/" + id + rest;
    assert q == lead + ("youtu.be/" + id + rest);
    assert q[..|lead|] == lead;
    ShortLinkId(lead, id, rest);
  }

  /** A Shorts link is rejected as an invalid link. */
  lemma ShortsLinkRejectedBySearch(lead: string, id: string)
    requires IsLead(lead) && IsVideoId(id)
    requires StartsWith(lead, "http://") || StartsWith(lead, "https://")
    ensures DispatchQuery(lead + "youtube.com/shorts/" + id) == Rejected(InvalidUrl)
  {
    var q := lead + "youtube.com/shorts/" + id;
    assert q == lead + ("youtube.com/shorts/" + id);
    assert q[..|lead|] == lead;
    ShortsLinkRejected(lead, id);
  }
}
