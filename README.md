# yts search/download server: the string and list logic of `index.js`

`index.js` is an Express server that wraps a YouTube search library
(`yt-search`), a downloader (`ytdl-core`) and `ffmpeg`. Its own logic is small
and pure. This project models that logic as Dafny functions over `string`
(`seq<char>`) and sequences of records, and proves what it promises:

- **`extractVideoId`** (`video_id.dfy`). The regular expression
  `(?:https?:\/\/)?(?:www\.)?(?:youtube\.com\/(?:[^/]+\/.+\/|(?:v|e(?:mbed)?)\/|.*[?&]v=)|youtu\.be\/)([^"&?/\s]{11})`
  is given two descriptions. `Accepts` says which ids the pattern can capture
  at all. `ExtractVideoId` follows the order in which JavaScript's
  backtracking matcher tries things: start positions from left to right, the
  optional `https?://` and `www.` with and without, the four alternatives in
  order, and the greedy `.+` and `.*` giving back one character at a time. So
  it also says which id is returned when several could be. The two
  descriptions are proved to agree: a returned id is accepted, has 11
  characters and none of `"`, `&`, `?`, `/` or whitespace; null is returned
  only when nothing is accepted. The links the server is meant for are worked
  out exactly. `youtu.be/<id>` and `youtube.com/watch?v=<id>` give `<id>`
  under any scheme and `www.`. Shorts links `youtube.com/shorts/<id>` give
  null.
- **The query dispatch of `ytSearch`** (`search.dfy`). A query that starts
  with `http://` or `https://` (case-sensitive) is replaced by its video id
  or rejected with `Invalid YouTube URL` before any search. Any other query
  goes to the library unchanged. The library is a function parameter, and a
  rejected link's outcome is proved not to depend on it.
- **Result shaping in `ytSearch`** (`search.dfy`). The library's list is
  filtered to `type === 'video'` and mapped to a fixed record. The canonical
  watch URL, `isLive: false` and `formats: {video: true, audio: true}` are
  proved for every record. Order is kept, every video entry is covered, and
  every field of an entry can be recovered from its record. The watch URL
  of a well-formed id leads back to that id through `extractVideoId`.
- **The filename sanitiser** `title.replace(/[^\w\s]/gi, '')` of both
  download handlers (`title_sanitizer.dfy`). Without the `u` flag, `\w` is
  `[A-Za-z0-9_]` and the `i` flag adds nothing to it. `\s` is the ECMAScript
  set: tab, U+000B, U+000C, space, U+00A0, U+FEFF, U+1680,
  U+2000 to U+200A, U+202F, U+205F, U+3000, and the line terminators `\n`,
  `\r`, U+2028, U+2029. The result holds only those characters. It is a
  subsequence of the title, keeps every such character, and is idempotent.
  Line breaks survive sanitising. The `Content-Disposition` value built from
  it has exactly two `"`.
- **The temp-directory sweep** (`temp_cleanup.dfy`). A file is unlinked
  (asked to be deleted) when `now - mtime > 60 * 60 * 1000`, so a file exactly
  one hour old is kept. A failed `readdir` unlinks nothing, and a file whose
  `stat` fails is not unlinked. The outcome of `unlink` is ignored by the
  source and not modelled, so "unlinked" does not mean "gone": a
  subdirectory, for one, is unlinked at every sweep and never removed. With
  the sweep running every hour, a file present at every sweep is first
  unlinked no later than two hours after its modification or the server's
  start, whichever is later. A file moved in later with an old modification
  time is unlinked only at the first sweep after it arrives. The mp3 handler names a temp file
  (`index.js:191`) but never writes one, so only files that something else
  puts in the directory are ever swept.

Shared pieces: `wrappers.dfy` (`Option`, standing for `null`), `seqs.dfy`
(the one filter both the result shaping and the sanitiser are instances of,
with its order and subsequence lemmas) and `js_text.dfy` (the regular
expression character classes).

## Model

| member | source | states |
|---|---|---|
| `Seqs.Filter` | index.js:75-76 | the kept elements all pass the test, all come from the input, and every input element that passes is kept |
| `Seqs.FilterAppend` | index.js:75-76 | filtering distributes over concatenation, so the survivors keep their relative order |
| `Seqs.FilterIsSubsequence` | index.js:75-76 | a filter only deletes elements |
| `Seqs.FilterUnchanged` | index.js:75-76 | a filter leaves a sequence unchanged exactly when every element passes |
| `JsText.IsWordChar` | index.js:158 | definition with no contract: `\w` without the `u` flag, the ASCII letters, digits and `_`, which the `i` flag does not widen |
| `JsText.IsWhitespace` | index.js:158 | definition with no contract: `\s` (also used at index.js:54), the ECMAScript WhiteSpace and LineTerminator characters |
| `VideoId.LastContinuation` | index.js:54 | a greedy `.+`/`.*` stops at the last position from which the rest of the pattern matches, and fails only when there is none |
| `VideoId.PathForm` | index.js:54 | the `[^/]+\/.+\/` branch returns only real matches of that branch followed by an 11-character id, and fails only when there is none |
| `VideoId.ShortForm` | index.js:54 | the `v/`, `embed/`, `e/` branch returns only matches of `v/`, `embed/` or `e/` followed by an id, and fails only when there is none |
| `VideoId.QueryForm` | index.js:54 | the `.*[?&]v=` branch returns only matches on one line ending in `?v=` or `&v=` followed by an id, and fails only when there is none |
| `VideoId.HostMatch` | index.js:54 | the alternation of `youtube.com/...` forms and `youtu.be/` matches at a host position exactly when some form followed by an id does |
| `VideoId.HostStarts` | index.js:54 | the optional `https?://` and `www.` offer the host positions to try, always including the start itself |
| `VideoId.FirstHost` | index.js:54 | trying the offered host positions in order finds a match exactly when one of them has one |
| `VideoId.LeftmostMatch` | index.js:55 | scanning start positions left to right finds a match exactly when the host part and an id occur somewhere later in the string |
| `VideoId.ExtractVideoId` | index.js:53-57 | the result is null or an 11-character id free of `"`, `&`, `?`, `/` and whitespace that the pattern accepts; null only when the pattern accepts no id |
| `VideoId.ShortLinkId` | index.js:54-56 | `youtu.be/<id>` after any scheme and `www.`, followed by anything, yields exactly `<id>` |
| `VideoId.WatchLinkId` | index.js:54-56 | `youtube.com/watch?v=<id>` after any scheme and `www.` yields exactly `<id>` when no `/` or later `?v=`/`&v=` follows |
| `VideoId.ShortsLinkRejected` | index.js:54-56 | a Shorts link `youtube.com/shorts/<id>` yields null |
| `Search.IsUrlQuery` | index.js:63 | definition with no contract: a query is a link exactly when it starts with `http://` or `https://`, case-sensitively |
| `Search.DispatchQuery` | index.js:62-71 | a non-link query is searched for unchanged; a link containing an accepted id is searched for by such an id, and a link containing none is rejected with `Invalid YouTube URL` |
| `Search.Summarize` | index.js:77-94 | a record has the watch URL of its entry's id, `isLive` false and both formats, and every field of the entry can be read back from it |
| `Search.ShapeResults` | index.js:75-94 | at most as many records as entries, each of type `video` with the watch URL of its id, not live, with both formats |
| `Search.ShapeOne` | index.js:75-94 | a video entry gives exactly its record, any other entry nothing |
| `Search.ShapeAppend` | index.js:75-76 | records come out in the order of their entries |
| `Search.ShapeCovers` | index.js:75-94 | every video entry is summarised and every record summarises a video entry of the input |
| `Search.WatchUrlRoundTrip` | index.js:82 | the watch URL of a well-formed id gives that id back through `extractVideoId` |
| `Search.Settle` | index.js:73-100 | definition with no contract: the library's entries resolve to the shaped records, and a library error rejects with its message |
| `Search.YtSearch` | index.js:59-106 | a non-link query yields the library's answer for it; a link without an id fails with `Invalid YouTube URL`; a link with an accepted id yields the library's answer for such an id |
| `Search.RejectionIssuesNoSearch` | index.js:63-70 | a rejected link's outcome is the same whatever the library would answer |
| `Search.ShortLinkSearched` | index.js:62-71 | an `http(s)://` short link is searched for by its id |
| `Search.ShortsLinkRejectedBySearch` | index.js:62-71 | an `http(s)://` Shorts link is rejected with `Invalid YouTube URL` |
| `TitleSanitizer.SanitizeTitle` | index.js:158 | the sanitised title is no longer than the title and holds only `[A-Za-z0-9_]` and whitespace |
| `TitleSanitizer.SanitizeDeletesOnly` | index.js:158 | the sanitised title is a subsequence of the title |
| `TitleSanitizer.SanitizeKeepsSurvivors` | index.js:190 | every word and whitespace character of the title is kept, and a title is unchanged exactly when it has no other character |
| `TitleSanitizer.SanitizeIdempotent` | index.js:190 | sanitising twice is sanitising once |
| `TitleSanitizer.SanitizeAppend` | index.js:158 | sanitising works character by character |
| `TitleSanitizer.Disposition` | index.js:160 | definition with no contract: the header value `attachment; filename="<sanitised title><extension>"` |
| `TitleSanitizer.DispositionQuotedOnce` | index.js:158-160 | the `Content-Disposition` value has `"` only around the file name, whatever the title |
| `TempCleanup.IsStale` | index.js:45 | definition with no contract: the expiry rule, a file is unlinked when `now - mtime` exceeds 3600000 ms |
| `TempCleanup.SweepDeletes` | index.js:36-48 | a failed directory listing unlinks nothing and a sweep unlinks at most one name per entry |
| `TempCleanup.SweepDeletesStale` | index.js:40-48 | a sweep unlinks exactly the listed files whose `stat` succeeds and that are more than an hour old |
| `TempCleanup.StaleBoundary` | index.js:45 | a file exactly one hour old is not unlinked, one a millisecond older is, and a stale file stays stale |
| `TempCleanup.DeletingSweep` | index.js:35-51 | the first sweep to find a file stale unlinks it, and for a file listed at every sweep it comes at most two hours after the later of the file's modification and the server's start |

## Left out

- HTTP plumbing: the CORS setup, the routes, status codes and JSON bodies,
  and taking the query from `q` or `query`. These are framework glue.
- The foreign libraries: `yts`, `ytdl.getInfo`, `ytdl.filterFormats`, the
  `ytdl` streams and `ffmpeg`. Their source is not available. The search
  library is a parameter of `Search.YtSearch`. `getVideoInfo` only reshapes
  `ytdl` output, so it is not modelled.
- Filesystem and timer calls: `existsSync`, `mkdirSync`, `readdir`, `stat`,
  `unlink` and `setInterval`. The outcomes of `readdir` and `stat` are inputs
  to the sweep. The outcome of `unlink` is ignored by the source and is not
  modelled at all.
- Stream behaviour: piping, the `Accept-Ranges` header, `parseInt(bitrate)`,
  and the order in which the mp3 handler sets headers after it starts
  piping.
- `ytSearch`'s `try`/`catch` around a query that is not a string. Here a
  query is always a string.
- Strings are sequences of Unicode scalar values. JavaScript regular
  expressions without `u` work on UTF-16 code units, so a character outside
  the Basic Multilingual Plane counts as two characters in `{11}` there and
  as one here.
- DeletingSweep: assumes each sweep runs exactly one period after the last,
  at a `Date.now()` equal to that time, that `stat` succeeds, that `unlink`
  succeeds, and that the file is in the directory at every sweep after its
  mtime. Real timers drift. A file that `unlink` cannot remove (a
  subdirectory, a permission error) stays. A file moved in with an old mtime
  is unlinked only at the first sweep after it arrives.
- WatchLinkId: proved only when no `/` and no later `?v=` or `&v=` follows
  the id. Other tails are covered by `ExtractVideoId`'s general contract.
