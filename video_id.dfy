/** `extractVideoId`: the regular expression
      (?:https?:\/\/)?(?:www\.)?(?:youtube\.com\/(?:[^/]+\/.+\/|(?:v|e(?:mbed)?)\/|.*[?&]v=)|youtu\.be\/)([^"&?/\s]{11})
    applied with `String.prototype.match` (no flags, so the first match only),
    returning the capture group or null.

    The module gives two descriptions and proves them equivalent where they
    overlap: `Accepts` says relationally which ids the pattern can capture, and
    `ExtractVideoId` follows the order in which a backtracking matcher tries
    start positions, optional prefixes, alternatives and greedy repetitions,
    so it also says WHICH id is returned when several could be. */
module VideoId {
  import opened Wrappers
  import opened JsText

  /** The capture group `([^"&?/\s]{11})` takes exactly this many characters. */
  const IdLength: nat := 11

  /** `[^"&?/\s]` */
  predicate IsIdChar(c: char) {
    c != '"' && c != '&' && c != '?' && c != '/' && !IsWhitespace(c)
  }

  /** Eleven id characters start at index `k` of `s`. */
  predicate IdAt(s: string, k: nat) {
    k + IdLength <= |s| && forall j :: k <= j < k + IdLength ==> IsIdChar(s[j])
  }

  /** A string the capture group can produce. */
  predicate IsVideoId(id: string) {
    |id| == IdLength && forall j :: 0 <= j < |id| ==> IsIdChar(id[j])
  }

  predicate NoSlash(s: string, lo: nat, hi: nat)
    requires lo <= hi <= |s|
  {
    forall j :: lo <= j < hi ==> s[j] != '/'
  }

  /** `.` matches every character of `s[lo..hi]`. */
  predicate OnOneLine(s: string, lo: nat, hi: nat)
    requires lo <= hi <= |s|
  {
    forall j :: lo <= j < hi ==> !IsLineTerminator(s[j])
  }

  // ---------------------------------------------------------------------------
  // Relational description: which slices the parts of the pattern can match.
  // ---------------------------------------------------------------------------

  /** `[^/]+\/.+\/` matches `s[p..k]`. */
  ghost predicate PathShape(s: string, p: nat, k: nat) {
    p < k <= |s| &&
    exists q: nat :: p < q && q + 2 < k && NoSlash(s, p, q) && s[q] == '/' && OnOneLine(s, q + 1, k - 1) && s[k - 1] == '/'
  }

  /** `(?:v|e(?:mbed)?)\/` matches `s[p..k]`. */
  predicate ShortShape(s: string, p: nat, k: nat) {
    || ((StartsWithAt(s, p, "v/") || StartsWithAt(s, p, "e/")) && k == p + 2)
    || (StartsWithAt(s, p, "embed/") && k == p + 6)
  }

  /** `.*[?&]v=` matches `s[p..k]`. */
  predicate QueryShape(s: string, p: nat, k: nat) {
    && p + 3 <= k <= |s|
    && OnOneLine(s, p, k - 3)
    && (s[k - 3] == '?' || s[k - 3] == '&')
    && s[k - 2] == 'v' && s[k - 1] == '='
  }

  /** The part of the pattern between the optional prefix and the capture
      group matches `s[h..k]`. */
  ghost predicate HostShape(s: string, h: nat, k: nat) {
    || (StartsWithAt(s, h, "youtube.com/") &&
        (PathShape(s, h + 12, k) || ShortShape(s, h + 12, k) || QueryShape(s, h + 12, k)))
    || (StartsWithAt(s, h, "youtu.be/") && k == h + 9)
  }

  /** The pattern can match `url` with `id` as its capture. The prefix
      `(?:https?:\/\/)?(?:www\.)?` is optional and the search is unanchored,
      so it places no constraint on which ids can be captured. */
  ghost predicate Accepts(url: string, id: string) {
    exists h: nat, k: nat :: HostShape(url, h, k) && IdAt(url, k) && url[k..k + IdLength] == id
  }

  // ---------------------------------------------------------------------------
  // The matcher, in the order a backtracking engine tries the possibilities.
  // Each step returns the index where the capture group starts.
  // ---------------------------------------------------------------------------

  datatype Stop = Slash | LineBreak

  predicate IsStop(c: char, stop: Stop) {
    match stop
    case Slash => c == '/'
    case LineBreak => IsLineTerminator(c)
  }

  /** The first index at or after `i` that holds a `stop` character, or `|s|`. */
  function Scan(s: string, i: nat, stop: Stop): (e: nat)
    requires i <= |s|
    ensures i <= e <= |s|
    ensures forall j :: i <= j < e ==> !IsStop(s[j], stop)
    ensures e < |s| ==> IsStop(s[e], stop)
    decreases |s| - i
  {
    if i == |s| || IsStop(s[i], stop) then i else Scan(s, i + 1, stop)
  }

  /** The two greedy repetitions that are followed by more pattern:
      `.+` before `\/` in the path form, `.*` before `[?&]v=` in the query form. */
  datatype Greedy = PathDots | QueryDots

  /** The rest of the pattern after the greedy repetition, capture included,
      matches from index `r`. */
  predicate ContinuesAt(s: string, r: nat, g: Greedy) {
    match g
    case PathDots => r < |s| && s[r] == '/' && IdAt(s, r + 1)
    case QueryDots =>
      r + 3 <= |s| && (s[r] == '?' || s[r] == '&') && s[r + 1] == 'v' && s[r + 2] == '=' && IdAt(s, r + 3)
  }

  /** A greedy repetition that may end anywhere in `[lo, hi)` gives back one
      character at a time: the LAST index there from which the rest matches. */
  function LastContinuation(s: string, lo: nat, hi: nat, g: Greedy): (r: Option<nat>)
    requires lo <= hi <= |s|
    ensures r.Some? ==> lo <= r.value < hi && ContinuesAt(s, r.value, g)
    ensures r.Some? ==> forall j :: r.value < j < hi ==> !ContinuesAt(s, j, g)
    ensures r.None? ==> forall j :: lo <= j < hi ==> !ContinuesAt(s, j, g)
    decreases hi - lo
  {
    if lo == hi then None
    else if ContinuesAt(s, hi - 1, g) then Some(hi - 1)
    else LastContinuation(s, lo, hi - 1, g)
  }

  /** `[^/]+\/.+\/` and the capture, from index `p`. `[^/]+` can only stop at
      the first '/', and `.+` stays on the line after it. */
  function PathForm(s: string, p: nat): (k: Option<nat>)
    requires p <= |s|
    ensures k.Some? ==> PathShape(s, p, k.value) && IdAt(s, k.value)
    ensures k.None? ==> forall k' :: PathShape(s, p, k') ==> !IdAt(s, k')
  {
    var q := Scan(s, p, Slash);
    if q == p || q == |s| then None
    else
      var e := Scan(s, q + 1, LineBreak);
      if e < q + 2 then PathCandidate(s, p); None
      else
        match LastContinuation(s, q + 2, e, PathDots)
        case Some(r) => Some(r + 1)
        case None => PathCandidate(s, p); None
  }

  /** Every path-form match ends its `.+` inside the range `PathForm` searches. */
  lemma PathCandidate(s: string, p: nat)
    requires p <= |s|
    ensures forall k: nat :: PathShape(s, p, k) && IdAt(s, k) ==>
      var q := Scan(s, p, Slash);
      && p < q < |s|
      && q + 2 <= k - 1 < Scan(s, q + 1, LineBreak)
      && ContinuesAt(s, k - 1, PathDots)
  {
    forall k: nat | PathShape(s, p, k) && IdAt(s, k)
      ensures var q := Scan(s, p, Slash);
        && p < q < |s|
        && q + 2 <= k - 1 < Scan(s, q + 1, LineBreak)
        && ContinuesAt(s, k - 1, PathDots)
    {
      var q' :| p < q' && q' + 2 < k && NoSlash(s, p, q') && s[q'] == '/' && OnOneLine(s, q' + 1, k - 1) && s[k - 1] == '/';
    }
  }

  /** `(?:v|e(?:mbed)?)\/` and the capture, from index `p`: `v/` first, then
      `embed/` (the optional group is greedy), then `e/`. */
  function ShortForm(s: string, p: nat): (k: Option<nat>)
    ensures k.Some? ==> ShortShape(s, p, k.value) && IdAt(s, k.value)
    ensures k.None? ==> forall k' :: ShortShape(s, p, k') ==> !IdAt(s, k')
  {
    if StartsWithAt(s, p, "v/") && IdAt(s, p + 2) then Some(p + 2)
    else if StartsWithAt(s, p, "embed/") && IdAt(s, p + 6) then Some(p + 6)
    else if StartsWithAt(s, p, "e/") && IdAt(s, p + 2) then Some(p + 2)
    else None
  }

  /** `.*[?&]v=` and the capture, from index `p`. */
  function QueryForm(s: string, p: nat): (k: Option<nat>)
    requires p <= |s|
    ensures k.Some? ==> QueryShape(s, p, k.value) && IdAt(s, k.value)
    ensures k.None? ==> forall k' :: QueryShape(s, p, k') ==> !IdAt(s, k')
  {
    var e := Scan(s, p, LineBreak);
    match LastContinuation(s, p, e, QueryDots)
    case Some(r) => Some(r + 3)
    case None => QueryCandidate(s, p); None
  }

  /** Every query-form match ends its `.*` inside the range `QueryForm` searches. */
  lemma QueryCandidate(s: string, p: nat)
    requires p <= |s|
    ensures forall k: nat :: QueryShape(s, p, k) && IdAt(s, k) ==>
      p <= k - 3 < Scan(s, p, LineBreak) && ContinuesAt(s, k - 3, QueryDots)
  {
    var e := Scan(s, p, LineBreak);
    forall k: nat | QueryShape(s, p, k) && IdAt(s, k)
      ensures p <= k - 3 < e && ContinuesAt(s, k - 3, QueryDots)
    {
    }
  }

  /** The alternation and the capture, from index `h`: the three `youtube.com/`
      forms in order, then `youtu.be/`. */
  function HostMatch(s: string, h: nat): (k: Option<nat>)
    requires h <= |s|
    ensures k.Some? ==> HostShape(s, h, k.value) && IdAt(s, k.value)
    ensures k.None? ==> forall k' :: HostShape(s, h, k') ==> !IdAt(s, k')
  {
    var youtubeCom :=
      if StartsWithAt(s, h, "youtube.com/")
      then PathForm(s, h + 12).OrElse(ShortForm(s, h + 12)).OrElse(QueryForm(s, h + 12))
      else None;
    var youtuBe := if StartsWithAt(s, h, "youtu.be/") && IdAt(s, h + 9) then Some(h + 9) else None;
    youtubeCom.OrElse(youtuBe)
  }

  /** `(?:www\.)?` from index `j`: with the group first, then without. */
  function WwwEnds(s: string, j: nat): seq<nat> {
    if StartsWithAt(s, j, "www.") then [j + 4, j] else [j]
  }

  /** The indices where the host part may begin for a match starting at `i`,
      in the order the two optional groups are tried. */
  function HostStarts(s: string, i: nat): (hs: seq<nat>)
    requires i <= |s|
    ensures forall j :: 0 <= j < |hs| ==> i <= hs[j] <= |s|
    ensures i in hs
  {
    if StartsWithAt(s, i, "https://") then WwwEnds(s, i + 8) + WwwEnds(s, i)
    else if StartsWithAt(s, i, "http://") then WwwEnds(s, i + 7) + WwwEnds(s, i)
    else WwwEnds(s, i)
  }

  /** The first host start in `hs` from which the rest of the pattern matches. */
  function FirstHost(s: string, hs: seq<nat>): (k: Option<nat>)
    requires forall j :: 0 <= j < |hs| ==> hs[j] <= |s|
    ensures k.Some? ==> IdAt(s, k.value) && exists h :: h in hs && HostShape(s, h, k.value)
    ensures k.None? ==> forall h, k' :: h in hs && HostShape(s, h, k') ==> !IdAt(s, k')
  {
    if |hs| == 0 then None else HostMatch(s, hs[0]).OrElse(FirstHost(s, hs[1..]))
  }

  /** The match at the leftmost start position `i` or later. */
  function LeftmostMatch(s: string, i: nat): (k: Option<nat>)
    requires i <= |s|
    ensures k.Some? ==> IdAt(s, k.value) && exists h: nat :: i <= h && HostShape(s, h, k.value)
    ensures k.None? ==> forall h: nat, k' :: i <= h && HostShape(s, h, k') ==> !IdAt(s, k')
    decreases |s| - i
  {
    var here := FirstHost(s, HostStarts(s, i));
    if here.Some? || i == |s| then here else LeftmostMatch(s, i + 1)
  }

  /** `extractVideoId(url)`: the capture group of the first match, or null. */
  function ExtractVideoId(url: string): (r: Option<string>)
    ensures r.Some? ==> IsVideoId(r.value) && Accepts(url, r.value)
    ensures r.None? ==> forall id :: !Accepts(url, id)
  {
    match LeftmostMatch(url, 0)
    case Some(k) => Some(url[k..k + IdLength])
    case None => None
  }

  // ---------------------------------------------------------------------------
  // The links the server is meant for.
  // ---------------------------------------------------------------------------

  /** The optional scheme and `www.` that may precede the host. */
  predicate IsLead(lead: string) {
    lead in {"", "www.", "http://", "http://www.", "https://", "https://www."}
  }

  /** At the start of a link, the first host start tried is right after the
      scheme and `www.`. */
  lemma LeadSkipped(lead: string, t: string)
    requires IsLead(lead)
    requires |t| > 0 && t[0] == 'y'
    ensures |HostStarts(lead + t, 0)| > 0 && HostStarts(lead + t, 0)[0] == |lead|
  {
    var s := lead + t;
    assert s[|lead|] == 'y';
    if lead == "https://" || lead == "https://www." {
      assert s[..8] == "https://";
    } else if lead == "http://" || lead == "http://www." {
      assert s[..7] == "http://";
      assert s[4] == ':';
    } else {
      assert s[0] == 'w' || s[0] == 'y';
    }
    if lead == "https://www." {
      assert s[8..12] == "www.";
    } else if lead == "http://www." {
      assert s[7..11] == "www.";
    } else if lead == "www." {
      assert s[0..4] == "www.";
    }
  }

  /** When the first host start of position 0 matches, that match is the result. */
  lemma FirstTryWins(s: string, k: nat)
    requires |HostStarts(s, 0)| > 0 && HostMatch(s, HostStarts(s, 0)[0]) == Some(k)
    ensures ExtractVideoId(s) == Some(s[k..k + IdLength])
  {
    var hs := HostStarts(s, 0);
    assert FirstHost(s, hs) == HostMatch(s, hs[0]).OrElse(FirstHost(s, hs[1..])) == Some(k);
    assert LeftmostMatch(s, 0) == Some(k);
  }

  /** An id placed in a string can be read back at its offset. */
  lemma IdInside(pre: string, id: string, rest: string)
    requires IsVideoId(id)
    ensures IdAt(pre + id + rest, |pre|)
    ensures (pre + id + rest)[|pre|..|pre| + IdLength] == id
  {
    var s := pre + id + rest;
    forall j | |pre| <= j < |pre| + IdLength ensures IsIdChar(s[j]) {
      assert s[j] == id[j - |pre|];
    }
  }

  /** At a `youtu.be/` the `youtube.com/` alternative cannot match, so the
      short-link alternative decides. */
  lemma ShortHost(s: string, h: nat)
    requires StartsWithAt(s, h, "youtu.be/") && IdAt(s, h + 9)
    ensures HostMatch(s, h) == Some(h + 9)
  {
    assert s[h + 5] == s[h..h + 9][5] == '.';
    assert !StartsWithAt(s, h, "youtube.com/") by {
      if h + 12 <= |s| {
        assert s[h..h + 12][5] == s[h + 5];
      }
    }
  }

  /** A short link `youtu.be/<id>`, with any scheme, `www.` and anything after
      the id, yields exactly that id. */
  lemma ShortLinkId(lead: string, id: string, rest: string)
    requires IsLead(lead) && IsVideoId(id)
    ensures ExtractVideoId(lead + "youtu.be/" + id + rest) == Some(id)
  {
    var t := "youtu.be/" + id + rest;
    var s := lead + "youtu.be/" + id + rest;
    var h := |lead|;
    assert s == lead + t;
    LeadSkipped(lead, t);
    assert s[h..h + 9] == t[..9] == "youtu.be/";
    IdInside(lead + "youtu.be/", id, rest);
    ShortHost(s, h);
    FirstTryWins(s, h + 9);
  }

  /** `s[j]` does not begin a `?v=` or `&v=` parameter. */
  predicate NoIdParamAt(s: string, j: nat)
    requires j < |s|
  {
    (s[j] == '?' || s[j] == '&') ==> !StartsWithAt(s, j + 1, "v=")
  }

  /** From index `i` on, `s` has no '/' and starts no `?v=` or `&v=`. */
  predicate CleanFrom(s: string, i: nat) {
    forall j :: i <= j < |s| ==> s[j] != '/' && NoIdParamAt(s, j)
  }

  /** At `youtube.com/watch?v=<id>` followed by no '/' and no further `?v=` or
      `&v=`, neither the path form nor `v/`, `embed/`, `e/` applies, and the
      greedy `.*` of the query form can only give back to the one `?`. */
  lemma WatchHost(s: string, h: nat)
    requires StartsWithAt(s, h, "youtube.com/watch?v=") && IdAt(s, h + 20)
    requires CleanFrom(s, h + 20)
    ensures HostMatch(s, h) == Some(h + 20)
  {
    var p := h + 12;
    assert s[h..h + 12] == s[h..h + 20][..12] == "youtube.com/";
    assert s[p..p + 8] == s[h..h + 20][12..] == "watch?v=";
    WatchQuery(s, p);
    assert s[p] == 'w';
  }

  /** After `watch?v=<id>` the path form finds no '/' and the query form
      ends at the `?`. */
  lemma WatchQuery(s: string, p: nat)
    requires StartsWithAt(s, p, "watch?v=") && IdAt(s, p + 8)
    requires CleanFrom(s, p + 8)
    ensures PathForm(s, p) == None
    ensures QueryForm(s, p) == Some(p + 8)
  {
    assert forall j :: p <= j < p + 8 ==> s[j] == "watch?v="[j - p];
    assert Scan(s, p, Slash) == |s|;
    var e := Scan(s, p, LineBreak);
    assert ContinuesAt(s, p + 5, QueryDots);
    assert p + 5 < e;
    var r := LastContinuation(s, p, e, QueryDots);
    assert r.Some? && ContinuesAt(s, r.value, QueryDots);
    assert StartsWithAt(s, r.value + 1, "v=") by {
      assert s[r.value + 1..r.value + 3] == "v=";
    }
  }

  /** Neither an id nor a `rest` free of '/' and of `?v=`, `&v=` puts a '/'
      or a new id parameter after `pre`. */
  lemma CleanAfter(pre: string, id: string, rest: string)
    requires IsVideoId(id)
    requires CleanFrom(rest, 0)
    ensures CleanFrom(pre + id + rest, |pre|)
  {
    var s := pre + id + rest;
    var n := |pre| + IdLength;
    forall j | |pre| <= j < |s| ensures s[j] != '/' && NoIdParamAt(s, j) {
      if j < n {
        assert s[j] == id[j - |pre|];
      } else {
        var i := j - n;
        assert s[j] == rest[i];
        if j + 3 <= |s| {
          assert s[j + 1..j + 3] == rest[i + 1..i + 3];
        }
      }
    }
  }

  /** A watch link `youtube.com/watch?v=<id>`, with any scheme and `www.`,
      yields exactly that id when what follows the id has no '/' and no
      further `?v=` or `&v=` (such as `&t=42s`). A later `&v=<other id>`
      would win instead: `.*` is greedy. */
  lemma WatchLinkId(lead: string, id: string, rest: string)
    requires IsLead(lead) && IsVideoId(id)
    requires CleanFrom(rest, 0)
    ensures ExtractVideoId(lead + "youtube.com/watch?v=" + id + rest) == Some(id)
  {
    var pre := lead + "youtube.com/watch?v=";
    var t := "youtube.com/watch?v=" + id + rest;
    var s := pre + id + rest;
    var h := |lead|;
    assert s == lead + t;
    LeadSkipped(lead, t);
    assert s[h..h + 20] == t[..20] == "youtube.com/watch?v=";
    IdInside(pre, id, rest);
    CleanAfter(pre, id, rest);
    WatchHost(s, h);
    FirstTryWins(s, h + 20);
  }

  /** `s` is a Shorts link whose `youtube.com/` starts at `n` after a lead
      without a 'y'. */
  predicate ShortsLayout(s: string, n: nat) {
    && |s| == n + 19 + IdLength
    && (forall j :: 0 <= j < n ==> s[j] != 'y')
    && s[n..n + 19] == "youtube.com/shorts/"
    && IdAt(s, n + 19)
  }

  /** In a Shorts link, the host literals can only start where `youtube.com/` does. */
  lemma ShortsHostStart(s: string, n: nat, h: nat)
    requires ShortsLayout(s, n)
    requires h < |s| && s[h] == 'y'
    requires (h + 8 < |s| && s[h + 8] == '/') || (h + 11 < |s| && s[h + 11] == '/')
    ensures h == n
  {
    var lit := "youtube.com/shorts/";
    assert forall j :: n <= j < n + 19 ==> s[j] == lit[j - n];
  }

  /** After `youtube.com/shorts/<id>` none of the three forms fits. */
  lemma ShortsTail(s: string, n: nat, k: nat)
    requires ShortsLayout(s, n)
    ensures !PathShape(s, n + 12, k) && !ShortShape(s, n + 12, k) && !QueryShape(s, n + 12, k)
  {
    var lit := "youtube.com/shorts/";
    var p := n + 12;
    assert forall j :: n <= j < n + 19 ==> s[j] == lit[j - n];
    assert s[p] == 's';
    assert !StartsWithAt(s, p, "v/") && !StartsWithAt(s, p, "e/") && !StartsWithAt(s, p, "embed/");
  }

  /** No host occurrence in a Shorts link is followed by a match. */
  lemma ShortsNoHost(s: string, n: nat)
    requires ShortsLayout(s, n)
    ensures forall h: nat, k: nat :: HostShape(s, h, k) ==> !IdAt(s, k)
  {
    forall h: nat, k: nat | HostShape(s, h, k) && IdAt(s, k) ensures false {
      if StartsWithAt(s, h, "youtu.be/") {
        assert s[h..h + 9][0] == 'y' && s[h..h + 9][8] == '/';
        ShortsHostStart(s, n, h);
      } else {
        assert s[h..h + 12][0] == 'y' && s[h..h + 12][11] == '/';
        ShortsHostStart(s, n, h);
        ShortsTail(s, n, k);
      }
    }
  }

  /** A Shorts link `youtube.com/shorts/<id>` fits none of the forms: after
      `youtube.com/` there is only one '/', no `v/`, `e/` or `embed/`, and no
      `?` or `&`. So `extractVideoId` gives null for it. */
  lemma ShortsLinkRejected(lead: string, id: string)
    requires IsLead(lead) && IsVideoId(id)
    ensures ExtractVideoId(lead + "youtube.com/shorts/" + id) == None
  {
    var pre := lead + "youtube.com/shorts/";
    var s := pre + id;
    var n := |lead|;
    assert s[n..n + 19] == pre[n..] == "youtube.com/shorts/";
    IdInside(pre, id, "");
    assert pre + id + "" == s;
    assert forall j :: 0 <= j < n ==> s[j] == lead[j];
    assert ShortsLayout(s, n);
    ShortsNoHost(s, n);
  }
}
