/** The download handlers' `title.replace(/[^\w\s]/gi, '')`: every character
    that is neither a word character nor whitespace is deleted, and the result
    names the attachment in the `Content-Disposition` header. */
module TitleSanitizer {
  import opened JsText
  import opened Seqs

  /** The characters `[^\w\s]` does not match. */
  predicate Survives(c: char) {
    IsWordChar(c) || IsWhitespace(c)
  }

  /** The sanitised title. */
  function SanitizeTitle(title: string): (r: string)
    ensures |r| <= |title|
    ensures forall j :: 0 <= j < |r| ==> IsWordChar(r[j]) || IsWhitespace(r[j])
  {
    Filter(title, Survives)
  }

  /** Sanitising only deletes characters, keeping the order of the rest. */
  lemma SanitizeDeletesOnly(title: string)
    ensures IsSubsequence(SanitizeTitle(title), title)
  {
    FilterIsSubsequence(title, Survives);
  }

  /** Every word character and every whitespace character of the title is
      kept: sanitising deletes nothing else. */
  lemma SanitizeKeepsSurvivors(title: string)
    ensures forall j :: 0 <= j < |title| && Survives(title[j]) ==> title[j] in SanitizeTitle(title)
    ensures SanitizeTitle(title) == title <==> forall j :: 0 <= j < |title| ==> Survives(title[j])
  {
    FilterUnchanged(title, Survives);
  }

  /** Sanitising a sanitised title changes nothing. */
  lemma SanitizeIdempotent(title: string)
    ensures SanitizeTitle(SanitizeTitle(title)) == SanitizeTitle(title)
  {
    FilterIdempotent(title, Survives);
  }

  /** Sanitising works character by character. */
  lemma SanitizeAppend(a: string, b: string)
    ensures SanitizeTitle(a + b) == SanitizeTitle(a) + SanitizeTitle(b)
  {
    FilterAppend(a, b, Survives);
  }

  /** `attachment; filename="<title><ext>"`, with the sanitised title. */
  function Disposition(title: string, ext: string): string {
    "attachment; filename=\"" + SanitizeTitle(title) + ext + "\""
  }

  /** With an extension free of quotes (`.mp4`, `.mp3`), no title can end the
      quoted file name early: its only quotes are the two around it. */
  lemma DispositionQuotedOnce(title: string, ext: string)
    requires forall j :: 0 <= j < |ext| ==> ext[j] != '"'
    ensures var d := Disposition(title, ext);
      && d[|d| - 1] == '"'
      && forall j :: 0 <= j < |d| ==> (d[j] == '"' <==> j == 21 || j == |d| - 1)
  {
    var lead := "attachment; filename=\"";
    var t := SanitizeTitle(title);
    var d := Disposition(title, ext);
    assert |lead| == 22;
    forall j | 0 <= j < |d| ensures d[j] == '"' <==> j == 21 || j == |d| - 1 {
      if j < 22 {
        assert d[j] == lead[j];
      } else if j < 22 + |t| {
        assert d[j] == t[j - 22];
      } else if j < 22 + |t| + |ext| {
        assert d[j] == ext[j - 22 - |t|];
      }
    }
  }
}
