/**
 * Discovery of asset references in makeCSV (src/createZipFiles.ts:69-86):
 * the global match of
 *   https://public\.itempooluserdata\.com/[a-zA-Z0-9_-]+\-\d+\.[a-zA-Z]+
 * over the serialized items, and the local file name `url.substring(36)`.
 *
 * The pattern is recognised by hand.  Both `+` runs before the dot are
 * forced: the token class contains the hyphen and the digits but not the
 * dot, so the dot is the first character after the prefix outside the token
 * class, and the hyphen is the one just before the trailing digits.  Only
 * the extension's end could vary, and the greedy `[a-zA-Z]+` takes the
 * longest; so the match the regular expression reports at a position is the
 * longest word of the pattern starting there.
 */
module AssetUrls {
  import opened Wrappers

  const Prefix: string := "https://public.itempooluserdata.com/"

  /** The `36` of `url.substring(36)`. */
  const PrefixLength: nat := 36

  lemma PrefixLengthIsPrefix()
    ensures |Prefix| == PrefixLength
  {
  }

  predicate IsLetter(c: char) {
    'a' <= c <= 'z' || 'A' <= c <= 'Z'
  }

  /** `\d` without the `u` flag: ASCII digits only. */
  predicate IsDigit(c: char) {
    '0' <= c <= '9'
  }

  /** `[a-zA-Z0-9_-]` */
  predicate IsTokenChar(c: char) {
    IsLetter(c) || IsDigit(c) || c == '_' || c == '-'
  }

  ghost predicate AllIn(s: string, i: nat, j: nat, cls: char -> bool)
    requires i <= j <= |s|
  {
    forall m :: i <= m < j ==> cls(s[m])
  }

  /**
   * `s[k..f]` is the prefix, a token, `-` at `j`, digits, `.` at `e` and
   * letters: a word of the pattern.
   */
  ghost predicate Shape(s: string, k: nat, j: nat, e: nat, f: nat) {
    && k + PrefixLength < j && j + 1 < e && e + 1 < f <= |s|
    && s[k..k + PrefixLength] == Prefix
    && AllIn(s, k + PrefixLength, j, IsTokenChar)
    && s[j] == '-'
    && AllIn(s, j + 1, e, IsDigit)
    && s[e] == '.'
    && AllIn(s, e + 1, f, IsLetter)
  }

  ghost predicate IsMatch(s: string, k: nat, f: nat) {
    exists j, e :: Shape(s, k, j, e, f)
  }

  /** End of the longest run of `cls` characters starting at `i`. */
  function RunEnd(s: string, i: nat, cls: char -> bool): (e: nat)
    requires i <= |s|
    ensures i <= e <= |s|
    ensures AllIn(s, i, e, cls)
    ensures e == |s| || !cls(s[e])
    decreases |s| - i
  {
    if i == |s| || !cls(s[i]) then i else RunEnd(s, i + 1, cls)
  }

  /** Start of the trailing run of digits in `s[b..e]`. */
  function DigitsStart(s: string, b: nat, e: nat): (d: nat)
    requires b <= e <= |s|
    ensures b <= d <= e
    ensures AllIn(s, d, e, IsDigit)
    ensures d == b || !IsDigit(s[d - 1])
    decreases e - b
  {
    if e == b || !IsDigit(s[e - 1]) then e
    else
      var d := DigitsStart(s, b, e - 1);
      assert AllIn(s, d, e - 1, IsDigit);
      d
  }

  /** The end of the match the pattern makes at position `k`, if it makes one. */
  function MatchEnd(s: string, k: nat): (r: Option<nat>)
    ensures r.Some? ==> k < r.value <= |s|
  {
    if k + PrefixLength <= |s| && s[k..k + PrefixLength] == Prefix then
      var b := k + PrefixLength;
      var e := RunEnd(s, b, IsTokenChar);
      if e < |s| && s[e] == '.' then
        var d := DigitsStart(s, b, e);
        if d < e && b + 1 < d && s[d - 1] == '-' then
          var f := RunEnd(s, e + 1, IsLetter);
          if e + 1 < f then Some(f) else None
        else None
      else None
    else None
  }

  /**
   * The recogniser reports a match at `k` exactly when a word of the pattern
   * starts there, and then reports the longest one, which ends before a
   * letter or at the end of the text.
   */
  lemma MatchEndIsLongestMatch(s: string, k: nat)
    ensures MatchEnd(s, k).Some? <==> exists f: nat :: IsMatch(s, k, f)
    ensures MatchEnd(s, k).Some? ==>
      var f := MatchEnd(s, k).value;
      && IsMatch(s, k, f)
      && (f == |s| || !IsLetter(s[f]))
      && forall f': nat :: IsMatch(s, k, f') ==> f' <= f
  {
    var r := MatchEnd(s, k);
    if r.Some? {
      var b := k + PrefixLength;
      var e := RunEnd(s, b, IsTokenChar);
      var d := DigitsStart(s, b, e);
      assert Shape(s, k, d - 1, e, r.value);
      assert IsMatch(s, k, r.value);
    }
    forall f': nat | IsMatch(s, k, f') ensures r.Some? && f' <= r.value {
      var j, e' :| Shape(s, k, j, e', f');
      MatchFromShape(s, k, j, e', f');
    }
  }

  lemma MatchFromShape(s: string, k: nat, j: nat, e': nat, f': nat)
    requires Shape(s, k, j, e', f')
    ensures MatchEnd(s, k).Some? && f' <= MatchEnd(s, k).value
  {
    var b := k + PrefixLength;
    assert AllIn(s, b, e', IsTokenChar) by {
      forall m | b <= m < e' ensures IsTokenChar(s[m]) {
        assert m < j || m == j || IsDigit(s[m]);
      }
    }
    RunEndStopsAt(s, b, IsTokenChar, e');
    DigitsStartAt(s, b, e', j + 1);
    RunEndReaches(s, e' + 1, IsLetter, f');
  }

  /** A run that ends where the class stops is the run `RunEnd` finds. */
  lemma {:induction false} RunEndStopsAt(s: string, i: nat, cls: char -> bool, e: nat)
    requires i <= e <= |s|
    requires AllIn(s, i, e, cls)
    requires e == |s| || !cls(s[e])
    ensures RunEnd(s, i, cls) == e
    decreases e - i
  {
    if i < e {
      RunEndStopsAt(s, i + 1, cls, e);
    }
  }

  lemma {:induction false} RunEndReaches(s: string, i: nat, cls: char -> bool, f: nat)
    requires i <= f <= |s|
    requires AllIn(s, i, f, cls)
    ensures RunEnd(s, i, cls) >= f
    decreases f - i
  {
    if i < f {
      RunEndReaches(s, i + 1, cls, f);
    }
  }

  lemma {:induction false} DigitsStartAt(s: string, b: nat, e: nat, d: nat)
    requires b <= d <= e <= |s|
    requires AllIn(s, d, e, IsDigit)
    requires d == b || !IsDigit(s[d - 1])
    ensures DigitsStart(s, b, e) == d
    decreases e - d
  {
    if d < e {
      DigitsStartAt(s, b, e - 1, d);
    }
  }

  /** A match found by the global scan: `s[start..end]`. */
  datatype Span = Span(start: nat, end: nat)

  ghost predicate Inside(spans: seq<Span>, p: nat) {
    exists m :: 0 <= m < |spans| && spans[m].start <= p < spans[m].end
  }

  /**
   * The `g` flag: from position `i`, take the match at the leftmost position
   * that has one, then continue after it.
   */
  function Scan(s: string, i: nat): (spans: seq<Span>)
    requires i <= |s|
    ensures forall m :: 0 <= m < |spans| ==> i <= spans[m].start < spans[m].end <= |s|
    ensures forall m :: 0 <= m < |spans| - 1 ==> spans[m].end <= spans[m + 1].start
    decreases |s| - i
  {
    if i == |s| then []
    else match MatchEnd(s, i)
      case Some(f) => [Span(i, f)] + Scan(s, f)
      case None => Scan(s, i + 1)
  }

  /** The scan reports, at each span's start, the recogniser's match there. */
  lemma {:induction false} ScanSpansAreMatches(s: string, i: nat)
    requires i <= |s|
    ensures forall m :: 0 <= m < |Scan(s, i)| ==> MatchEnd(s, Scan(s, i)[m].start) == Some(Scan(s, i)[m].end)
    decreases |s| - i
  {
    if i < |s| {
      var r := MatchEnd(s, i);
      if r.Some? {
        var rest := Scan(s, r.value);
        ScanSpansAreMatches(s, r.value);
        assert Scan(s, i) == [Span(i, r.value)] + rest;
        forall m | 1 <= m < |Scan(s, i)| ensures Scan(s, i)[m] == rest[m - 1] {}
      } else {
        ScanSpansAreMatches(s, i + 1);
        assert Scan(s, i) == Scan(s, i + 1);
      }
    }
  }

  /** Every position outside the spans starts no match: the scan skips nothing. */
  lemma ScanMissesNothing(s: string, i: nat)
    requires i <= |s|
    ensures forall p :: i <= p < |s| && MatchEnd(s, p).Some? ==> Inside(Scan(s, i), p)
  {
    forall p | i <= p < |s| && MatchEnd(s, p).Some? ensures Inside(Scan(s, i), p) {
      ScanFinds(s, i, p);
    }
  }

  /** The scan from `i` covers a position `p` at or after `i` where a match starts. */
  lemma {:induction false} ScanFinds(s: string, i: nat, p: nat)
    requires i <= p < |s| && MatchEnd(s, p).Some?
    ensures Inside(Scan(s, i), p)
    decreases |s| - i
  {
    var r := MatchEnd(s, i);
    if r.Some? {
      var f := r.value;
      assert Scan(s, i) == [Span(i, f)] + Scan(s, f);
      if f <= p {
        ScanFinds(s, f, p);
      }
      InsideCons(Span(i, f), Scan(s, f), p);
    } else {
      ScanFinds(s, i + 1, p);
      assert Scan(s, i) == Scan(s, i + 1);
    }
  }

  /** A position is inside a list of spans headed by `first` when it is in `first` or in the rest. */
  lemma InsideCons(first: Span, rest: seq<Span>, p: nat)
    requires first.start <= p < first.end || Inside(rest, p)
    ensures Inside([first] + rest, p)
  {
    var spans := [first] + rest;
    if !(first.start <= p < first.end) {
      var m :| 0 <= m < |rest| && rest[m].start <= p < rest[m].end;
      assert spans[m + 1] == rest[m];
    } else {
      assert spans[0] == first;
    }
  }

  /** `fileContent.match(urlPattern) || []` */
  function ExtractUrls(s: string): (urls: seq<string>)
    ensures |urls| == |Scan(s, 0)|
  {
    var spans := Scan(s, 0);
    seq(|spans|, m requires 0 <= m < |spans| => s[spans[m].start..spans[m].end])
  }

  /** `url.substring(36)`: JavaScript yields "" when the string is shorter. */
  function ImageFilename(url: string): (name: string)
    ensures |url| >= PrefixLength ==> url[..PrefixLength] + name == url
    ensures |url| < PrefixLength ==> name == ""
  {
    if |url| >= PrefixLength then url[PrefixLength..] else ""
  }

  /**
   * Every extracted URL is a piece of the text that matches the pattern, in
   * left-to-right order without overlap, and its file name is the URL with
   * the prefix removed: a token, `-`, digits, `.` and letters, so it names a
   * file directly inside the image directory.
   */
  lemma ExtractedUrlsAreAssetReferences(s: string)
    ensures var spans := Scan(s, 0);
      var urls := ExtractUrls(s);
      && (forall m :: 0 <= m < |urls| ==>
            && urls[m] == s[spans[m].start..spans[m].end]
            && IsMatch(s, spans[m].start, spans[m].end)
            && Prefix + ImageFilename(urls[m]) == urls[m]
            && |ImageFilename(urls[m])| > 0
            && '/' !in ImageFilename(urls[m]))
      && (forall m :: 0 <= m < |urls| - 1 ==> spans[m].end <= spans[m + 1].start)
  {
    var spans := Scan(s, 0);
    var urls := ExtractUrls(s);
    ScanSpansAreMatches(s, 0);
    forall m | 0 <= m < |urls|
      ensures IsMatch(s, spans[m].start, spans[m].end)
      ensures Prefix + ImageFilename(urls[m]) == urls[m]
      ensures |ImageFilename(urls[m])| > 0
      ensures '/' !in ImageFilename(urls[m])
    {
      MatchedUrl(s, spans[m].start, spans[m].end);
    }
  }

  /** What one reported match is: a pattern word whose file name follows the prefix. */
  lemma MatchedUrl(s: string, k: nat, f: nat)
    requires k < f <= |s|
    requires MatchEnd(s, k) == Some(f)
    ensures IsMatch(s, k, f)
    ensures Prefix + ImageFilename(s[k..f]) == s[k..f]
    ensures |ImageFilename(s[k..f])| > 0
    ensures '/' !in ImageFilename(s[k..f])
  {
    MatchEndIsLongestMatch(s, k);
    var j: nat, e: nat :| Shape(s, k, j, e, f);
    ShapeHasNoSlash(s, k, j, e, f);
    var url := s[k..f];
    assert url[..PrefixLength] == s[k..k + PrefixLength] == Prefix;
    var name := ImageFilename(url);
    assert name == s[k + PrefixLength..f];
    assert Prefix + name == url;
    forall x | 0 <= x < |name| ensures name[x] != '/' {
      assert name[x] == s[k + PrefixLength + x];
    }
  }

  /** No character of a pattern word after the prefix is a slash. */
  lemma ShapeHasNoSlash(s: string, k: nat, j: nat, e: nat, f: nat)
    requires Shape(s, k, j, e, f)
    ensures forall q :: k + PrefixLength <= q < f ==> s[q] != '/'
  {
    forall q | k + PrefixLength <= q < f ensures s[q] != '/' {
      if q < j {
        assert IsTokenChar(s[q]);
      } else if j < q < e {
        assert IsDigit(s[q]);
      } else if e < q {
        assert IsLetter(s[q]);
      }
    }
  }

  predicate PrefixAt(s: string, k: nat) {
    k + PrefixLength <= |s| && s[k..k + PrefixLength] == Prefix
  }

  /** A text without the prefix holds no reference: no directory, no copy. */
  lemma NoPrefixNoUrls(s: string)
    requires forall k: nat :: !PrefixAt(s, k)
    ensures ExtractUrls(s) == []
  {
    var spans := Scan(s, 0);
    ScanSpansAreMatches(s, 0);
    if spans != [] {
      assert MatchEnd(s, spans[0].start).Some?;
      assert PrefixAt(s, spans[0].start);
    }
  }
}
