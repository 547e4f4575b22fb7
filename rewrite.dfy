/**
  The pure content rewrites of the migrators, each a left-to-right scanner
  that reproduces what its regular expression matches under PCRE:

  - `\[[^\]]+\]` replaced by nothing (page content);
  - `<a[^>]+>(<img[^>]+>)<\/a>` replaced by the image (post content);
  - `<img[^>]+src="([^">]+)"` whose match is handed to a callback (post content).

  As the regex engine does, each scanner tries a match at every position,
  jumps past a match when it finds one and moves on by one character otherwise.
 */
module Rewrite {
  import opened Wrappers

  /** The first index at or after j whose character is in stops, or |s| if there is none. */
  function Scan(s: string, j: nat, stops: set<char>): (e: nat)
    requires j <= |s|
    ensures j <= e <= |s|
    ensures e < |s| ==> s[e] in stops
    ensures forall k :: j <= k < e ==> s[k] !in stops
    decreases |s| - j
  {
    if j == |s| || s[j] in stops then j else Scan(s, j + 1, stops)
  }

  /** Scanning behind one extra leading character is scanning the rest, one index further on. */
  lemma {:induction false} ScanShift(c: char, t: string, j: nat, stops: set<char>)
    requires 1 <= j <= |t| + 1
    ensures Scan([c] + t, j, stops) == Scan(t, j - 1, stops) + 1
    decreases |t| + 1 - j
  {
    var s := [c] + t;
    if j < |s| && s[j] !in stops {
      ScanShift(c, t, j + 1, stops);
    }
  }

  // ---------------------------------------------------------------------------
  // `\[[^\]]+\]` -> ''   (src/ContentMigration.php:387)
  // ---------------------------------------------------------------------------

  /**
    Where a match of `\[[^\]]+\]` that starts at i ends: an opening bracket,
    one or more characters other than `]`, then the first `]`.
   */
  function BracketSpanAt(s: string, i: nat): (r: Option<nat>)
    requires i <= |s|
    ensures r.Some? <==> i < |s| && s[i] == '[' && Scan(s, i + 1, {']'}) < |s| && Scan(s, i + 1, {']'}) > i + 1
    ensures r.Some? ==> i + 2 < r.value <= |s| && s[r.value - 1] == ']' &&
                        forall k :: i < k < r.value - 1 ==> s[k] != ']'
    ensures i + 1 < |s| && s[i + 1] == ']' ==> r.None?
  {
    if i < |s| && s[i] == '[' then
      var e := Scan(s, i + 1, {']'});
      if e < |s| && e > i + 1 then Some(e + 1) else None
    else None
  }

  /** No match of `\[[^\]]+\]` starts anywhere in s. */
  ghost predicate NoBracketSpan(s: string) {
    forall i :: 0 <= i < |s| ==> BracketSpanAt(s, i).None?
  }

  function StripFrom(s: string, i: nat): string
    requires i <= |s|
    decreases |s| - i
  {
    if i == |s| then []
    else match BracketSpanAt(s, i)
      case Some(end) => StripFrom(s, end)
      case None => [s[i]] + StripFrom(s, i + 1)
  }

  /** preg_replace('/\[[^\]]+\]/', '', s). */
  function StripBrackets(s: string): string {
    StripFrom(s, 0)
  }

  /** Stripping keeps only characters of the input. */
  lemma {:induction false} StripKeepsChars(s: string, i: nat)
    requires i <= |s|
    ensures forall c :: c in StripFrom(s, i) ==> c in s[i..]
    decreases |s| - i
  {
    if i < |s| {
      match BracketSpanAt(s, i)
      case Some(end) =>
        StripKeepsChars(s, end);
        assert forall c :: c in s[end..] ==> c in s[i..] by {
          forall c | c in s[end..] ensures c in s[i..] {
            var k :| 0 <= k < |s[end..]| && s[end..][k] == c;
            assert s[i..][end - i + k] == c;
          }
        }
      case None =>
        StripKeepsChars(s, i + 1);
        assert s[i..] == [s[i]] + s[i + 1..];
    }
  }

  /** A match never starts at `]`, so a `]` is kept and starts what remains. */
  lemma StripAtClose(s: string, i: nat)
    requires i < |s| && s[i] == ']'
    ensures StripFrom(s, i) == [']'] + StripFrom(s, i + 1)
  {
  }

  /** `[]` is no match, so both of its brackets are kept and the strip goes on behind them. */
  lemma StripEmptyBrackets(s: string, i: nat)
    requires i + 2 <= |s| && s[i] == '[' && s[i + 1] == ']'
    ensures StripFrom(s, i) == "[]" + StripFrom(s, i + 2)
  {
  }

  /** Behind a character that starts no match, the matches are those of the rest, one index further on. */
  lemma BracketSpanShift(c: char, t: string, k: nat)
    requires 1 <= k <= |t|
    ensures BracketSpanAt([c] + t, k).None? <==> BracketSpanAt(t, k - 1).None?
  {
    var s := [c] + t;
    if k < |s| {
      ScanShift(c, t, k + 1, {']'});
    }
  }

  /** No bracket span is left in the output of the strip. */
  lemma {:induction false} StripLeavesNoSpan(s: string, i: nat)
    requires i <= |s|
    ensures NoBracketSpan(StripFrom(s, i))
    decreases |s| - i
  {
    if i < |s| {
      match BracketSpanAt(s, i)
      case Some(end) =>
        StripLeavesNoSpan(s, end);
      case None =>
        StripLeavesNoSpan(s, i + 1);
        var rest := StripFrom(s, i + 1);
        var out := [s[i]] + rest;
        forall k | 1 <= k < |out| ensures BracketSpanAt(out, k).None? {
          BracketSpanShift(s[i], rest, k);
        }
        if s[i] == '[' && |out| > 1 {
          var e := Scan(s, i + 1, {']'});
          if e == i + 1 {
            StripAtClose(s, i + 1);
            assert out[1] == ']';
          } else {
            assert e == |s|;
            StripKeepsChars(s, i + 1);
            assert forall k :: i + 1 <= k < |s| ==> s[k] != ']';
            assert ']' !in s[i + 1..];
            assert ']' !in rest;
            var e2 := Scan(out, 1, {']'});
            if e2 < |out| {
              assert out[e2] == rest[e2 - 1];
            }
          }
        }
    }
  }

  /** A text with no bracket span is left as it is. */
  lemma {:induction false} StripWithoutSpan(s: string, i: nat)
    requires i <= |s| && NoBracketSpan(s)
    ensures StripFrom(s, i) == s[i..]
    decreases |s| - i
  {
    if i < |s| {
      StripWithoutSpan(s, i + 1);
      assert s[i..] == [s[i]] + s[i + 1..];
    }
  }

  /** Page content after the strip holds no `[`, non-`]` characters, `]` span, and a second strip changes nothing. */
  lemma StripBracketsSound(s: string)
    ensures NoBracketSpan(StripBrackets(s))
    ensures StripBrackets(StripBrackets(s)) == StripBrackets(s)
  {
    StripLeavesNoSpan(s, 0);
    StripWithoutSpan(StripBrackets(s), 0);
  }

  // ---------------------------------------------------------------------------
  // `<a[^>]+>(<img[^>]+>)<\/a>` -> '$1'   (src/ContentMigration.php:303)
  // ---------------------------------------------------------------------------

  /** s[i..] starts with the text w. */
  predicate At(s: string, i: nat, w: string) {
    i + |w| <= |s| && s[i..i + |w|] == w
  }

  /**
    A match of `<a[^>]+>(<img[^>]+>)<\/a>` starting at i, as (start of the
    image, end of the image, end of the match). Each `[^>]+` runs up to the
    next `>`, so the match is unique when there is one.
   */
  function AnchoredImageAt(s: string, i: nat): (r: Option<(nat, nat, nat)>)
    requires i <= |s|
    ensures r.Some? ==> At(s, i, "<a") && i + 3 < r.value.0 && r.value.0 < r.value.1 && r.value.1 + 4 == r.value.2 <= |s|
    ensures r.Some? ==> At(s, r.value.0, "<img") && s[r.value.1 - 1] == '>' && At(s, r.value.1, "</a>")
    ensures r.Some? ==> forall k :: r.value.0 < k < r.value.1 - 1 ==> s[k] != '>'
    ensures !At(s, i, "<a") ==> r.None?
  {
    if At(s, i, "<a") then
      var e1 := Scan(s, i + 2, {'>'});
      if e1 > i + 2 && e1 < |s| && At(s, e1 + 1, "<img") then
        var e2 := Scan(s, e1 + 5, {'>'});
        if e2 > e1 + 5 && e2 < |s| && At(s, e2 + 1, "</a>") then Some((e1 + 1, e2 + 1, e2 + 5)) else None
      else None
    else None
  }

  function UnwrapFrom(s: string, i: nat): string
    requires i <= |s|
    decreases |s| - i
  {
    if i == |s| then []
    else match AnchoredImageAt(s, i)
      case Some((imgStart, imgEnd, end)) => s[imgStart..imgEnd] + UnwrapFrom(s, end)
      case None => [s[i]] + UnwrapFrom(s, i + 1)
  }

  /** preg_replace('/<a[^>]+>(<img[^>]+>)<\/a>/', '$1', s). */
  function UnwrapImageLinks(s: string): string {
    UnwrapFrom(s, 0)
  }

  /** s holds no `<a`. */
  predicate NoAnchor(s: string) {
    forall i :: 0 <= i < |s| ==> !At(s, i, "<a")
  }

  /** Where no anchor opens, the unwrap changes nothing. */
  lemma {:induction false} UnwrapWithoutAnchor(s: string, i: nat)
    requires i <= |s| && NoAnchor(s)
    ensures UnwrapFrom(s, i) == s[i..]
    decreases |s| - i
  {
    if i < |s| {
      UnwrapWithoutAnchor(s, i + 1);
      assert s[i..] == [s[i]] + s[i + 1..];
    }
  }

  /** The unwrap only removes text: the output is never longer than the input. */
  lemma {:induction false} UnwrapShrinks(s: string, i: nat)
    requires i <= |s|
    ensures |UnwrapFrom(s, i)| <= |s| - i
    decreases |s| - i
  {
    if i < |s| {
      match AnchoredImageAt(s, i)
      case Some((a, b, end)) => UnwrapShrinks(s, end);
      case None => UnwrapShrinks(s, i + 1);
    }
  }

  /** An image wrapped in a link becomes the bare image. */
  lemma UnwrapOneLink(attrs: string, img: string)
    requires |attrs| > 0 && forall k :: 0 <= k < |attrs| ==> attrs[k] != '>'
    requires |img| > 5 && img[..4] == "<img" && img[|img| - 1] == '>'
    requires forall k :: 0 <= k < |img| - 1 ==> img[k] != '>'
    ensures UnwrapImageLinks("<a" + attrs + ">" + img + "</a>") == img
  {
    var s := "<a" + attrs + ">" + img + "</a>";
    var start := |attrs| + 3;
    LinkedImageMatches(attrs, img);
    assert s[start..start + |img|] == img;
    assert UnwrapFrom(s, 0) == s[start..start + |img|] + UnwrapFrom(s, |s|);
  }

  /** The pattern matches a link that wraps a single image, from its `<a` to its `</a>`. */
  lemma LinkedImageMatches(attrs: string, img: string)
    requires |attrs| > 0 && forall k :: 0 <= k < |attrs| ==> attrs[k] != '>'
    requires |img| > 5 && img[..4] == "<img" && img[|img| - 1] == '>'
    requires forall k :: 0 <= k < |img| - 1 ==> img[k] != '>'
    ensures var s, start := "<a" + attrs + ">" + img + "</a>", |attrs| + 3;
      |s| == start + |img| + 4 && AnchoredImageAt(s, 0) == Some((start, start + |img|, |s|))
  {
    var open := "<a" + attrs + ">";
    var s := open + img + "</a>";
    var e1 := |open| - 1;
    var e2 := |open| + |img| - 1;
    LinkedImageParts(attrs, img);
    ScanTo(s, 2, e1, attrs);
    ScanTo(s, e1 + 5, e2, img[4..|img| - 1]);
  }

  /** Where the pieces of a linked image sit in the text. */
  lemma LinkedImageParts(attrs: string, img: string)
    requires |img| > 5 && img[..4] == "<img" && img[|img| - 1] == '>'
    ensures var open := "<a" + attrs + ">"; var s := open + img + "</a>";
      && At(s, 0, "<a") && s[2..|open| - 1] == attrs && s[|open| - 1] == '>'
      && At(s, |open|, "<img") && s[|open| + 4..|open| + |img| - 1] == img[4..|img| - 1]
      && s[|open| + |img| - 1] == '>' && At(s, |open| + |img|, "</a>")
  {
    var open := "<a" + attrs + ">";
    var s := open + img + "</a>";
    assert s[..|open|] == open;
    assert s[|open|..|open| + |img|] == img;
    assert s[|open| + |img|..] == "</a>";
  }

  /** A scan for `>` over a run w free of `>` stops at the `>` right after it. */
  lemma ScanTo(s: string, j: nat, e: nat, w: string)
    requires j <= e < |s| && s[j..e] == w && s[e] == '>'
    requires forall k :: 0 <= k < |w| ==> w[k] != '>'
    ensures Scan(s, j, {'>'}) == e
  {
    forall k | j <= k < e ensures s[k] !in {'>'} {
      assert s[k] == w[k - j];
    }
    ScanIs(s, j, e, {'>'});
  }

  /** A scan stops exactly at the first stop character. */
  lemma ScanIs(s: string, j: nat, e: nat, stops: set<char>)
    requires j <= e < |s| && s[e] in stops
    requires forall k :: j <= k < e ==> s[k] !in stops
    ensures Scan(s, j, stops) == e
  {
  }

  // ---------------------------------------------------------------------------
  // `<img[^>]+src="([^">]+)"` with a callback   (src/ContentMigration.php:290-300)
  // ---------------------------------------------------------------------------

  /** If s[k..] reads `src="`, one or more characters other than `"` and `>`, then `"`: the index of the closing quote. */
  function SrcValueAt(s: string, k: nat): (r: Option<nat>)
    requires k <= |s|
    ensures r.Some? ==> At(s, k, "src=\"") && k + 5 < r.value < |s| && s[r.value] == '"'
    ensures r.Some? ==> forall m :: k + 5 <= m < r.value ==> s[m] != '"' && s[m] != '>'
  {
    if At(s, k, "src=\"") then
      var q := Scan(s, k + 5, {'"', '>'});
      if q > k + 5 && q < |s| && s[q] == '"' then Some(q) else None
    else None
  }

  /** The largest k with lo <= k < hi at which SrcValueAt succeeds, with its closing quote. */
  function LastSrc(s: string, lo: nat, hi: nat): (r: Option<(nat, nat)>)
    requires hi <= |s| + 1
    ensures r.Some? ==> lo <= r.value.0 < hi && r.value.0 <= |s| && SrcValueAt(s, r.value.0) == Some(r.value.1)
    ensures r.Some? ==> forall k :: r.value.0 < k < hi && k <= |s| ==> SrcValueAt(s, k).None?
    decreases hi
  {
    if hi <= lo || hi == 0 then None
    else if hi - 1 <= |s| && SrcValueAt(s, hi - 1).Some? then Some((hi - 1, SrcValueAt(s, hi - 1).value))
    else LastSrc(s, lo, hi - 1)
  }

  /**
    A match of `<img[^>]+src="([^">]+)"` starting at i, as (start of group 1,
    end of group 1, end of the match). `[^>]+` is greedy: of the `src="…"`
    inside the tag, the last one is matched.
   */
  function ImageSrcAt(s: string, i: nat): (r: Option<(nat, nat, nat)>)
    requires i <= |s|
    ensures r.Some? ==> At(s, i, "<img") && i + 10 <= r.value.0 < r.value.1 && r.value.2 == r.value.1 + 1 <= |s|
    ensures r.Some? ==> s[r.value.1] == '"' && forall m :: r.value.0 <= m < r.value.1 ==> s[m] != '"'
    ensures !At(s, i, "<img") ==> r.None?
  {
    if At(s, i, "<img") then
      var e := Scan(s, i + 4, {'>'});
      match LastSrc(s, i + 5, e + 1)
      case Some((k, q)) => Some((k + 5, q, q + 1))
      case None => None
    else None
  }

  /** str_replace(needle, rep, h): every occurrence of the needle, left to right, without overlaps. */
  function ReplaceAll(h: string, needle: string, rep: string): string
    requires |needle| > 0
    decreases |h|
  {
    if |h| < |needle| then h
    else if h[..|needle|] == needle then rep + ReplaceAll(h[|needle|..], needle, rep)
    else [h[0]] + ReplaceAll(h[1..], needle, rep)
  }

  /** Replacing a text by itself changes nothing. */
  lemma {:induction false} ReplaceBySelf(h: string, needle: string)
    requires |needle| > 0
    ensures ReplaceAll(h, needle, needle) == h
    decreases |h|
  {
    if |h| >= |needle| {
      if h[..|needle|] == needle {
        ReplaceBySelf(h[|needle|..], needle);
        assert h == h[..|needle|] + h[|needle|..];
      } else {
        ReplaceBySelf(h[1..], needle);
        assert h == [h[0]] + h[1..];
      }
    }
  }

  /**
    What the callback returns for one match m with group g: when the featured
    media is mapped to a local URL, str_replace(g, url, m); otherwise m itself.
   */
  function ReplaceSrc(m: string, g: string, url: Option<string>): string
    requires |g| > 0
  {
    if url.Some? then ReplaceAll(m, g, url.value) else m
  }

  function RewriteFrom(s: string, i: nat, url: Option<string>): string
    requires i <= |s|
    decreases |s| - i
  {
    if i == |s| then []
    else match ImageSrcAt(s, i)
      case Some((gs, ge, end)) => ReplaceSrc(s[i..end], s[gs..ge], url) + RewriteFrom(s, end, url)
      case None => [s[i]] + RewriteFrom(s, i + 1, url)
  }

  /** preg_replace_callback('/<img[^>]+src="([^">]+)"/', callback, s). */
  function RewriteImageSources(s: string, url: Option<string>): string {
    RewriteFrom(s, 0, url)
  }

  /** With no local URL for the featured media, every image keeps its src: the content is unchanged. */
  lemma {:induction false} RewriteUnmapped(s: string, i: nat)
    requires i <= |s|
    ensures RewriteFrom(s, i, None) == s[i..]
    decreases |s| - i
  {
    if i < |s| {
      var next := RewriteUnmappedStep(s, i);
      RewriteUnmapped(s, next);
      SliceJoin(s, i, next);
    }
  }

  /** A suffix is its first piece followed by the rest. */
  lemma SliceJoin(s: string, i: nat, next: nat)
    requires i <= next <= |s|
    ensures s[i..] == s[i..next] + s[next..]
  {
  }

  /** One step of the rewrite with no URL copies the text up to the next position unchanged. */
  lemma RewriteUnmappedStep(s: string, i: nat) returns (next: nat)
    requires i < |s|
    ensures i < next <= |s| && RewriteFrom(s, i, None) == s[i..next] + RewriteFrom(s, next, None)
  {
    match ImageSrcAt(s, i)
    case Some((gs, ge, end)) =>
      next := end;
    case None =>
      next := i + 1;
      assert s[i..next] == [s[i]];
  }

  /** Content without an `<img` is unchanged whatever the URL. */
  lemma {:induction false} RewriteWithoutImage(s: string, i: nat, url: Option<string>)
    requires i <= |s|
    requires forall k :: 0 <= k < |s| ==> !At(s, k, "<img")
    ensures RewriteFrom(s, i, url) == s[i..]
    decreases |s| - i
  {
    if i < |s| {
      RewriteWithoutImage(s, i + 1, url);
      assert s[i..] == [s[i]] + s[i + 1..];
    }
  }
}
