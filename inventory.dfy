/** The archive inventory of a site: the capture-index rows gathered over
    the host's wildcard patterns (`_collect_cdx_rows`) and the order in which
    their URLs are fetched (`_prioritize_inventory_urls`, with the
    classifiers `_looks_like_page` and `_extension_of_url`). An inventory
    row carries the fields `timestamp, original, mimetype, length, urlkey`. */
module Inventory {
  import opened Common
  import opened Seqs
  import opened Urls
  import opened Variants
  import opened Upstream

  // ---------------------------------------------------------------------
  // Gathering rows

  /** Python's `int(a / b)` for a positive divisor: the quotient truncated
      toward zero. */
  function TruncDiv(a: int, b: int): (r: int)
    requires b > 0
    ensures a >= 0 ==> r * b <= a < (r + 1) * b
    ensures a < 0 ==> (r - 1) * b < a <= r * b
  {
    if a >= 0 then a / b else -((-a) / b)
  }

  /** The row cap of one wildcard query: the overall limit shared out over
      the patterns, but never below 300. */
  function PerVariantLimit(limit: int, patterns: nat): (r: int)
    ensures r >= 300
    ensures r == 300 || r == TruncDiv(limit, if patterns == 0 then 1 else patterns)
  {
    var share := TruncDiv(limit, if patterns == 0 then 1 else patterns);
    if share < 300 then 300 else share
  }

  /** A row the engine uses has at least the five requested fields. */
  predicate Complete(row: seq<string>) { |row| >= 5 }

  /** The dedup key: the original URL and the urlkey joined by `|`. */
  function CdxKey(row: seq<string>): string {
    if |row| >= 5 then row[1] + "|" + row[4] else ""
  }

  /** The complete data rows of one answer; a failed query contributes none. */
  function DataRows(reply: CdxReply): (r: seq<seq<string>>)
    ensures forall i :: 0 <= i < |r| ==> Complete(r[i])
  {
    if reply.Rows? && |reply.rows| > 1 then Filter(reply.rows[1..], Complete) else []
  }

  /** The complete rows of all patterns, in query order. */
  function IndexRows(archive: Archive, patterns: seq<string>, to: string, cap: int): (r: seq<seq<string>>)
    ensures forall i :: 0 <= i < |r| ==> Complete(r[i])
  {
    if patterns == [] then []
    else
      var init := patterns[..|patterns| - 1];
      var rows := IndexRows(archive, init, to, cap);
      var more := DataRows(archive.index(patterns[|patterns| - 1], to, cap));
      assert forall i :: 0 <= i < |rows + more| ==> Complete((rows + more)[i]) by {
        forall i | 0 <= i < |rows + more| ensures Complete((rows + more)[i]) {
          if i < |rows| { assert (rows + more)[i] == rows[i]; } else { assert (rows + more)[i] == more[i - |rows|]; }
        }
      }
      rows + more
  }

  /** What `_collect_cdx_rows` returns: the first row seen for each key. */
  function CollectedRows(archive: Archive, patterns: seq<string>, to: string, limit: int): seq<seq<string>> {
    DedupBy(IndexRows(archive, patterns, to, PerVariantLimit(limit, |patterns|)), CdxKey)
  }

  /** Every collected row is complete, no two share a key, every key found
      is kept, and each kept row is the first row of its key over all
      patterns, kept in the order the keys first appear. */
  lemma CollectedRowsSpec(archive: Archive, patterns: seq<string>, to: string, limit: int)
    ensures var all := IndexRows(archive, patterns, to, PerVariantLimit(limit, |patterns|));
      var r := CollectedRows(archive, patterns, to, limit);
      && (forall j :: 0 <= j < |r| ==> Complete(r[j]))
      && KeysDistinct(r, CdxKey)
      && Keys(r, CdxKey) == Keys(all, CdxKey)
      && (forall j :: 0 <= j < |r| ==> r[j] == all[FirstIndex(all, CdxKey, CdxKey(r[j]))])
      && (forall a, b :: 0 <= a < b < |r| ==>
            FirstIndex(all, CdxKey, CdxKey(r[a])) < FirstIndex(all, CdxKey, CdxKey(r[b])))
  {
    var all := IndexRows(archive, patterns, to, PerVariantLimit(limit, |patterns|));
    DedupByFirst(all, CdxKey);
  }

  /** A pattern whose query fails adds nothing and the others are still read. */
  lemma FailedPatternSkipped(archive: Archive, patterns: seq<string>, p: string, to: string, cap: int)
    requires archive.index(p, to, cap).Failed?
    ensures IndexRows(archive, patterns + [p], to, cap) == IndexRows(archive, patterns, to, cap)
  {
    assert (patterns + [p])[..|patterns|] == patterns;
  }

  // ---------------------------------------------------------------------
  // Classifiers

  /** The text after the last `c` (all of `s` when there is none):
      `s.rsplit(c, 1)[-1]`. */
  function AfterLast(s: string, c: char): (r: string)
    ensures |r| <= |s| && r == s[|s| - |r|..]
    ensures c !in r
    ensures c in s ==> |r| < |s| && s[|s| - |r| - 1] == c
    ensures c !in s ==> r == s
  {
    s[LastIndexOf(s, c) + 1..]
  }

  lemma AfterLastSplit(s: string, c: char)
    requires c in s
    ensures EndsWith(s, [c] + AfterLast(s, c))
  {
    var r := AfterLast(s, c);
    assert s[|s| - |r| - 1..] == [c] + r;
  }

  /** The last segment of the path has a dot with one to eight characters after it. */
  predicate HasExtension(path: string) {
    var base := AfterLast(path, '/');
    '.' in base && 1 <= |AfterLast(base, '.')| <= 8
  }

  /** `_extension_of_url` on a path: the lower-cased text after the last
      dot of the last segment, with its dot, or `(none)` when there is no
      dot or the extension is empty or longer than eight characters. */
  function ExtensionOfPath(path: string): (r: string)
    ensures r == "(none)" || (2 <= |r| <= 9 && r[0] == '.')
    ensures r != "(none)" <==> HasExtension(path)
  {
    if HasExtension(path) then "." + Lower(AfterLast(AfterLast(path, '/'), '.')) else "(none)"
  }

  lemma EndsWithTrans(s: string, t: string, u: string)
    requires EndsWith(s, t) && EndsWith(t, u)
    ensures EndsWith(s, u)
  {
    assert s[|s| - |u|..] == t[|t| - |u|..];
  }

  lemma LowerDotted(raw: string)
    ensures Lower("." + raw) == "." + Lower(raw)
  {
    LowerConcat(".", raw);
  }

  lemma NoCharInSuffix(s: string, r: string, c: char)
    requires c !in s && EndsWith(s, r)
    ensures c !in r
  {
    assert forall k :: 0 <= k < |r| ==> r[k] == s[|s| - |r| + k];
  }

  /** The text after the dot, as the extension carries it. */
  function ExtensionText(path: string): string {
    Lower(AfterLast(AfterLast(path, '/'), '.'))
  }

  lemma ExtensionShape(path: string)
    requires HasExtension(path)
    ensures ExtensionOfPath(path) == "." + ExtensionText(path)
    ensures '.' !in ExtensionText(path) && '/' !in ExtensionText(path)
  {
    var base := AfterLast(path, '/');
    var raw := AfterLast(base, '.');
    NoCharInSuffix(base, raw, '/');
    LowerNoChar(raw, '/');
    LowerNoChar(raw, '.');
  }

  /** An extension is the lower-cased end of the path. */
  lemma ExtensionIsSuffix(path: string)
    requires HasExtension(path)
    ensures EndsWith(Lower(path), ExtensionOfPath(path))
  {
    var base := AfterLast(path, '/');
    var raw := AfterLast(base, '.');
    AfterLastSplit(base, '.');
    var dotted := ['.'] + raw;
    EndsWithTrans(path, base, dotted);
    LowerSuffix(path, dotted);
    LowerDotted(raw);
    ExtensionShape(path);
  }

  function ExtensionOfUrl(value: string): string { ExtensionOfPath(Parse(value).path) }

  /** `_looks_like_page`'s suffixes of files that are never pages. */
  predicate IsAssetPath(lower: string) {
    EndsWith(lower, ".css") || EndsWith(lower, ".js") || EndsWith(lower, ".png") || EndsWith(lower, ".jpg")
    || EndsWith(lower, ".jpeg") || EndsWith(lower, ".gif") || EndsWith(lower, ".svg") || EndsWith(lower, ".woff")
    || EndsWith(lower, ".woff2") || EndsWith(lower, ".ttf") || EndsWith(lower, ".ico") || EndsWith(lower, ".mp4")
    || EndsWith(lower, ".webm") || EndsWith(lower, ".pdf") || EndsWith(lower, ".zip")
  }

  /** Its suffixes of files that are pages whatever their MIME type. */
  predicate HasPageSuffix(lower: string) {
    EndsWith(lower, ".html") || EndsWith(lower, ".htm") || EndsWith(lower, ".php") || EndsWith(lower, ".asp")
    || EndsWith(lower, ".aspx")
  }

  predicate IsHtmlMime(mime: string) { Contains(mime, "text/html") || Contains(mime, "application/xhtml") }

  /** `_looks_like_page`: never an asset file; a page when the MIME type
      is HTML or XHTML, when the path has a page suffix, or when it ends
      with `/`. */
  predicate LooksLikePage(path: string, mime: string) {
    var lower := Lower(path);
    !IsAssetPath(lower) && (IsHtmlMime(mime) || HasPageSuffix(lower) || EndsWith(lower, "/"))
  }

  lemma EndsWithLast(s: string, p: string)
    requires p != [] && EndsWith(s, p)
    ensures s[|s| - 1] == p[|p| - 1]
  {
    assert s[|s| - |p|..][|p| - 1] == s[|s| - 1];
  }

  /** A path ending in `l` or `/` has no asset suffix. */
  lemma NotAsset(s: string)
    requires s != [] && (s[|s| - 1] == 'l' || s[|s| - 1] == '/')
    ensures !IsAssetPath(s)
  {
    forall p | p in [".css", ".js", ".png", ".jpg", ".jpeg", ".gif", ".svg", ".woff", ".woff2", ".ttf", ".ico", ".mp4", ".webm", ".pdf", ".zip"]
      ensures !EndsWith(s, p) {
      if EndsWith(s, p) { EndsWithLast(s, p); }
    }
  }

  lemma LowerSuffix(s: string, p: string)
    requires EndsWith(s, p)
    ensures EndsWith(Lower(s), Lower(p))
  {
    assert s == s[..|s| - |p|] + p;
    LowerConcat(s[..|s| - |p|], p);
  }

  lemma IndexHtmlLower()
    ensures Lower("/index.html") == "/index.html"
  {
    LowerOfLower("/index.html");
  }

  lemma IndexHtmlSuffixes()
    ensures EndsWith("/index.html", ".html")
  {
    assert "/index.html"[6..] == ".html";
  }

  /** The root and every `/index.html` path look like pages. */
  lemma IndexPathsArePages(path: string, mime: string)
    requires path == "/" || EndsWith(path, "/index.html")
    ensures LooksLikePage(path, mime)
  {
    var lower := Lower(path);
    if path == "/" {
      assert lower == ['/'];
      NotAsset(lower);
      assert EndsWith(lower, "/");
    } else {
      LowerSuffix(path, "/index.html");
      IndexHtmlLower();
      IndexHtmlSuffixes();
      EndsWithTrans(lower, "/index.html", ".html");
      EndsWithLast(lower, ".html");
      NotAsset(lower);
      assert HasPageSuffix(lower);
    }
  }

  /** A path whose extension is `.css` or `.js` is an asset. */
  lemma StyleOrScriptIsAsset(path: string, mime: string)
    requires ExtensionOfPath(path) == ".css" || ExtensionOfPath(path) == ".js"
    ensures !LooksLikePage(path, mime)
  {
    ExtensionIsSuffix(path);
    assert IsAssetPath(Lower(path));
  }

  // ---------------------------------------------------------------------
  // Priority

  /** The score of one inventory URL: +30 page-like, -10 under
      `/wp-content/uploads/`, +15 style sheet or script, +20 the root or an
      `/index.html`, +5 a path shorter than 35 characters. */
  function Score(path: string, mime: string, ext: string): int {
    (if LooksLikePage(path, mime) then 30 else 0)
    + (if Contains(Lower(path), "/wp-content/uploads/") then -10 else 0)
    + (if ext == ".css" || ext == ".js" then 15 else 0)
    + (if path == "/" || EndsWith(path, "/index.html") then 20 else 0)
    + (if |path| < 35 then 5 else 0)
  }

  /** Where the classifiers agree, a page-like URL scores in [20, 55] and
      any other URL in [-10, 20]. */
  lemma ScoreBands(path: string, mime: string, ext: string)
    requires (ext == ".css" || ext == ".js") ==> !LooksLikePage(path, mime)
    requires (path == "/" || EndsWith(path, "/index.html")) ==> LooksLikePage(path, mime)
    ensures LooksLikePage(path, mime) ==> 20 <= Score(path, mime, ext) <= 55
    ensures !LooksLikePage(path, mime) ==> -10 <= Score(path, mime, ext) <= 20
  {
  }

  /** The path `_prioritize_inventory_urls` scores: `/` for an empty one. */
  function PathOr(path: string): string { if path == "" then "/" else path }

  /** The bands by path: the score of a URL with path `q` and MIME type `mime`. */
  lemma ScoreBandsOfPath(q: string, mime: string)
    ensures var p := PathOr(q);
      && (LooksLikePage(p, mime) ==> 20 <= Score(p, mime, ExtensionOfPath(q)) <= 55)
      && (!LooksLikePage(p, mime) ==> -10 <= Score(p, mime, ExtensionOfPath(q)) <= 20)
  {
    var p := PathOr(q);
    var e := ExtensionOfPath(q);
    assert (p == "/" || EndsWith(p, "/index.html")) ==> LooksLikePage(p, mime) by {
      if p == "/" || EndsWith(p, "/index.html") { IndexPathsArePages(p, mime); }
    }
    assert (e == ".css" || e == ".js") ==> !LooksLikePage(p, mime) by {
      if e == ".css" || e == ".js" {
        assert HasExtension(q);
        assert q != "";
        StyleOrScriptIsAsset(p, mime);
      }
    }
    ScoreBands(p, mime, e);
  }

  /** A complete row's cleaned URL with its score. */
  datatype Ranked = Ranked(score: int, url: Url)

  function RowPath(row: seq<string>): string requires Complete(row) { PathOr(Parse(row[1]).path) }

  function RowMime(row: seq<string>): string requires Complete(row) { Lower(row[2]) }

  function RowScore(row: seq<string>): int
    requires Complete(row)
  {
    Score(RowPath(row), RowMime(row), ExtensionOfUrl(row[1]))
  }

  /** Page-like URLs never rank below other URLs. */
  lemma PagesRankFirst(row: seq<string>, other: seq<string>)
    requires Complete(row) && Complete(other)
    requires LooksLikePage(RowPath(row), RowMime(row))
    requires !LooksLikePage(RowPath(other), RowMime(other))
    ensures RowScore(row) >= RowScore(other)
  {
    ScoreBandsOfPath(Parse(row[1]).path, RowMime(row));
    ScoreBandsOfPath(Parse(other[1]).path, RowMime(other));
  }

  /** The rows `_prioritize_inventory_urls` scores: complete, with an allowed host. */
  predicate Eligible(row: seq<string>, allowed: set<string>) {
    Complete(row) && Netloc(row[1]) in allowed
  }

  function RankRow(row: seq<string>): Ranked {
    if Complete(row) then Ranked(RowScore(row), CleanUrl(Parse(row[1]))) else Ranked(0, Url("", "", "", "", "", ""))
  }

  function UrlOf(e: Ranked): Url { e.url }

  function ScoreOf(e: Ranked): int { e.score }

  /** The first entry of each URL after a stable sort by descending score. */
  function RankedUrls(rows: seq<seq<string>>, allowed: set<string>): seq<Ranked> {
    DedupBy(SortDesc(MapFilter(rows, row => Eligible(row, allowed), RankRow), ScoreOf), UrlOf)
  }

  /** `_prioritize_inventory_urls`. */
  function Prioritize(rows: seq<seq<string>>, allowed: set<string>): seq<Url> {
    Map(RankedUrls(rows, allowed), UrlOf)
  }

  /** The prioritised list has no duplicates, holds exactly the cleaned URLs
      of the complete rows with an allowed host, and lists a URL before
      another only when it scored at least as high as every row of the
      other (`RankedSelectionHolds`, with the scored entries behind the
      list). */
  lemma PrioritizeSpec(rows: seq<seq<string>>, allowed: set<string>)
    ensures NoDup(Prioritize(rows, allowed))
    ensures forall u :: u in Prioritize(rows, allowed) <==> u in Keys(RankedUrls(rows, allowed), UrlOf)
    ensures RankedSelectionHolds(rows, row => Eligible(row, allowed), RankRow, ScoreOf, UrlOf, RankedUrls(rows, allowed))
  {
    RankedSelection(rows, row => Eligible(row, allowed), RankRow, ScoreOf, UrlOf);
    MapKeys(RankedUrls(rows, allowed), UrlOf);
  }
  /** Every prioritised URL is clean and has an allowed host. */
  lemma PrioritizedHosts(rows: seq<seq<string>>, allowed: set<string>)
    ensures forall k :: 0 <= k < |Prioritize(rows, allowed)| ==>
              IsClean(Prioritize(rows, allowed)[k]) && Prioritize(rows, allowed)[k].netloc in allowed
  {
    PrioritizeSpec(rows, allowed);
    var pr := Prioritize(rows, allowed);
    forall k | 0 <= k < |pr| ensures IsClean(pr[k]) && pr[k].netloc in allowed {
      assert pr[k] in pr;
      var i :| 0 <= i < |rows| && Eligible(rows[i], allowed) && pr[k] == UrlOf(RankRow(rows[i]));
    }
  }

  // ---------------------------------------------------------------------
  // Coverage

  /** `round(covered / len(expected) * 100, 2)` before the rounding: the share
      of the expected URLs that are present, in percent; 0.0 when nothing
      was expected. */
  function Coverage(expected: set<string>, have: set<string>): real {
    if |expected| == 0 then 0.0 else (|expected * have| as real) * 100.0 / (|expected| as real)
  }

  lemma {:induction false} SubsetCard<T>(a: set<T>, b: set<T>)
    requires a <= b
    ensures |a| <= |b|
    ensures |a| == |b| ==> a == b
    decreases |b|
  {
    if b != {} {
      var x :| x in b;
      SubsetCard(a - {x}, b - {x});
      assert |b - {x}| == |b| - 1;
      if x in a {
        assert |a - {x}| == |a| - 1;
        if |a| == |b| {
          assert a == (a - {x}) + {x} && b == (b - {x}) + {x};
        }
      } else {
        assert a - {x} == a;
      }
    }
  }

  /** Coverage is a percentage; it is 100 exactly when something was
      expected and all of it is present, and 0 exactly when none of it is. */
  lemma CoverageBounds(expected: set<string>, have: set<string>)
    ensures 0.0 <= Coverage(expected, have) <= 100.0
    ensures Coverage(expected, have) == 100.0 <==> expected != {} && expected <= have
    ensures Coverage(expected, have) == 0.0 <==> expected * have == {}
  {
    SubsetCard(expected * have, expected);
    if expected != {} {
      var c := |expected * have| as real;
      var e := |expected| as real;
      assert e > 0.0;
      assert c * 100.0 / e <= 100.0 by {
        assert c <= e;
      }
      if expected <= have {
        assert expected * have == expected;
      }
    }
  }

  /** More present URLs never lower the coverage. */
  lemma CoverageMonotone(expected: set<string>, have: set<string>, more: set<string>)
    requires have <= more
    ensures Coverage(expected, have) <= Coverage(expected, more)
  {
    if expected != {} {
      SubsetCard(expected * have, expected * more);
      var e := |expected| as real;
      assert (|expected * have| as real) * 100.0 <= (|expected * more| as real) * 100.0;
      assert e > 0.0;
    }
  }
}
