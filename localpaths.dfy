/** Where a downloaded file is saved inside the output directory
    (`_local_path_for_url`, `_safe_name`) and the link from one saved file
    to another (`_relative_link`). Local paths are lists of segments joined
    by `/`; the SHA-1 digest of the query string is a parameter. */
module LocalPaths {
  import opened Common
  import opened Seqs
  import opened Urls
  import opened Inventory

  // ---------------------------------------------------------------------
  // Safe names

  /** The characters `[A-Za-z0-9._-]` that survive in a name. */
  predicate IsSafeChar(c: char) {
    IsAsciiAlpha(c) || IsAsciiDigit(c) || c == '.' || c == '_' || c == '-'
  }

  predicate IsDotOrUnderscore(c: char) { c == '.' || c == '_' }

  /** `re.sub("[^A-Za-z0-9._-]+", "_", s)`: every maximal run of other
      characters becomes one `_`; `inRun` says whether the character just
      before `s` was part of such a run. */
  function ReplaceRuns(s: string, inRun: bool): (r: string)
    ensures forall i :: 0 <= i < |r| ==> IsSafeChar(r[i])
    ensures |r| <= |s|
  {
    if s == [] then []
    else if IsSafeChar(s[0]) then [s[0]] + ReplaceRuns(s[1..], false)
    else (if inRun then [] else ['_']) + ReplaceRuns(s[1..], true)
  }

  lemma {:induction false} ReplaceRunsNoop(s: string)
    requires forall i :: 0 <= i < |s| ==> IsSafeChar(s[i])
    ensures ReplaceRuns(s, false) == s
  {
    if s != [] {
      ReplaceRunsNoop(s[1..]);
    }
  }

  /** A run of unsafe characters becomes a single `_`. */
  lemma ReplaceRunsCollapses(a: string, run: string, b: string)
    requires forall i :: 0 <= i < |a| ==> IsSafeChar(a[i])
    requires run != [] && forall i :: 0 <= i < |run| ==> !IsSafeChar(run[i])
    requires b == [] || IsSafeChar(b[0])
    ensures ReplaceRuns(a + run + b, false) == a + "_" + ReplaceRuns(b, false)
  {
    ReplaceRunsPrefix(a, run + b);
    assert a + run + b == a + (run + b);
    ReplaceRunsRun(run, b, false);
  }

  lemma {:induction false} ReplaceRunsPrefix(a: string, rest: string)
    requires forall i :: 0 <= i < |a| ==> IsSafeChar(a[i])
    ensures ReplaceRuns(a + rest, false) == a + ReplaceRuns(rest, false)
  {
    if a != [] {
      assert (a + rest)[1..] == a[1..] + rest;
      ReplaceRunsPrefix(a[1..], rest);
    } else {
      assert a + rest == rest;
    }
  }

  lemma {:induction false} ReplaceRunsRun(run: string, b: string, inRun: bool)
    requires run != [] && forall i :: 0 <= i < |run| ==> !IsSafeChar(run[i])
    requires b == [] || IsSafeChar(b[0])
    ensures ReplaceRuns(run + b, inRun) == (if inRun then "" else "_") + ReplaceRuns(b, false)
    decreases |run|
  {
    assert (run + b)[0] == run[0];
    assert (run + b)[1..] == run[1..] + b;
    if |run| > 1 {
      ReplaceRunsRun(run[1..], b, true);
    } else {
      assert run[1..] + b == b;
      if b != [] {
        assert ReplaceRuns(b, true) == ReplaceRuns(b, false);
      }
    }
  }

  /** `_safe_name`: trimmed, unsafe runs replaced by `_`, then `.` and `_`
      stripped from both ends; `file` when nothing is left. */
  function SafeName(text: string): (r: string)
    ensures r != []
    ensures forall i :: 0 <= i < |r| ==> IsSafeChar(r[i])
    ensures !IsDotOrUnderscore(r[0]) && !IsDotOrUnderscore(r[|r| - 1])
  {
    var replaced := ReplaceRuns(Strip(text), false);
    var value := StripWith(replaced, IsDotOrUnderscore);
    StripWithKeeps(replaced, IsDotOrUnderscore, IsSafeChar);
    FileIsSafe();
    if value == [] then "file" else value
  }

  lemma FileIsSafe()
    ensures "file" != [] && forall i :: 0 <= i < |"file"| ==> IsSafeChar("file"[i])
    ensures !IsDotOrUnderscore("file"[0]) && !IsDotOrUnderscore("file"[3])
  {
  }

  lemma SafeNotSpace(c: char)
    requires IsSafeChar(c)
    ensures !IsSpace(c)
  {
  }

  /** A safe name is its own safe name. */
  lemma SafeNameIdempotent(text: string)
    ensures SafeName(SafeName(text)) == SafeName(text)
  {
    var r := SafeName(text);
    SafeNotSpace(r[0]);
    SafeNotSpace(r[|r| - 1]);
    StripWithNoEnds(r, IsSpace);
    ReplaceRunsNoop(r);
    StripWithNoEnds(r, IsDotOrUnderscore);
  }

  // ---------------------------------------------------------------------
  // Local paths

  /** The names `.` and `..`. */
  predicate IsDotName(p: string) {
    |p| <= 2 && forall i :: 0 <= i < |p| ==> p[i] == '.'
  }

  /** A segment of a local path: non-empty, without `/`, and neither `.`
      nor `..`. */
  predicate IsSegment(p: string) {
    p != [] && '/' !in p && !IsDotName(p)
  }

  predicate AllSegments(ps: seq<string>) {
    forall k :: 0 <= k < |ps| ==> IsSegment(ps[k])
  }

  /** A non-empty run of safe characters that does not start with `.` is a segment. */
  lemma SafeCharsSegment(r: string)
    requires r != [] && forall i :: 0 <= i < |r| ==> IsSafeChar(r[i])
    requires !IsDotOrUnderscore(r[0])
    ensures IsSegment(r)
  {
    assert !IsDotName(r) by { assert r[0] != '.'; }
    assert forall i :: 0 <= i < |r| ==> r[i] != '/';
  }

  lemma SafeNameIsSegment(text: string)
    ensures IsSegment(SafeName(text))
  {
    SafeCharsSegment(SafeName(text));
  }

  predicate IsHexChar(c: char) { IsAsciiDigit(c) || 'a' <= c <= 'f' }

  /** A lower-case hexadecimal digest, as `hexdigest()` returns. */
  type HexString = s: string | forall i :: 0 <= i < |s| ==> IsHexChar(s[i])

  /** `os.path.splitext` of a name without `/`: the extension starts at the
      last `.`, provided a character other than `.` comes before it. */
  function SplitExt(name: string): (r: (string, string))
    ensures r.0 + r.1 == name
    ensures r.1 == [] || (r.1[0] == '.' && '.' !in r.1[1..])
    ensures r.1 != [] ==> exists k :: 0 <= k < |r.0| && r.0[k] != '.'
  {
    var d := LastIndexOf(name, '.');
    if d > 0 && exists k :: 0 <= k < d && name[k] != '.' then
      assert name == name[..d] + name[d..];
      assert '.' !in name[d..][1..] by {
        forall i | 0 <= i < |name[d..][1..]| ensures name[d..][1..][i] != '.' {
          assert name[d..][1..][i] == name[d + 1 + i];
        }
      }
      (name[..d], name[d..])
    else
      assert name + [] == name;
      (name, [])
  }

  /** The name given to a URL with a query: the first eight digest
      characters are inserted before the extension. */
  function QueryName(name: string, digest: HexString): (r: string)
    ensures Contains(r, "__q_" + Take(digest, 8))
  {
    var (stem, ext) := SplitExt(name);
    var tag := "__q_" + Take(digest, 8);
    assert OccursAt(stem + tag + ext, tag, |stem|) by {
      assert (stem + tag + ext)[|stem|..|stem| + |tag|] == tag;
    }
    FindFromOccurs(stem + tag + ext, tag, |stem|);
    stem + tag + ext
  }

  lemma FindFromOccurs(s: string, sub: string, i: nat)
    requires OccursAt(s, sub, i)
    ensures Contains(s, sub)
  {
    FindFinds(s, sub, 0, i);
  }

  lemma {:induction false} FindFinds(s: string, sub: string, from: nat, i: nat)
    requires from <= i && OccursAt(s, sub, i)
    ensures FindFrom(s, sub, from) >= 0
    decreases i - from
  {
    if !OccursAt(s, sub, from) {
      FindFinds(s, sub, from + 1, i);
    }
  }

  lemma MapFilterSafe(xs: seq<string>)
    ensures AllSegments(MapFilter(xs, NonEmpty, SafeName))
  {
    forall x ensures IsSegment(SafeName(x)) {
      SafeNameIsSegment(x);
    }
    MapFilterAll(xs, NonEmpty, SafeName, IsSegment);
  }

  lemma IndexHtmlSegment()
    ensures IsSegment("index.html") && '.' in "index.html"
  {
    assert "index.html"[5] == '.';
    assert "index.html"[0] != '.';
  }

  /** The segments of the path: its non-empty segments made safe, then
      `index.html` for the root and for a trailing `/`. */
  function DirParts(path: string): (r: seq<string>)
    ensures |r| >= 1 && AllSegments(r)
    ensures EndsWith(path, "/") ==> r[|r| - 1] == "index.html"
  {
    var named := MapFilter(SplitOn(path, '/'), NonEmpty, SafeName);
    MapFilterSafe(SplitOn(path, '/'));
    IndexHtmlSegment();
    if named == [] then ["index.html"]
    else if EndsWith(path, "/") then named + ["index.html"]
    else named
  }

  lemma NameSegments(a: string, b: string)
    requires IsSegment(a) && '/' !in b && b != [] && a[0] != '.'
    ensures IsSegment(a + b)
  {
    assert (a + b)[0] == a[0];
  }

  lemma HtmlSuffix()
    ensures '/' !in ".html" && '.' in ".html"
  {
    assert ".html"[0] == '.';
  }

  /** `.html` is added to a last name without a `.` when the MIME type is HTML. */
  function HtmlName(parts: seq<string>, mime: string): (r: seq<string>)
    requires |parts| >= 1 && AllSegments(parts)
    ensures |r| == |parts| && AllSegments(r) && r[..|r| - 1] == parts[..|parts| - 1]
    ensures IsHtmlMime(mime) ==> '.' in r[|r| - 1]
    ensures '.' in parts[|parts| - 1] ==> r == parts
  {
    var n := |parts|;
    var filename := parts[n - 1];
    if '.' !in filename && IsHtmlMime(mime) then
      HtmlSuffix();
      NameSegments(filename, ".html");
      assert (filename + ".html")[|filename|] == '.';
      parts[..n - 1] + [filename + ".html"]
    else parts
  }

  lemma TagShape(digest: HexString)
    ensures var tag := "__q_" + Take(digest, 8); |tag| >= 4 && '/' !in tag
  {
    var t := Take(digest, 8);
    assert !IsHexChar('/');
    assert '/' !in "__q_";
    assert forall i :: 0 <= i < |t| ==> t[i] == digest[i];
  }

  lemma QueryNameIsSegment(name: string, digest: HexString)
    requires IsSegment(name)
    ensures IsSegment(QueryName(name, digest))
  {
    var (stem, ext) := SplitExt(name);
    TagShape(digest);
    assert '/' !in stem && '/' !in ext;
  }

  /** The last name carries the query digest when there is a query. */
  function QueryPart(parts: seq<string>, query: string, digest: string -> HexString): (r: seq<string>)
    requires |parts| >= 1 && AllSegments(parts)
    ensures |r| == |parts| && AllSegments(r) && r[..|r| - 1] == parts[..|parts| - 1]
    ensures query != "" ==> Contains(r[|r| - 1], "__q_" + Take(digest(query), 8))
    ensures query == "" ==> r == parts
  {
    var n := |parts|;
    if query != "" then
      QueryNameIsSegment(parts[n - 1], digest(query));
      parts[..n - 1] + [QueryName(parts[n - 1], digest(query))]
    else parts
  }

  /** The segments of `_local_path_for_url`: every one a proper name, so
      the saved file stays inside the output directory. */
  function LocalParts(u: Url, mime: string, digest: string -> HexString): (r: seq<string>)
    ensures |r| >= 1 && AllSegments(r)
  {
    QueryPart(HtmlName(DirParts(PathOr(u.path)), mime), u.query, digest)
  }

  /** `_local_path_for_url`: splitting it at `/` gives the segments back. */
  function LocalPath(u: Url, mime: string, digest: string -> HexString): (r: string)
    ensures SplitOn(r, '/') == LocalParts(u, mime, digest)
  {
    var parts := LocalParts(u, mime, digest);
    SplitOnJoin(parts, '/');
    Join(parts, "/")
  }

  /** A directory URL, or the root, without a query is saved as its
      `index.html`. */
  lemma DirectoryIsIndex(u: Url, mime: string, digest: string -> HexString)
    requires u.query == ""
    requires EndsWith(PathOr(u.path), "/")
    ensures var r := LocalParts(u, mime, digest); r[|r| - 1] == "index.html"
  {
    IndexHtmlSegment();
  }

  /** An HTML page without a query is saved under a name with a `.`. */
  lemma PageHasExtension(u: Url, mime: string, digest: string -> HexString)
    requires u.query == ""
    requires IsHtmlMime(mime)
    ensures var r := LocalParts(u, mime, digest); '.' in r[|r| - 1]
  {
  }

  /** A URL with a query is saved under a name carrying the digest of it. */
  lemma QueryIsTagged(u: Url, mime: string, digest: string -> HexString)
    requires u.query != ""
    ensures var r := LocalParts(u, mime, digest); Contains(r[|r| - 1], "__q_" + Take(digest(u.query), 8))
  {
  }

  // ---------------------------------------------------------------------
  // Relative links

  function CommonPrefix(a: seq<string>, b: seq<string>): (n: nat)
    ensures n <= |a| && n <= |b| && a[..n] == b[..n]
  {
    if a == [] || b == [] || a[0] != b[0] then 0
    else
      var k := CommonPrefix(a[1..], b[1..]);
      assert a[..k + 1] == [a[0]] + a[1..][..k];
      assert b[..k + 1] == [b[0]] + b[1..][..k];
      1 + k
  }

  function Ups(n: nat): (r: seq<string>)
    ensures |r| == n && forall i :: 0 <= i < n ==> r[i] == ".."
  {
    if n == 0 then [] else [".."] + Ups(n - 1)
  }

  /** `os.path.relpath` from a directory to a file, both given as segment
      lists under the same root: up to the common prefix, then down. */
  function RelativeSegments(fromDir: seq<string>, target: seq<string>): seq<string> {
    var c := CommonPrefix(fromDir, target);
    Ups(|fromDir| - c) + target[c..]
  }

  /** The place a relative path designates from a directory: `.` stays,
      `..` goes up, any other segment goes down. */
  function Walk(dir: seq<string>, rel: seq<string>): seq<string>
    decreases |rel|
  {
    if rel == [] then dir
    else if rel[0] == "." then Walk(dir, rel[1..])
    else if rel[0] == ".." then Walk(if dir == [] then [] else dir[..|dir| - 1], rel[1..])
    else Walk(dir + [rel[0]], rel[1..])
  }

  lemma {:induction false} WalkDown(dir: seq<string>, rest: seq<string>)
    requires AllSegments(rest)
    ensures Walk(dir, rest) == dir + rest
    decreases |rest|
  {
    if rest != [] {
      WalkDown(dir + [rest[0]], rest[1..]);
      assert dir + [rest[0]] + rest[1..] == dir + rest;
    }
  }

  lemma {:induction false} WalkUp(dir: seq<string>, n: nat, rest: seq<string>)
    requires n <= |dir|
    ensures Walk(dir, Ups(n) + rest) == Walk(dir[..|dir| - n], rest)
    decreases n
  {
    if n > 0 {
      assert (Ups(n) + rest)[0] == "..";
      assert (Ups(n) + rest)[1..] == Ups(n - 1) + rest;
      WalkUp(dir[..|dir| - 1], n - 1, rest);
      assert dir[..|dir| - 1][..|dir| - 1 - (n - 1)] == dir[..|dir| - n];
    } else {
      assert Ups(0) + rest == rest;
      assert dir[..|dir|] == dir;
    }
  }

  /** Following the relative link from the directory of the linking file
      arrives at the target. */
  lemma RelativeRoundTrip(fromDir: seq<string>, target: seq<string>)
    requires AllSegments(target)
    ensures Walk(fromDir, RelativeSegments(fromDir, target)) == target
  {
    var c := CommonPrefix(fromDir, target);
    WalkUp(fromDir, |fromDir| - c, target[c..]);
    assert fromDir[..|fromDir| - (|fromDir| - c)] == fromDir[..c];
    assert forall i :: 0 <= i < |target[c..]| ==> target[c..][i] == target[c + i];
    WalkDown(fromDir[..c], target[c..]);
    assert fromDir[..c] + target[c..] == target[..c] + target[c..] == target;
  }

  /** `_relative_link` between two local paths of the output directory. */
  function RelativeLink(fileLocal: string, targetLocal: string): string {
    var parts := SplitOn(fileLocal, '/');
    var rel := RelativeSegments(parts[..|parts| - 1], SplitOn(targetLocal, '/'));
    if rel == [] then "." else Join(rel, "/")
  }

  /** Following the link written by `_relative_link` from the directory
      of the linking file leads to the target's segments. */
  lemma RelativeLinkArrives(fileLocal: string, targetLocal: string)
    requires AllSegments(SplitOn(targetLocal, '/'))
    ensures var parts := SplitOn(fileLocal, '/');
      Walk(parts[..|parts| - 1], SplitOn(RelativeLink(fileLocal, targetLocal), '/')) == SplitOn(targetLocal, '/')
  {
    var parts := SplitOn(fileLocal, '/');
    var fromDir := parts[..|parts| - 1];
    var target := SplitOn(targetLocal, '/');
    var rel := RelativeSegments(fromDir, target);
    RelativeRoundTrip(fromDir, target);
    RelativeSegmentsNoSlash(fromDir, target);
    LinkSegments(rel);
  }

  /** The segments of the written link are those of the relative path. */
  lemma LinkSegments(rel: seq<string>)
    requires forall k :: 0 <= k < |rel| ==> '/' !in rel[k]
    ensures forall dir :: Walk(dir, SplitOn(if rel == [] then "." else Join(rel, "/"), '/')) == Walk(dir, rel)
  {
    if rel == [] {
      assert SplitOn(".", '/') == ["."] by { assert '/' !in "."; }
    } else {
      SplitOnJoin(rel, '/');
    }
  }

  lemma RelativeSegmentsNoSlash(fromDir: seq<string>, target: seq<string>)
    requires AllSegments(target)
    ensures forall k :: 0 <= k < |RelativeSegments(fromDir, target)| ==> '/' !in RelativeSegments(fromDir, target)[k]
  {
    var c := CommonPrefix(fromDir, target);
    var up := Ups(|fromDir| - c);
    var rel := up + target[c..];
    assert '/' !in ".." by { assert forall i :: 0 <= i < |".."| ==> ".."[i] == '.'; }
    forall k | 0 <= k < |rel| ensures '/' !in rel[k] {
      if k < |up| { assert rel[k] == ".."; } else { assert rel[k] == target[c + k - |up|]; }
    }
  }
}
