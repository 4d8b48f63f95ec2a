/** URLs as the engine sees them after `urllib.parse.urlparse`: a record of
    six string components. Raw strings from outside (user input, the
    `original` column of a capture-index row, a manifest entry) are split
    into that record by `Parse`, which follows urlparse as it behaves since
    Python 3.11: leading C0 controls and spaces are dropped, tab, CR and LF
    are removed anywhere, a scheme is recognised only when it starts with an
    ASCII letter and consists of letters, digits, `+`, `-` and `.`, and
    `;params` are split off the last path segment for the schemes that use
    them. */
module Urls {
  import opened Common

  datatype Url = Url(scheme: string, netloc: string, path: string,
                     params: string, query: string, fragment: string)

  /** The characters `str.lstrip` removes before parsing: C0 controls and space. */
  predicate IsC0OrSpace(c: char) { c <= ' ' }

  predicate IsUnsafe(c: char) { c == '\t' || c == '\r' || c == '\n' }

  predicate IsSchemeChar(c: char) {
    IsAsciiAlpha(c) || IsAsciiDigit(c) || c == '+' || c == '-' || c == '.'
  }

  predicate IsNetlocEnd(c: char) { c == '/' || c == '?' || c == '#' }

  /** The schemes for which urlparse splits off `;params`. */
  const UsesParams: set<string> := {"", "ftp", "hdl", "prospero", "http", "imap", "https",
    "shttp", "rtsp", "rtsps", "rtspu", "sip", "sips", "mms", "sftp", "tel"}

  function RemoveUnsafe(s: string): (r: string)
    ensures forall i :: 0 <= i < |r| ==> !IsUnsafe(r[i])
    ensures |r| <= |s|
  {
    if s == [] then []
    else (if IsUnsafe(s[0]) then [] else [s[0]]) + RemoveUnsafe(s[1..])
  }

  lemma {:induction false} RemoveUnsafeConcat(a: string, b: string)
    ensures RemoveUnsafe(a + b) == RemoveUnsafe(a) + RemoveUnsafe(b)
  {
    if a == [] {
      assert a + b == b;
    } else {
      assert (a + b)[0] == a[0];
      assert (a + b)[1..] == a[1..] + b;
      RemoveUnsafeConcat(a[1..], b);
    }
  }

  lemma {:induction false} RemoveUnsafeNoop(s: string)
    requires forall i :: 0 <= i < |s| ==> !IsUnsafe(s[i])
    ensures RemoveUnsafe(s) == s
  {
    if s != [] { RemoveUnsafeNoop(s[1..]); }
  }

  function Sanitize(s: string): string {
    RemoveUnsafe(LStripWith(s, IsC0OrSpace))
  }

  /** The scheme (lower-cased) and what follows its colon, or no scheme. */
  function SplitScheme(s: string): (r: (string, string))
    ensures r.0 == "" ==> r.1 == s
    ensures r.0 != "" ==> |r.0| < |s| && s[|r.0|] == ':' && r.1 == s[|r.0| + 1..]
  {
    var i := IndexOf(s, ':');
    if 0 < i < |s| && IsAsciiAlpha(s[0]) && (forall k :: 0 <= k < i ==> IsSchemeChar(s[k]))
    then (Lower(s[..i]), s[i + 1..])
    else ("", s)
  }

  /** The authority after a leading `//`: everything up to the first `/`, `?` or `#`. */
  function SplitNetloc(s: string): (r: (string, string))
    ensures r.0 + r.1 == s
    ensures forall i :: 0 <= i < |r.0| ==> !IsNetlocEnd(r.0[i])
    ensures r.1 == [] || IsNetlocEnd(r.1[0])
  {
    var d := IndexWhere(s, IsNetlocEnd);
    assert s == s[..d] + s[d..];
    (s[..d], s[d..])
  }

  /** `_splitparams`: the `;` that starts the params is looked for from the
      last `/` on. */
  function SplitParams(s: string): (r: (string, string)) {
    var from := LastIndexOf(s, '/');
    var start := if from < 0 then 0 else from;
    var i := FindFrom(s, ";", start);
    if i < 0 then (s, "") else (s[..i], s[i + 1..])
  }

  function ParseRest(scheme: string, rest: string): Url {
    var (netloc, r1) := if StartsWith(rest, "//") then SplitNetloc(rest[2..]) else ("", rest);
    var (r2, fragment) := SplitFirst(r1, '#');
    var (r3, query) := SplitFirst(r2, '?');
    var (path, params) := if scheme in UsesParams && ';' in r3 then SplitParams(r3) else (r3, "");
    Url(scheme, netloc, path, params,
        if query.Some? then query.value else "",
        if fragment.Some? then fragment.value else "")
  }

  /** urllib.parse.urlparse. */
  function Parse(s: string): Url {
    var (scheme, rest) := SplitScheme(Sanitize(s));
    ParseRest(scheme, rest)
  }

  /** The host of a URL string, as the engine compares hosts (`urlparse(u).netloc`). */
  function Netloc(s: string): string { Parse(s).netloc }

  /** The two schemes the engine accepts. */
  predicate IsWebScheme(p: string) { p == "http" || p == "https" }

  lemma {:induction false} IndexOfAfter(a: string, c: char, b: string)
    requires c !in a
    ensures IndexOf(a + [c] + b, c) == |a|
  {
    if a != [] {
      assert (a + [c] + b)[1..] == a[1..] + [c] + b;
      IndexOfAfter(a[1..], c, b);
    }
  }

  lemma SanitizeKeepsHead(a: string, b: string)
    requires a != [] && !IsC0OrSpace(a[0])
    requires forall i :: 0 <= i < |a| ==> !IsUnsafe(a[i])
    ensures Sanitize(a + b) == a + RemoveUnsafe(b)
  {
    assert (a + b)[0] == a[0];
    LStripWithNoHead(a + b, IsC0OrSpace);
    RemoveUnsafeConcat(a, b);
    RemoveUnsafeNoop(a);
  }

  lemma SanitizeWebPrefix(p: string, rest: string)
    requires IsWebScheme(p)
    ensures Sanitize(p + "://" + rest) == p + "://" + RemoveUnsafe(rest)
  {
    var pre := p + "://";
    if p == "http" {
      assert pre == "http://";
    } else {
      assert pre == "https://";
    }
    SanitizeKeepsHead(pre, rest);
  }

  /** `http` and `https` are lower-case scheme names without a colon. */
  lemma WebSchemeChars(p: string)
    requires IsWebScheme(p)
    ensures ':' !in p && |p| > 0 && IsAsciiAlpha(p[0])
    ensures forall k :: 0 <= k < |p| ==> IsSchemeChar(p[k]) && !IsAsciiUpper(p[k])
  {
  }

  lemma SplitSchemeWeb(p: string, rest: string)
    requires IsWebScheme(p)
    ensures SplitScheme(p + "://" + rest) == (p, "//" + rest)
  {
    var s := p + "://" + rest;
    WebSchemeChars(p);
    assert s == p + [':'] + ("//" + rest);
    IndexOfAfter(p, ':', "//" + rest);
    assert s[..|p|] == p;
    assert forall k :: 0 <= k < |p| ==> s[k] == p[k];
    LowerOfLower(p);
    assert s[|p| + 1..] == "//" + rest;
  }

  /** A string that starts with `http://` or `https://` parses with that
      scheme and with the authority that follows the two slashes. */
  lemma ParseWeb(p: string, rest: string)
    requires IsWebScheme(p)
    ensures Parse(p + "://" + rest) == ParseRest(p, "//" + RemoveUnsafe(rest))
    ensures Parse(p + "://" + rest).scheme == p
    ensures Parse(p + "://" + rest).netloc == SplitNetloc(RemoveUnsafe(rest)).0
  {
    SanitizeWebPrefix(p, rest);
    SplitSchemeWeb(p, RemoveUnsafe(rest));
    assert ("//" + RemoveUnsafe(rest))[2..] == RemoveUnsafe(rest);
  }

  /** urlparse never puts `/`, `?`, `#`, tab, CR or LF into the authority. */
  lemma ParseNetlocPlain(s: string)
    ensures PlainHost(Parse(s).netloc)
  {
    var t := Sanitize(s);
    var (scheme, rest) := SplitScheme(t);
    assert Safe(t);
    if scheme != "" {
      SafeSuffix(t, |scheme| + 1);
    }
    assert Safe(rest);
    if StartsWith(rest, "//") {
      SafeSuffix(rest, 2);
      var (n, r) := SplitNetloc(rest[2..]);
      SafePrefix(n, r);
      assert Parse(s).netloc == n;
    }
  }

  /** No tab, CR or LF anywhere. */
  predicate Safe(x: string) { forall i :: 0 <= i < |x| ==> !IsUnsafe(x[i]) }

  lemma SafeSuffix(x: string, k: nat)
    requires Safe(x) && k <= |x|
    ensures Safe(x[k..])
  {
    assert forall i :: 0 <= i < |x| - k ==> x[k..][i] == x[k + i];
  }

  lemma SafePrefix(x: string, y: string)
    requires Safe(x + y)
    ensures Safe(x)
  {
    assert forall i :: 0 <= i < |x| ==> (x + y)[i] == x[i];
  }

  /** A bare host name: what `https://<host>` carries in its authority. */
  predicate PlainHost(h: string) {
    forall i :: 0 <= i < |h| ==> !IsNetlocEnd(h[i]) && !IsUnsafe(h[i])
  }

  lemma ParseWebHost(p: string, h: string)
    requires IsWebScheme(p)
    requires PlainHost(h)
    ensures Parse(p + "://" + h) == Url(p, h, "", "", "", "")
  {
    ParseWeb(p, h);
    RemoveUnsafeNoop(h);
    assert ("//" + h)[2..] == h;
    var d := IndexWhere(h, IsNetlocEnd);
    assert d == |h|;
    assert h[..d] == h && h[d..] == "";
  }

  /** The same, for the two literal prefixes the web application writes. */
  lemma ParseHttpsHost(h: string)
    requires PlainHost(h)
    ensures Parse("https://" + h) == Url("https", h, "", "", "", "")
  {
    assert "https" + "://" + h == "https://" + h;
    ParseWebHost("https", h);
  }

  lemma ParseHttpHost(h: string)
    requires PlainHost(h)
    ensures Parse("http://" + h) == Url("http", h, "", "", "", "")
  {
    assert "http" + "://" + h == "http://" + h;
    ParseWebHost("http", h);
  }
}
