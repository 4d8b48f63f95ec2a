/** URL canonicalisation and variant expansion of `ArchiveWebTool`
    (`_clean_url`, `_normalize_target`, `_root_url`, `_wildcard_url`,
    `_build_url_variants`). */
module Variants {
  import opened Common
  import opened Seqs
  import opened Urls

  /** `_clean_url`: the same URL without `;params` and `#fragment`. */
  function CleanUrl(u: Url): (r: Url)
    ensures r.scheme == u.scheme && r.netloc == u.netloc && r.path == u.path && r.query == u.query
    ensures r.params == "" && r.fragment == ""
  {
    u.(params := "", fragment := "")
  }

  predicate IsClean(u: Url) { u.params == "" && u.fragment == "" }

  lemma CleanUrlIdempotent(u: Url)
    ensures CleanUrl(CleanUrl(u)) == CleanUrl(u)
    ensures IsClean(u) <==> CleanUrl(u) == u
  {
  }

  /** `_normalize_target`: trims the input, supplies `https://` when the input
      is not already an http or https URL, and insists on a host. */
  function NormalizeTarget(raw: string): (r: Result<Url, Failure>)
    ensures r.Err? ==> r.error == UrlRequired || r.error == InvalidUrl
    ensures r == Err(UrlRequired) <==> Strip(raw) == ""
    ensures r.Ok? ==> IsWebScheme(r.value.scheme) && r.value.netloc != "" && IsClean(r.value)
  {
    var url := Strip(raw);
    if url == "" then Err(UrlRequired)
    else
      var prefixed := StartsWith(url, "http://") || StartsWith(url, "https://");
      var full := if prefixed then url else "https://" + url;
      var parsed := Parse(full);
      SchemeOfWebUrl(full);
      if parsed.netloc == "" then Err(InvalidUrl) else Ok(CleanUrl(parsed))
  }

  /** Any string that starts with `http://` or `https://` parses with that scheme. */
  lemma SchemeOfWebUrl(s: string)
    requires StartsWith(s, "http://") || StartsWith(s, "https://")
    ensures IsWebScheme(Parse(s).scheme)
  {
    var p := if StartsWith(s, "http://") then "http" else "https";
    var rest := s[|p| + 3..];
    assert s == p + "://" + rest;
    ParseWeb(p, rest);
  }

  /** A bare host name normalises to `https://<host>` with nothing else. */
  lemma NormalizeBareHost(h: string)
    requires h != "" && PlainHost(h)
    requires !IsSpace(h[0]) && !IsSpace(h[|h| - 1])
    requires !StartsWith(h, "http://") && !StartsWith(h, "https://")
    ensures NormalizeTarget(h) == Ok(Url("https", h, "", "", "", ""))
  {
    StripWithNoEnds(h, IsSpace);
    assert "https" + "://" + h == "https://" + h;
    ParseWebHost("https", h);
  }

  lemma HttpPrefixParses(s: string)
    requires StartsWith(s, "http://")
    ensures Parse(s).scheme == "http"
  {
    var rest := s[7..];
    assert s == "http://" + rest;
    assert "http" + "://" + rest == "http://" + rest;
    ParseWeb("http", rest);
  }

  lemma NormalizePrefixed(raw: string)
    requires StartsWith(Strip(raw), "http://") || StartsWith(Strip(raw), "https://")
    requires NormalizeTarget(raw).Ok?
    ensures NormalizeTarget(raw).value == CleanUrl(Parse(Strip(raw)))
  {
  }

  /** An explicit http URL keeps its scheme. */
  lemma NormalizeKeepsScheme(raw: string)
    requires StartsWith(Strip(raw), "http://")
    requires NormalizeTarget(raw).Ok?
    ensures NormalizeTarget(raw).value.scheme == "http"
  {
    NormalizePrefixed(raw);
    HttpPrefixParses(Strip(raw));
  }

  /** `_root_url`: scheme and host with the path `/`. */
  function RootUrl(u: Url): (r: Url)
    ensures r.scheme == u.scheme && r.netloc == u.netloc
    ensures r.path == "/" && r.params == "" && r.query == "" && r.fragment == ""
  {
    Url(u.scheme, u.netloc, "/", "", "", "")
  }

  /** `_wildcard_url`: the capture-index pattern for every URL of the host. */
  function WildcardUrl(u: Url): string {
    u.scheme + "://" + u.netloc + "/*"
  }

  lemma SplitNetlocAt(a: string, b: string)
    requires forall i :: 0 <= i < |a| ==> !IsNetlocEnd(a[i])
    requires b != [] && IsNetlocEnd(b[0])
    ensures SplitNetloc(a + b) == (a, b)
  {
    var s := a + b;
    assert forall i :: 0 <= i < |a| ==> s[i] == a[i];
    assert s[|a|] == b[0];
    assert s[..|a|] == a && s[|a|..] == b;
  }

  lemma ParseRestWildcard(p: string, h: string)
    requires PlainHost(h)
    ensures ParseRest(p, "//" + (h + "/*")) == Url(p, h, "/*", "", "", "")
  {
    SplitNetlocAt(h, "/*");
    assert ("//" + (h + "/*"))[2..] == h + "/*";
    assert SplitFirst("/*", '#') == ("/*", None);
    assert SplitFirst("/*", '?') == ("/*", None);
  }

  lemma WildcardUrlShape(u: Url)
    requires PlainHost(u.netloc)
    ensures WildcardUrl(u) == u.scheme + "://" + (u.netloc + "/*")
    ensures forall i :: 0 <= i < |u.netloc + "/*"| ==> !IsUnsafe((u.netloc + "/*")[i])
  {
  }

  /** The wildcard pattern parses back to the host it was made from. */
  lemma WildcardUrlParses(u: Url)
    requires IsWebScheme(u.scheme) && PlainHost(u.netloc)
    ensures Parse(WildcardUrl(u)) == Url(u.scheme, u.netloc, "/*", "", "", "")
  {
    var rest := u.netloc + "/*";
    WildcardUrlShape(u);
    ParseWeb(u.scheme, rest);
    RemoveUnsafeNoop(rest);
    ParseRestWildcard(u.scheme, u.netloc);
  }

  // ---------------------------------------------------------------------
  // Variant expansion

  /** The host forms tried: the host itself, then the host without a leading
      `www.` (when something is left), or with `www.` added when the host has
      exactly one dot. */
  function HostVariants(host: string): (r: seq<string>)
    ensures 1 <= |r| <= 2 && r[0] == host
    ensures NoDup(r)
  {
    if StartsWith(host, "www.") then
      if host[4..] != "" then [host, host[4..]] else [host]
    else if CountChar(host, '.') == 1 then [host, "www." + host]
    else [host]
  }

  /** The URL for one scheme and host form. */
  function Variant(scheme: string, h: string, u: Url): Url {
    CleanUrl(Url(scheme, h, if u.path == "" then "/" else u.path, "", u.query, ""))
  }

  function VariantsFor(scheme: string, hosts: seq<string>, u: Url): (r: seq<Url>)
    ensures |r| == |hosts|
    ensures forall i :: 0 <= i < |r| ==> r[i] == Variant(scheme, hosts[i], u)
  {
    if hosts == [] then [] else [Variant(scheme, hosts[0], u)] + VariantsFor(scheme, hosts[1..], u)
  }

  /** What `_build_url_variants` returns: every https form, then every http form. */
  function UrlVariants(u: Url): seq<Url> {
    var hv := HostVariants(Lower(u.netloc));
    VariantsFor("https", hv, u) + VariantsFor("http", hv, u)
  }

  /** A `www.` form is added exactly for hosts without one that have one dot. */
  lemma HostVariantsWww(host: string)
    ensures (exists k :: 0 <= k < |HostVariants(host)| && HostVariants(host)[k] == "www." + host)
            <==> !StartsWith(host, "www.") && CountChar(host, '.') == 1
  {
    var hv := HostVariants(host);
    var w := "www." + host;
    if !StartsWith(host, "www.") && CountChar(host, '.') == 1 {
      assert hv[1] == w;
    } else {
      assert forall k :: 0 <= k < |hv| ==> |hv[k]| < |w|;
    }
  }

  lemma UrlVariantsNoDup(u: Url)
    ensures NoDup(UrlVariants(u))
    ensures |UrlVariants(u)| == 2 * |HostVariants(Lower(u.netloc))|
  {
    var hv := HostVariants(Lower(u.netloc));
    var a := VariantsFor("https", hv, u);
    var b := VariantsFor("http", hv, u);
    var r := UrlVariants(u);
    var n := |hv|;
    assert r == a + b;
    forall i, j | 0 <= i < j < |r| ensures r[i] != r[j] {
      if i < n && j >= n {
        assert r[i] == a[i] && r[j] == b[j - n];
      } else if i < n {
        assert r[i] == a[i] && r[j] == a[j];
        assert r[i].netloc == hv[i] && r[j].netloc == hv[j];
      } else {
        assert r[i] == b[i - n] && r[j] == b[j - n];
        assert r[i].netloc == hv[i - n] && r[j].netloc == hv[j - n];
      }
    }
  }

  /** Where each form sits in `UrlVariants`: the https forms in host order,
      then the http forms in the same order. */
  lemma UrlVariantsAt(u: Url)
    ensures var hv := HostVariants(Lower(u.netloc));
      var r := UrlVariants(u);
      |r| == 2 * |hv|
      && (forall i :: 0 <= i < |hv| ==> r[i] == Variant("https", hv[i], u))
      && (forall i :: |hv| <= i < |r| ==> r[i] == Variant("http", hv[i - |hv|], u))
  {
    var hv := HostVariants(Lower(u.netloc));
    var a := VariantsFor("https", hv, u);
    var b := VariantsFor("http", hv, u);
    assert UrlVariants(u) == a + b;
  }

  /** Some variant carries the `www.` form exactly when the host forms do. */
  lemma UrlVariantsWww(u: Url)
    ensures var r := UrlVariants(u);
      var host := Lower(u.netloc);
      (exists i :: 0 <= i < |r| && r[i].netloc == "www." + host)
        <==> !StartsWith(host, "www.") && CountChar(host, '.') == 1
  {
    var host := Lower(u.netloc);
    var hv := HostVariants(host);
    var r := UrlVariants(u);
    var n := |hv|;
    var w := "www." + host;
    UrlVariantsAt(u);
    HostVariantsWww(host);
    if exists i :: 0 <= i < |r| && r[i].netloc == w {
      var i :| 0 <= i < |r| && r[i].netloc == w;
      if i < n { assert hv[i] == w; } else { assert hv[i - n] == w; }
    }
    if exists k :: 0 <= k < n && hv[k] == w {
      var k :| 0 <= k < n && hv[k] == w;
      assert r[k].netloc == w;
    }
  }

  /** No duplicates, at most four entries, every https form before every
      http form, the given host (lower-cased) first in each half, and a `www.`
      form exactly when the host does not start with `www.` and has exactly
      one dot. */
  lemma UrlVariantsProps(u: Url)
    ensures var r := UrlVariants(u);
      var host := Lower(u.netloc);
      NoDup(r) && 2 <= |r| <= 4 && |r| % 2 == 0
      && (forall i :: 0 <= i < |r| / 2 ==> r[i].scheme == "https")
      && (forall i :: |r| / 2 <= i < |r| ==> r[i].scheme == "http")
      && r[0].netloc == host && r[|r| / 2].netloc == host
      && (forall i :: 0 <= i < |r| ==> IsClean(r[i]) && r[i].path != "" && r[i].query == u.query)
      && ((exists i :: 0 <= i < |r| && r[i].netloc == "www." + host)
          <==> !StartsWith(host, "www.") && CountChar(host, '.') == 1)
  {
    UrlVariantsNoDup(u);
    UrlVariantsAt(u);
    UrlVariantsWww(u);
  }

  lemma NotInPrefix<T>(xs: seq<T>, k: nat)
    requires NoDup(xs) && k < |xs|
    ensures xs[k] !in xs[..k]
  {
  }

  /** The inner loop of `_build_url_variants`: appends the forms of one
      scheme that are not yet listed. */
  method AppendVariants(out: seq<Url>, scheme: string, hv: seq<string>, u: Url) returns (r: seq<Url>)
    requires NoDup(out + VariantsFor(scheme, hv, u))
    ensures r == out + VariantsFor(scheme, hv, u)
  {
    ghost var full := out + VariantsFor(scheme, hv, u);
    r := out;
    for j := 0 to |hv|
      invariant r == full[..|out| + j]
    {
      var cleaned := Variant(scheme, hv[j], u);
      assert cleaned == full[|out| + j];
      NotInPrefix(full, |out| + j);
      if cleaned !in r {
        r := r + [cleaned];
      }
      assert full[..|out| + j + 1] == full[..|out| + j] + [full[|out| + j]];
    }
    assert full[..|out| + |hv|] == full;
  }

  /** `_build_url_variants`: https forms first, then http forms. */
  method BuildUrlVariants(u: Url) returns (out: seq<Url>)
    ensures out == UrlVariants(u)
  {
    var host := Lower(u.netloc);
    var hv := HostVariants(host);
    UrlVariantsNoDup(u);
    ghost var a := VariantsFor("https", hv, u);
    ghost var b := VariantsFor("http", hv, u);
    assert NoDup(a) by {
      assert forall i :: 0 <= i < |a| ==> a[i] == (a + b)[i];
    }
    assert [] + a == a;
    var schemes := ["https", "http"];
    out := [];
    for si := 0 to 2
      invariant out == if si == 0 then [] else if si == 1 then a else a + b
    {
      out := AppendVariants(out, schemes[si], hv, u);
    }
  }
}
