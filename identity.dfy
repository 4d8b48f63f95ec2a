/** How the web application and its database name a target site: the
    `_normalize_target_url` shared (character for character) by app.py and
    db.py, and the database's `_extract_domain` and `_target_url_variants`. */
module Identity {
  import opened Common
  import opened Urls

  /** What `https://<host>` needs of `<host>` to name that host and nothing
      else, once more, after normalising: a non-empty authority with no
      upper-case letter, no white space at either end and no leading `www.`. */
  predicate BareHost(h: string) {
    CleanHost(h) && !StartsWith(h, "www.")
  }

  /** The host read off a stripped input: the authority of the input taken
      as a URL (`https://` supplied when it holds no `://`), or its path when
      it has no authority, stripped, lower-cased and without one leading
      `www.`. */
  function HostPart(raw: string): (h: string)
    ensures forall i :: 0 <= i < |h| ==> !IsAsciiUpper(h[i])
  {
    HostOfUrl(Parse(WithScheme(raw)))
  }

  /** The input as `urlparse` is given it: `https://` prepended unless it
      holds `://`. */
  function WithScheme(raw: string): string {
    if Contains(raw, "://") then raw else "https://" + raw
  }

  /** The authority (or the path) stripped, lower-cased and without one
      leading `www.`. */
  function HostOfUrl(parsed: Url): (h: string)
    ensures forall i :: 0 <= i < |h| ==> !IsAsciiUpper(h[i])
  {
    var h := Lower(Strip(if parsed.netloc != "" then parsed.netloc else parsed.path));
    if StartsWith(h, "www.") then h[4..] else h
  }

  /** `_normalize_target_url`: blank input gives "", an input with a host
      gives `https://<host>`, and any other input comes back trimmed. */
  function NormalizeTargetUrl(target: string): (r: string)
    ensures r == "" <==> Strip(target) == ""
    ensures r == Strip(target)
            || (StartsWith(r, "https://") && r[8..] != "" && r[8..] == HostPart(Strip(target)))
  {
    var raw := Strip(target);
    if raw == "" then ""
    else
      var host := HostPart(raw);
      if host == "" then raw else "https://" + host
  }

  /** `_extract_domain`: the host of the normalised target, read the same way. */
  function ExtractDomain(target: string): (h: string)
    ensures forall i :: 0 <= i < |h| ==> !IsAsciiUpper(h[i])
  {
    HostPart(NormalizeTargetUrl(target))
  }

  /** `_target_url_variants`: the four spellings of the host, or failing a
      host the normalised target alone, or nothing. */
  function TargetUrlVariants(target: string): (r: seq<string>)
    ensures |r| <= 4
    ensures ExtractDomain(target) != "" ==> |r| == 4
    ensures ExtractDomain(target) == "" ==> (r == [] <==> Strip(target) == "")
  {
    var host := ExtractDomain(target);
    if host == "" then
      var normalized := NormalizeTargetUrl(target);
      if normalized != "" then [normalized] else []
    else Spellings(host)
  }

  /** A host with and without `www.`, under https and then under http. */
  function Spellings(host: string): seq<string> {
    ["https://" + host, "http://" + host, "https://www." + host, "http://www." + host]
  }

  // ---------------------------------------------------------------------
  // Reading a host back

  /** A lower-case authority with no white space at its ends. */
  predicate CleanHost(h: string) {
    h != "" && PlainHost(h) && (forall i :: 0 <= i < |h| ==> !IsAsciiUpper(h[i]))
    && !IsSpace(h[0]) && !IsSpace(h[|h| - 1])
  }

  function DropWww(h: string): string {
    if StartsWith(h, "www.") then h[4..] else h
  }

  lemma HostOfPlainUrl(scheme: string, h: string)
    requires CleanHost(h)
    ensures HostOfUrl(Url(scheme, h, "", "", "", "")) == DropWww(h)
  {
    StripWithNoEnds(h, IsSpace);
    LowerOfLower(h);
  }

  /** `https://<host>` reads back as its host. */
  lemma HostPartHttps(h: string)
    requires CleanHost(h)
    ensures HostPart("https://" + h) == DropWww(h)
  {
    var s := "https://" + h;
    assert OccursAt(s, "://", 5) by { assert s[5..8] == "://"; }
    ParseHttpsHost(h);
    HostOfPlainUrl("https", h);
  }

  lemma HostPartHttp(h: string)
    requires CleanHost(h)
    ensures HostPart("http://" + h) == DropWww(h)
  {
    var s := "http://" + h;
    assert OccursAt(s, "://", 4) by { assert s[4..7] == "://"; }
    ParseHttpHost(h);
    HostOfPlainUrl("http", h);
  }

  /** A stripped input whose host is `h` normalises to `https://<h>`. */
  lemma NormalizeWithHost(s: string, h: string)
    requires Strip(s) == s && s != "" && HostPart(s) == h && h != ""
    ensures NormalizeTargetUrl(s) == "https://" + h
  {
  }

  lemma StrippedWeb(s: string, h: string)
    requires |s| > |h| && h != "" && s[0] == 'h' && s[|s| - |h|..] == h && !IsSpace(h[|h| - 1])
    ensures Strip(s) == s
  {
    assert s[|s| - 1] == h[|h| - 1];
    StripWithNoEnds(s, IsSpace);
  }

  /** `www.<host>` is clean when `<host>` is. */
  lemma WwwClean(h: string)
    requires CleanHost(h)
    ensures CleanHost("www." + h) && DropWww("www." + h) == h
  {
    var w := "www." + h;
    assert forall i :: 0 <= i < |h| ==> w[4 + i] == h[i];
    assert w[|w| - 1] == h[|h| - 1] && w[..4] == "www." && w[4..] == h;
  }

  /** `https://<w>` and `http://<w>` for a clean authority `w` are
      stripped and read back as `w` without its `www.`. */
  lemma HttpsFacts(w: string)
    requires CleanHost(w)
    ensures var s := "https://" + w; Strip(s) == s && s != "" && HostPart(s) == DropWww(w)
  {
    HostPartHttps(w);
    StrippedWeb("https://" + w, w);
  }

  lemma HttpFacts(w: string)
    requires CleanHost(w)
    ensures var s := "http://" + w; Strip(s) == s && s != "" && HostPart(s) == DropWww(w)
  {
    HostPartHttp(w);
    StrippedWeb("http://" + w, w);
  }

  /** Hence both normalise to `https://` followed by `w` without its `www.`. */
  lemma NormalizeOfHostUrl(s: string, w: string, h: string)
    requires CleanHost(w) && DropWww(w) == h && h != ""
    requires s == "https://" + w || s == "http://" + w
    ensures NormalizeTargetUrl(s) == "https://" + h
  {
    if s == "https://" + w { HttpsFacts(w); } else { HttpFacts(w); }
    NormalizeWithHost(s, h);
  }

  /** ... and so name the domain `h`. */
  lemma DomainOfHostUrl(s: string, w: string, h: string)
    requires CleanHost(w) && DropWww(w) == h && BareHost(h)
    requires s == "https://" + w || s == "http://" + w
    ensures ExtractDomain(s) == h
  {
    NormalizeOfHostUrl(s, w, h);
    HostPartHttps(h);
  }

  // ---------------------------------------------------------------------
  // What the identity promises

  /** The empty input has no host. */
  lemma HostPartOfEmpty()
    ensures HostPart("") == ""
  {
    WithSchemeEmpty();
    ParseBareHttps();
    HostOfEmptyUrl();
  }

  lemma ParseBareHttps()
    ensures Parse("https://") == Url("https", "", "", "", "", "")
  {
    ParseHttpsHost("");
    assert "https://" + "" == "https://";
  }

  lemma WithSchemeEmpty()
    ensures WithScheme("") == "https://"
  {
    assert !Contains("", "://");
  }

  lemma HostOfEmptyUrl()
    ensures HostOfUrl(Url("https", "", "", "", "", "")) == ""
  {
    assert |Strip("")| == 0;
  }

  /** An input with a host normalises to `https://<host>`. */
  lemma NormalizeHasHost(target: string)
    requires HostPart(Strip(target)) != ""
    ensures NormalizeTargetUrl(target) == "https://" + HostPart(Strip(target))
  {
    HostPartOfEmpty();
  }

  /** Normalising twice is normalising once, whenever the host found is
      bare: a trimmed, lower-case authority that does not itself start
      with `www.`. */
  lemma NormalizeTargetUrlIdempotent(target: string)
    requires BareHost(HostPart(Strip(target)))
    ensures NormalizeTargetUrl(NormalizeTargetUrl(target)) == NormalizeTargetUrl(target)
  {
    var h := HostPart(Strip(target));
    NormalizeHasHost(target);
    NormalizeOfHostUrl(NormalizeTargetUrl(target), h, h);
  }

  /** Each spelling of a bare host names that host as its domain. */
  lemma SpellingsSameDomain(h: string)
    requires BareHost(h)
    ensures forall v :: v in Spellings(h) ==> ExtractDomain(v) == h
  {
    var r := Spellings(h);
    WwwClean(h);
    forall v | v in r ensures ExtractDomain(v) == h {
      if v == r[0] || v == r[1] {
        DomainOfHostUrl(v, h, h);
      } else {
        assert v == "https://" + ("www." + h) || v == "http://" + ("www." + h);
        DomainOfHostUrl(v, "www." + h, h);
      }
    }
  }

  /** The four spellings are four different strings. */
  lemma SpellingsDistinct(h: string)
    ensures var r := Spellings(h);
            forall i, j :: 0 <= i < j < |r| ==> r[i] != r[j]
  {
    var r := Spellings(h);
    assert r[0][4] == 's' && r[1][4] == ':' && r[2][4] == 's' && r[3][4] == ':';
    assert |r[2]| == |r[0]| + 4 && |r[3]| == |r[1]| + 4;
  }

  /** Every variant `_target_url_variants` lists names the same domain as
      the target, so rows stored under any of them belong to it; and there
      are four of them, all different, when the target has a domain. */
  lemma TargetUrlVariantsSameDomain(target: string)
    requires BareHost(ExtractDomain(target))
    ensures var r := TargetUrlVariants(target);
            && |r| == 4
            && (forall i, j :: 0 <= i < j < |r| ==> r[i] != r[j])
            && (forall v :: v in r ==> ExtractDomain(v) == ExtractDomain(target))
  {
    SpellingsSameDomain(ExtractDomain(target));
    SpellingsDistinct(ExtractDomain(target));
  }
}
