/** Link discovery (`_discover_links`, `_resolve_url`) and the offline
    rewriter (`_rewrite_for_offline`). Parsing HTML and finding the
    `url(...)` matches of a stylesheet are left to a parser given as a
    parameter: a document is the list of its tags with their attributes, a
    stylesheet the list of its text pieces and `url(...)` matches.
    Reference resolution (`urljoin`) is a parameter too. */
module Rewriter {
  import opened Common
  import opened Seqs
  import opened Urls
  import opened Variants
  import opened Inventory
  import opened LocalPaths

  /** `ATTRS_TO_SCAN`: the attributes looked at on every tag, in order. */
  const ScannedAttrs: seq<string> := ["src", "href", "poster", "data-src", "data-href"]

  predicate IsCssMime(mime: string) { Contains(mime, "text/css") }

  /** A tag of a parsed document, with its attributes by name. */
  datatype Tag = Tag(attrs: map<string, string>)

  /** A piece of a stylesheet as `url\(([^)]+)\)` (ignoring case) cuts it:
      plain text, or a match with the spelling of its `url` keyword and the
      text between the parentheses. */
  datatype CssPiece = Text(text: string) | UrlCall(keyword: string, inner: string)

  /** What the parser makes of a body. */
  datatype Parser = Parser(html: seq<byte> -> seq<Tag>, css: seq<byte> -> seq<CssPiece>)

  function RenderPiece(p: CssPiece): string {
    match p
    case Text(t) => t
    case UrlCall(k, inner) => k + "(" + inner + ")"
  }

  /** The text of a stylesheet. */
  function RenderCss(pieces: seq<CssPiece>): string {
    if pieces == [] then "" else RenderPiece(pieces[0]) + RenderCss(pieces[1..])
  }

  // ---------------------------------------------------------------------
  // Resolving a value

  /** `BAD_SCHEMES`: values that never designate a file. */
  predicate HasBadScheme(lowered: string) {
    StartsWith(lowered, "javascript:") || StartsWith(lowered, "mailto:") || StartsWith(lowered, "tel:")
    || StartsWith(lowered, "data:") || StartsWith(lowered, "#")
  }

  /** `_resolve_url`: the trimmed value resolved against the base, kept
      only when the result is an http or https URL, and cleaned. */
  function ResolveUrl(base: Url, value: string, join: (Url, string) -> Url): (r: Option<Url>)
    ensures r.Some? <==> (Strip(value) != "" && !HasBadScheme(Lower(Strip(value)))
                          && IsWebScheme(join(base, Strip(value)).scheme))
    ensures r.Some? ==> IsWebScheme(r.value.scheme) && IsClean(r.value)
                        && r.value == CleanUrl(join(base, Strip(value)))
  {
    var candidate := Strip(value);
    if candidate == "" then None
    else if HasBadScheme(Lower(candidate)) then None
    else
      var resolved := join(base, candidate);
      if !IsWebScheme(resolved.scheme) then None else Some(CleanUrl(resolved))
  }

  /** A value that is blank or starts with a scheme of `BAD_SCHEMES`, in
      any case, resolves to nothing. */
  lemma BadValuesIgnored(base: Url, value: string, join: (Url, string) -> Url)
    requires Strip(value) == "" || HasBadScheme(Lower(Strip(value)))
    ensures ResolveUrl(base, value, join).None?
  {
  }

  // ---------------------------------------------------------------------
  // Discovering links

  predicate IsQuote(c: char) { c == '"' || c == '\'' }

  /** `s.split(" ")[0]`. */
  function FirstWord(s: string): string { SplitOn(s, ' ')[0] }

  /** The values of the named attributes present and non-empty on a tag. */
  function AttrValues(attrs: map<string, string>, names: seq<string>): (r: seq<string>)
    ensures forall v :: v in r <==> exists k :: 0 <= k < |names| && names[k] in attrs && attrs[names[k]] == v && v != ""
  {
    if names == [] then []
    else
      var rest := AttrValues(attrs, names[1..]);
      assert forall k :: 0 < k < |names| ==> names[k] == names[1..][k - 1];
      (if names[0] in attrs && attrs[names[0]] != "" then [attrs[names[0]]] else []) + rest
  }

  /** The srcset of a tag, when present and non-empty. */
  function Srcset(tag: Tag): Option<string> {
    if "srcset" in tag.attrs && tag.attrs["srcset"] != "" then Some(tag.attrs["srcset"]) else None
  }

  /** The comma-separated entries of a srcset, trimmed. */
  function SrcsetChunks(srcset: string): seq<string> { Map(SplitOn(srcset, ','), Strip) }

  /** The first word of every entry of the srcset. */
  function SrcsetCandidates(tag: Tag): seq<string> {
    var s := Srcset(tag);
    if s.None? then [] else Map(SrcsetChunks(s.value), FirstWord)
  }

  /** The values scanned on one tag, in order. */
  function TagValues(tag: Tag): seq<string> {
    AttrValues(tag.attrs, ScannedAttrs) + SrcsetCandidates(tag)
  }

  /** The values scanned in a document, tag by tag. */
  function HtmlValues(tags: seq<Tag>): seq<string> {
    if tags == [] then [] else TagValues(tags[0]) + HtmlValues(tags[1..])
  }

  /** The inside of a `url(...)`, trimmed and without its quotes. */
  function CssValue(inner: string): string { StripWith(Strip(inner), IsQuote) }

  /** The values of the `url(...)` matches of a stylesheet. */
  function CssValues(pieces: seq<CssPiece>): seq<string> {
    if pieces == [] then []
    else (if pieces[0].UrlCall? then [CssValue(pieces[0].inner)] else []) + CssValues(pieces[1..])
  }

  /** The values `_discover_links` looks at: those of an HTML document, of
      a stylesheet, or none. */
  function Candidates(body: seq<byte>, mime: string, parser: Parser): seq<string> {
    if IsHtmlMime(mime) then HtmlValues(parser.html(body))
    else if IsCssMime(mime) then CssValues(parser.css(body))
    else []
  }

  /** Every value that resolves, resolved, in order. */
  function ResolveAll(base: Url, values: seq<string>, join: (Url, string) -> Url): (r: seq<Url>)
    ensures forall j :: 0 <= j < |r| ==> IsWebScheme(r[j].scheme) && IsClean(r[j])
  {
    if values == [] then []
    else
      var head := ResolveUrl(base, values[0], join);
      (if head.Some? then [head.value] else []) + ResolveAll(base, values[1..], join)
  }

  lemma {:induction false} ResolveAllMembership(base: Url, values: seq<string>, join: (Url, string) -> Url, u: Url)
    ensures u in ResolveAll(base, values, join) <==> exists v :: v in values && ResolveUrl(base, v, join) == Some(u)
  {
    if values != [] {
      ResolveAllMembership(base, values[1..], join, u);
      if exists v :: v in values && ResolveUrl(base, v, join) == Some(u) {
        var v :| v in values && ResolveUrl(base, v, join) == Some(u);
        if v != values[0] {
          assert v in values[1..];
        }
      }
    }
  }

  /** `_discover_links`: the links of a page or stylesheet, each once; a URL
      is among them exactly when some scanned value of the body resolves to
      it. */
  function DiscoverLinks(base: Url, body: seq<byte>, mime: string, parser: Parser, join: (Url, string) -> Url)
    : (r: seq<Url>)
    ensures NoDup(r)
    ensures forall u :: u in r <==> exists v :: v in Candidates(body, mime, parser) && ResolveUrl(base, v, join) == Some(u)
    ensures forall j :: 0 <= j < |r| ==> IsWebScheme(r[j].scheme) && IsClean(r[j])
  {
    var values := Candidates(body, mime, parser);
    var all := ResolveAll(base, values, join);
    forall u ensures u in Dedup(all) <==> exists v :: v in values && ResolveUrl(base, v, join) == Some(u) {
      ResolveAllMembership(base, values, join, u);
    }
    Dedup(all)
  }

  // ---------------------------------------------------------------------
  // Rewriting for offline use

  /** What the rewriter of one saved file knows: the page URL, reference
      resolution, the local path of every saved URL and the file's own
      local path. */
  datatype Context = Context(page: Url, join: (Url, string) -> Url, urlToLocal: map<Url, string>, fileLocal: string)

  /** The local path of the saved file a value designates, if any. */
  function LocalTarget(ctx: Context, value: string): (r: Option<string>)
    ensures r.Some? ==> r.value != ""
  {
    var resolved := ResolveUrl(ctx.page, value, ctx.join);
    if resolved.Some? && resolved.value in ctx.urlToLocal && ctx.urlToLocal[resolved.value] != ""
    then Some(ctx.urlToLocal[resolved.value])
    else None
  }

  /** The link that replaces a value designating a saved file. */
  function LinkTo(ctx: Context, local: string): string { RelativeLink(ctx.fileLocal, local) }

  /** `LocalTarget` and `LinkTo` of one file, as the lookups the rewriting
      below takes. */
  function TargetIn(ctx: Context): string -> Option<string> { (v: string) => LocalTarget(ctx, v) }

  function LinkIn(ctx: Context): string -> string { (l: string) => LinkTo(ctx, l) }

  // The rewriting below is stated for any lookup `target` (which saved
  // file a value designates) and any `link` (what is written for it);
  // `RewriteForOffline` instantiates them with `TargetIn` and `LinkIn`.

  /** The value an attribute gets: the link when it designates a saved
      file, else its own. */
  function NewValue(target: string -> Option<string>, link: string -> string, value: string): string {
    if value != "" && target(value).Some? then link(target(value).value) else value
  }

  /** The scanned attributes of a tag, rewritten one after the other: the
      same attributes, each replaced by `NewValue`, and whether any was. */
  function RewriteAttrs(attrs: map<string, string>, names: seq<string>,
                        target: string -> Option<string>, link: string -> string)
    : (r: (map<string, string>, bool))
    requires NoDup(names)
    ensures r.0.Keys == attrs.Keys
    ensures forall a :: a in attrs && a !in names ==> r.0[a] == attrs[a]
    ensures forall a :: a in attrs && a in names ==> r.0[a] == NewValue(target, link, attrs[a])
    ensures r.1 <==> exists a :: a in names && a in attrs && attrs[a] != "" && target(attrs[a]).Some?
    ensures !r.1 ==> r.0 == attrs
  {
    if names == [] then (attrs, false)
    else
      var a := names[0];
      var hit := a in attrs && attrs[a] != "" && target(attrs[a]).Some?;
      var attrs1 := if hit then attrs[a := NewValue(target, link, attrs[a])] else attrs;
      assert forall i :: 0 <= i < |names| - 1 ==> names[1..][i] == names[i + 1];
      var rest := RewriteAttrs(attrs1, names[1..], target, link);
      assert forall b :: b in names <==> b == a || b in names[1..];
      (rest.0, hit || rest.1)
  }

  /** The descriptor of a srcset entry: what follows its first space. */
  function Descriptor(chunk: string): string {
    if ' ' in chunk then chunk[IndexOf(chunk, ' ') + 1..] else ""
  }

  /** The words of an entry after its first, joined back with spaces, are
      its descriptor. */
  lemma EntryParts(chunk: string)
    ensures var left := SplitOn(chunk, ' ');
      (|left| > 1 <==> ' ' in chunk) && (|left| > 1 ==> Join(left[1..], " ") == Descriptor(chunk))
  {
    var left := SplitOn(chunk, ' ');
    var i := IndexOf(chunk, ' ');
    if i < |chunk| {
      assert left[1..] == SplitOn(chunk[i + 1..], ' ');
      assert [' '] == " ";
    }
  }

  /** A non-empty string without white space. */
  predicate IsWord(w: string) { w != "" && forall i :: 0 <= i < |w| ==> !IsSpace(w[i]) }

  /** An entry that starts with a word, a space and anything, once trimmed,
      still has that word first. */
  lemma LeadingWord(w: string, rest: string)
    requires IsWord(w)
    ensures FirstWord(Strip(w + " " + rest)) == w
  {
    var s := w + " " + rest;
    assert s[0] == w[0];
    LStripWithNoHead(s, IsSpace);
    var r := RStripWith(s, IsSpace);
    assert Strip(s) == r;
    assert !IsSpace(s[|w| - 1]) by { assert s[|w| - 1] == w[|w| - 1]; }
    assert |r| >= |w|;
    assert r[..|w|] == w;
    assert ' ' !in w by {
      forall i | 0 <= i < |w| ensures w[i] != ' ' { assert !IsSpace(w[i]); }
    }
    if |r| == |w| {
      assert r == w;
      assert IndexOf(w, ' ') == |w|;
    } else {
      assert r[|w|] == ' ';
      assert r == w + [' '] + r[|w| + 1..];
      SplitOnCons(w, r[|w| + 1..], ' ');
    }
  }

  /** One srcset entry designating a saved file, rewritten. */
  function RewriteChunk(target: string -> Option<string>, link: string -> string, chunk: string): (r: Option<string>)
    ensures r.Some? <==> target(FirstWord(chunk)).Some?
  {
    var left := SplitOn(chunk, ' ');
    var desc := if |left| > 1 then Join(left[1..], " ") else "";
    var t := target(left[0]);
    if t.Some? then Some(Strip(link(t.value) + " " + desc)) else None
  }

  /** A rewritten entry is the link in place of its URL, its descriptor
      kept, the whole trimmed; the link is then the entry's first word when
      it is a word itself. */
  lemma ChunkEntry(target: string -> Option<string>, link: string -> string, chunk: string)
    requires target(FirstWord(chunk)).Some?
    ensures var e := RewriteChunk(target, link, chunk).value;
      var l := link(target(FirstWord(chunk)).value);
      e == Strip(l + " " + Descriptor(chunk)) && (IsWord(l) ==> FirstWord(e) == l)
  {
    EntryParts(chunk);
    var l := link(target(FirstWord(chunk)).value);
    if IsWord(l) {
      LeadingWord(l, Descriptor(chunk));
    }
  }

  /** An entry as written back by `f`: its replacement when `f` gives
      one, else the entry itself. */
  function Replaced(f: string -> Option<string>, chunk: string): string {
    if f(chunk).Some? then f(chunk).value else chunk
  }

  /** The entries written back for a srcset: its non-empty entries, each
      rewritten when it designates a saved file, else as it was. */
  function NewEntries(target: string -> Option<string>, link: string -> string, chunks: seq<string>): seq<string> {
    Map(Filter(chunks, NonEmpty), (c: string) => Replaced((e: string) => RewriteChunk(target, link, e), c))
  }

  /** The non-empty entries, each written back by `f`, one after the other;
      and whether `f` replaced one. */
  function ReplaceChunks(chunks: seq<string>, f: string -> Option<string>): (r: (seq<string>, bool))
    ensures |r.0| == |Filter(chunks, NonEmpty)|
    ensures r.1 <==> exists k :: 0 <= k < |chunks| && chunks[k] != "" && f(chunks[k]).Some?
    ensures !r.1 ==> r.0 == Filter(chunks, NonEmpty)
  {
    if chunks == [] then ([], false)
    else
      var rest := ReplaceChunks(chunks[1..], f);
      assert forall k :: 0 < k < |chunks| ==> chunks[k] == chunks[1..][k - 1];
      var chunk := chunks[0];
      if chunk == "" then rest
      else
        var c := f(chunk);
        ([if c.Some? then c.value else chunk] + rest.0, c.Some? || rest.1)
  }

  /** Each entry `ReplaceChunks` gives is the matching non-empty entry as
      `f` writes it back. */
  lemma {:induction false} ReplaceChunksEntries(chunks: seq<string>, f: string -> Option<string>)
    ensures var parts := ReplaceChunks(chunks, f).0;
      forall j :: 0 <= j < |parts| ==> parts[j] == Replaced(f, Filter(chunks, NonEmpty)[j])
  {
    if chunks != [] {
      ReplaceChunksEntries(chunks[1..], f);
      var kept := Filter(chunks[1..], NonEmpty);
      var rest := ReplaceChunks(chunks[1..], f).0;
      var parts := ReplaceChunks(chunks, f).0;
      if chunks[0] == "" {
        assert Filter(chunks, NonEmpty) == kept;
        assert parts == rest;
      } else {
        assert Filter(chunks, NonEmpty) == [chunks[0]] + kept;
        assert parts == [Replaced(f, chunks[0])] + rest;
        forall j | 0 < j < |parts| ensures parts[j] == Replaced(f, Filter(chunks, NonEmpty)[j]) {
          assert parts[j] == rest[j - 1];
        }
      }
    }
  }

  /** The new srcset, when an entry was replaced. It is replaced exactly
      when one of its candidates designates a saved file. */
  function RewriteSrcset(target: string -> Option<string>, link: string -> string, srcset: string): (r: Option<string>)
    requires target("").None?
    ensures r.Some? <==> exists w :: w in Map(SrcsetChunks(srcset), FirstWord) && target(w).Some?
  {
    var chunks := SrcsetChunks(srcset);
    var f := (e: string) => RewriteChunk(target, link, e);
    var (parts, any) := ReplaceChunks(chunks, f);
    EmptyFirstWord();
    WordHit(chunks, target, FirstWord, f);
    if any then Some(Join(parts, ", ")) else None
  }

  /** A replaced srcset is its entries written back, joined by `, `. */
  lemma SrcsetValue(target: string -> Option<string>, link: string -> string, srcset: string)
    requires target("").None?
    requires RewriteSrcset(target, link, srcset).Some?
    ensures RewriteSrcset(target, link, srcset).value == Join(NewEntries(target, link, SrcsetChunks(srcset)), ", ")
  {
    var chunks := SrcsetChunks(srcset);
    var f := (e: string) => RewriteChunk(target, link, e);
    var parts := ReplaceChunks(chunks, f).0;
    ReplaceChunksEntries(chunks, f);
    assert parts == NewEntries(target, link, chunks);
  }

  /** An empty entry designates nothing: only the words of the non-empty
      entries matter. */
  lemma WordHit(chunks: seq<string>, target: string -> Option<string>, word: string -> string,
                f: string -> Option<string>)
    requires target(word("")).None?
    requires forall c :: f(c).Some? <==> target(word(c)).Some?
    ensures (exists k :: 0 <= k < |chunks| && chunks[k] != "" && f(chunks[k]).Some?)
            <==> exists w :: w in Map(chunks, word) && target(w).Some?
  {
    var words := Map(chunks, word);
    if exists w :: w in words && target(w).Some? {
      var w :| w in words && target(w).Some?;
      var k :| 0 <= k < |chunks| && words[k] == w;
      assert chunks[k] != "";
    }
  }

  lemma EmptyFirstWord()
    ensures FirstWord("") == ""
  {
    assert SplitOn("", ' ') == [""];
  }

  lemma AttrNames()
    ensures NoDup(ScannedAttrs)
    ensures "srcset" !in ScannedAttrs
  {
    assert ScannedAttrs[0][0] == 's' && ScannedAttrs[1][0] == 'h' && ScannedAttrs[2][0] == 'p';
    assert |ScannedAttrs[3]| == 8 && |ScannedAttrs[4]| == 9 && |ScannedAttrs[0]| == 3 && |ScannedAttrs[1]| == 4;
  }

  /** An empty srcset has no entry to replace. */
  lemma EmptySrcset(target: string -> Option<string>, link: string -> string)
    requires target("").None?
    ensures RewriteSrcset(target, link, "").None?
  {
    EmptyFirstWord();
    assert SplitOn("", ',') == [""];
    assert SrcsetChunks("") == [""] by { assert Strip("") == ""; }
    assert Map(SrcsetChunks(""), FirstWord) == [""];
  }

  /** The value a srcset has after rewriting: `RewriteSrcset`'s, else its
      own. */
  function NewSrcset(target: string -> Option<string>, link: string -> string, srcset: string): string
    requires target("").None?
  {
    var n := RewriteSrcset(target, link, srcset);
    if n.Some? then n.value else srcset
  }

  /** The srcset of a tag rewritten, within attributes with the same names:
      it takes `NewSrcset` when `RewriteSrcset` gives a value. */
  function RewriteSrcsetAttr(target: string -> Option<string>, link: string -> string, tag: Tag,
                             attrs: map<string, string>): (r: (map<string, string>, bool))
    requires target("").None?
    requires attrs.Keys == tag.attrs.Keys
    ensures r.0.Keys == attrs.Keys
    ensures r.1 <==> "srcset" in tag.attrs && RewriteSrcset(target, link, tag.attrs["srcset"]).Some?
    ensures r.0 == if r.1 then attrs["srcset" := NewSrcset(target, link, tag.attrs["srcset"])] else attrs
  {
    var s := Srcset(tag);
    if s.None? then
      EmptySrcset(target, link);
      (attrs, false)
    else
      var repl := RewriteSrcset(target, link, s.value);
      if repl.Some? then (attrs["srcset" := repl.value], true) else (attrs, false)
  }

  /** A tag's srcset is replaced exactly when one of its candidates
      designates a saved file. */
  lemma SrcsetHit(target: string -> Option<string>, link: string -> string, tag: Tag)
    requires target("").None?
    ensures ("srcset" in tag.attrs && RewriteSrcset(target, link, tag.attrs["srcset"]).Some?)
            <==> exists w :: w in SrcsetCandidates(tag) && target(w).Some?
  {
    if Srcset(tag).None? {
      assert SrcsetCandidates(tag) == [];
      EmptySrcset(target, link);
    } else {
      assert SrcsetCandidates(tag) == Map(SrcsetChunks(tag.attrs["srcset"]), FirstWord);
    }
  }

  /** One tag rewritten: its scanned attributes, then its srcset; it keeps
      its attribute names and is changed exactly when one of its scanned
      values designates a saved file. */
  function RewriteTag(target: string -> Option<string>, link: string -> string, tag: Tag): (r: (Tag, bool))
    requires target("").None?
    ensures r.0.attrs.Keys == tag.attrs.Keys
    ensures r.1 <==> exists v :: v in TagValues(tag) && target(v).Some?
    ensures !r.1 ==> r.0 == tag
  {
    AttrNames();
    var named := RewriteAttrs(tag.attrs, ScannedAttrs, target, link);
    var srcset := RewriteSrcsetAttr(target, link, tag, named.0);
    TagValuesHit(target, tag);
    SrcsetHit(target, link, tag);
    (Tag(srcset.0), named.1 || srcset.1)
  }

  /** What a rewritten tag holds: every scanned attribute its `NewValue`,
      the srcset its `NewSrcset`, every other attribute its old value. */
  lemma RewriteTagValues(target: string -> Option<string>, link: string -> string, tag: Tag)
    requires target("").None?
    ensures var t := RewriteTag(target, link, tag).0;
      && (forall a :: a in tag.attrs && a in ScannedAttrs ==> t.attrs[a] == NewValue(target, link, tag.attrs[a]))
      && ("srcset" in tag.attrs ==> t.attrs["srcset"] == NewSrcset(target, link, tag.attrs["srcset"]))
      && (forall a :: a in tag.attrs && a !in ScannedAttrs && a != "srcset" ==> t.attrs[a] == tag.attrs[a])
  {
    AttrNames();
    var named := RewriteAttrs(tag.attrs, ScannedAttrs, target, link);
    var srcset := RewriteSrcsetAttr(target, link, tag, named.0);
    assert RewriteTag(target, link, tag).0 == Tag(srcset.0);
    assert forall a :: a in tag.attrs && a != "srcset" ==> srcset.0[a] == named.0[a];
    assert "srcset" in tag.attrs ==> named.0["srcset"] == tag.attrs["srcset"];
  }

  lemma TagValuesHit(target: string -> Option<string>, tag: Tag)
    ensures (exists v :: v in TagValues(tag) && target(v).Some?)
            <==> (exists a :: a in ScannedAttrs && a in tag.attrs && tag.attrs[a] != "" && target(tag.attrs[a]).Some?)
                 || (exists w :: w in SrcsetCandidates(tag) && target(w).Some?)
  {
    var av := AttrValues(tag.attrs, ScannedAttrs);
    assert forall v :: v in TagValues(tag) <==> v in av || v in SrcsetCandidates(tag);
    if exists a :: a in ScannedAttrs && a in tag.attrs && tag.attrs[a] != "" && target(tag.attrs[a]).Some? {
      var a :| a in ScannedAttrs && a in tag.attrs && tag.attrs[a] != "" && target(tag.attrs[a]).Some?;
      var k :| 0 <= k < |ScannedAttrs| && ScannedAttrs[k] == a;
      assert tag.attrs[a] in av;
    }
  }

  /** The tag `RewriteTag` makes. */
  function RewrittenTag(target: string -> Option<string>, link: string -> string, tag: Tag): Tag
    requires target("").None?
  {
    RewriteTag(target, link, tag).0
  }

  /** Every tag of a document rewritten, each by `RewriteTag`: the document
      changes exactly when one of its scanned values designates a saved
      file. */
  function RewriteTags(target: string -> Option<string>, link: string -> string, tags: seq<Tag>): (r: (seq<Tag>, bool))
    requires target("").None?
    ensures |r.0| == |tags|
    ensures r.1 <==> exists v :: v in HtmlValues(tags) && target(v).Some?
    ensures !r.1 ==> r.0 == tags
  {
    if tags == [] then ([], false)
    else
      var (t, c) := RewriteTag(target, link, tags[0]);
      var rest := RewriteTags(target, link, tags[1..]);
      assert forall v :: v in HtmlValues(tags) <==> v in TagValues(tags[0]) || v in HtmlValues(tags[1..]);
      ([t] + rest.0, c || rest.1)
  }

  /** Each tag `RewriteTags` gives is its tag as `RewriteTag` makes it. */
  lemma {:induction false} RewriteTagsEach(target: string -> Option<string>, link: string -> string, tags: seq<Tag>)
    requires target("").None?
    ensures var r := RewriteTags(target, link, tags).0;
      forall i :: 0 <= i < |r| ==> r[i] == RewrittenTag(target, link, tags[i])
  {
    if tags != [] {
      RewriteTagsEach(target, link, tags[1..]);
      var r := RewriteTags(target, link, tags).0;
      var rest := RewriteTags(target, link, tags[1..]).0;
      assert r == [RewrittenTag(target, link, tags[0])] + rest;
      forall i | 0 < i < |r| ensures r[i] == RewrittenTag(target, link, tags[i]) {
        assert r[i] == rest[i - 1] && tags[i] == tags[1..][i - 1];
      }
    }
  }

  /** The values of every tag are among the document's. */
  lemma {:induction false} TagValueInHtml(tags: seq<Tag>, i: nat, v: string)
    requires i < |tags| && v in TagValues(tags[i])
    ensures v in HtmlValues(tags)
  {
    assert HtmlValues(tags) == TagValues(tags[0]) + HtmlValues(tags[1..]);
    if i > 0 {
      assert tags[1..][i - 1] == tags[i];
      TagValueInHtml(tags[1..], i - 1, v);
    }
  }

  /** A `url(...)` match designating a saved file becomes the text
      `url('<link>')`; any other piece is kept. */
  function RewritePiece(target: string -> Option<string>, link: string -> string, p: CssPiece): (r: CssPiece)
    ensures p.Text? ==> r == p
    ensures p.UrlCall? && target(CssValue(p.inner)).None? ==> r == p
    ensures p.UrlCall? && target(CssValue(p.inner)).Some?
            ==> r == Text("url('" + link(target(CssValue(p.inner)).value) + "')")
  {
    match p
    case Text(_) => p
    case UrlCall(_, inner) =>
      var t := target(CssValue(inner));
      if t.Some? then Text("url('" + link(t.value) + "')") else p
  }

  /** Every piece of a stylesheet rewritten, in place. */
  function RewritePieces(target: string -> Option<string>, link: string -> string, pieces: seq<CssPiece>)
    : (r: seq<CssPiece>)
    ensures |r| == |pieces|
    ensures forall j :: 0 <= j < |r| ==> r[j] == RewritePiece(target, link, pieces[j])
  {
    if pieces == [] then []
    else [RewritePiece(target, link, pieces[0])] + RewritePieces(target, link, pieces[1..])
  }

  /** Nothing changes in a stylesheet none of whose matches designates a
      saved file. */
  lemma {:induction false} PiecesKept(target: string -> Option<string>, link: string -> string, pieces: seq<CssPiece>)
    requires forall v :: v in CssValues(pieces) ==> target(v).None?
    ensures RewritePieces(target, link, pieces) == pieces
  {
    if pieces != [] {
      assert forall v :: v in CssValues(pieces[1..]) ==> v in CssValues(pieces);
      PiecesKept(target, link, pieces[1..]);
      if pieces[0].UrlCall? {
        assert CssValue(pieces[0].inner) in CssValues(pieces);
      }
    }
  }

  /** What rewriting makes of a saved file: nothing, the rewritten tags of
      an HTML document (serialising them is the parser's business), or the
      new text of a stylesheet. */
  datatype Rewritten = Unchanged | HtmlTags(tags: seq<Tag>) | CssText(text: string)

  lemma EmptyHasNoTarget(ctx: Context)
    ensures LocalTarget(ctx, "").None?
    ensures TargetIn(ctx)("").None?
  {
    assert Strip("") == "";
  }

  /** `_rewrite_for_offline` on a file that exists: an HTML file is
      rewritten exactly when one of its scanned values designates a saved
      file, and then becomes its tags each rewritten by `RewriteTag`; a
      stylesheet's text afterwards is always its pieces rewritten by
      `RewritePiece`, written only when it differs; any other file is never
      touched. */
  function RewriteForOffline(ctx: Context, body: seq<byte>, mime: string, parser: Parser): (r: Rewritten)
    ensures IsHtmlMime(mime) ==> (r.HtmlTags? <==> exists v :: v in Candidates(body, mime, parser) && LocalTarget(ctx, v).Some?)
    ensures IsHtmlMime(mime) ==> !r.CssText?
    ensures r.HtmlTags? ==> |r.tags| == |parser.html(body)|
    ensures r.HtmlTags? ==> forall i :: 0 <= i < |r.tags| ==>
      r.tags[i] == RewrittenTag(TargetIn(ctx), LinkIn(ctx), parser.html(body)[i])
    ensures !IsHtmlMime(mime) && !IsCssMime(mime) ==> r == Unchanged
    ensures r.CssText? ==> r.text != RenderCss(parser.css(body))
    ensures r.CssText? ==> r.text == RenderCss(RewritePieces(TargetIn(ctx), LinkIn(ctx), parser.css(body)))
    ensures !IsHtmlMime(mime) && IsCssMime(mime) && r == Unchanged
            ==> RenderCss(RewritePieces(TargetIn(ctx), LinkIn(ctx), parser.css(body))) == RenderCss(parser.css(body))
    ensures !IsHtmlMime(mime) && (forall v :: v in Candidates(body, mime, parser) ==> LocalTarget(ctx, v).None?) ==> r == Unchanged
  {
    var target := TargetIn(ctx);
    var link := LinkIn(ctx);
    EmptyHasNoTarget(ctx);
    if IsHtmlMime(mime) then
      var (tags, changed) := RewriteTags(target, link, parser.html(body));
      RewriteTagsEach(target, link, parser.html(body));
      if changed then HtmlTags(tags) else Unchanged
    else if IsCssMime(mime) then
      var text := RenderCss(parser.css(body));
      var rewritten := RenderCss(RewritePieces(target, link, parser.css(body)));
      assert (forall v :: v in CssValues(parser.css(body)) ==> target(v).None?) ==> rewritten == text by {
        if forall v :: v in CssValues(parser.css(body)) ==> target(v).None? {
          PiecesKept(target, link, parser.css(body));
        }
      }
      if rewritten != text then CssText(rewritten) else Unchanged
    else Unchanged
  }

  /** Following a rewritten link from the directory of the rewriting file
      leads to the local path of the file it designates, when that path is
      made of proper segments (as `LocalPath` guarantees). */
  lemma LinkArrives(ctx: Context, local: string)
    requires AllSegments(SplitOn(local, '/'))
    ensures var parts := SplitOn(ctx.fileLocal, '/');
      Walk(parts[..|parts| - 1], SplitOn(LinkTo(ctx, local), '/')) == SplitOn(local, '/')
  {
    RelativeLinkArrives(ctx.fileLocal, local);
  }

  /** A scanned attribute whose value designates a saved file holds the
      link to it once its tag is rewritten. */
  lemma TagLink(ctx: Context, tag: Tag, a: string, l: string)
    requires a in ScannedAttrs && a in tag.attrs
    requires LocalTarget(ctx, tag.attrs[a]) == Some(l)
    ensures TargetIn(ctx)("").None?
    ensures var t := RewrittenTag(TargetIn(ctx), LinkIn(ctx), tag); a in t.attrs && t.attrs[a] == LinkTo(ctx, l)
  {
    EmptyHasNoTarget(ctx);
    RewriteTagValues(TargetIn(ctx), LinkIn(ctx), tag);
  }

  /** An HTML document one of whose scanned attribute values designates a
      saved file is rewritten. */
  lemma HtmlHit(ctx: Context, body: seq<byte>, mime: string, parser: Parser, i: nat, a: string)
    requires IsHtmlMime(mime)
    requires i < |parser.html(body)|
    requires a in ScannedAttrs && a in parser.html(body)[i].attrs
    requires LocalTarget(ctx, parser.html(body)[i].attrs[a]).Some?
    ensures RewriteForOffline(ctx, body, mime, parser).HtmlTags?
  {
    var tags := parser.html(body);
    var v := tags[i].attrs[a];
    var k :| 0 <= k < |ScannedAttrs| && ScannedAttrs[k] == a;
    assert v in AttrValues(tags[i].attrs, ScannedAttrs);
    TagValueInHtml(tags, i, v);
  }

  /** An attribute of an HTML document whose value designates a saved file
      now holds the link to it, which leads from the rewriting file's
      folder to that file's local path. */
  lemma OfflineAttrLink(ctx: Context, body: seq<byte>, mime: string, parser: Parser, i: nat, a: string, l: string)
    requires IsHtmlMime(mime)
    requires i < |parser.html(body)|
    requires a in ScannedAttrs && a in parser.html(body)[i].attrs
    requires LocalTarget(ctx, parser.html(body)[i].attrs[a]) == Some(l)
    requires AllSegments(SplitOn(l, '/'))
    ensures var r := RewriteForOffline(ctx, body, mime, parser);
      var parts := SplitOn(ctx.fileLocal, '/');
      r.HtmlTags? && i < |r.tags| && a in r.tags[i].attrs && r.tags[i].attrs[a] == LinkTo(ctx, l)
      && Walk(parts[..|parts| - 1], SplitOn(r.tags[i].attrs[a], '/')) == SplitOn(l, '/')
  {
    HtmlHit(ctx, body, mime, parser, i, a);
    TagLink(ctx, parser.html(body)[i], a, l);
    LinkArrives(ctx, l);
  }

  /** A `url(...)` of a stylesheet whose value designates a saved file is
      written `url('<link>')` in the stylesheet's text afterwards, with the
      link leading from the rewriting file's folder to that file. */
  lemma OfflineCssLink(ctx: Context, body: seq<byte>, parser: Parser, j: nat, l: string)
    requires j < |parser.css(body)| && parser.css(body)[j].UrlCall?
    requires LocalTarget(ctx, CssValue(parser.css(body)[j].inner)) == Some(l)
    requires AllSegments(SplitOn(l, '/'))
    ensures var after := RewritePieces(TargetIn(ctx), LinkIn(ctx), parser.css(body));
      var parts := SplitOn(ctx.fileLocal, '/');
      j < |after| && RenderPiece(after[j]) == "url('" + LinkTo(ctx, l) + "')"
      && Walk(parts[..|parts| - 1], SplitOn(LinkTo(ctx, l), '/')) == SplitOn(l, '/')
  {
    var p := parser.css(body)[j];
    assert TargetIn(ctx)(CssValue(p.inner)) == Some(l);
    assert LinkIn(ctx)(l) == LinkTo(ctx, l);
    assert RewritePieces(TargetIn(ctx), LinkIn(ctx), parser.css(body))[j] == RewritePiece(TargetIn(ctx), LinkIn(ctx), p);
    LinkArrives(ctx, l);
  }
}
