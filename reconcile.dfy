/** Working on a finished download: `audit` compares the saved files with the
    capture index, `download_missing` fetches what the index lists and the
    manifest lacks, and `_resolve_output_dir` finds the folder both work on.
    The disk is a value: the folders holding a `manifest.json`, each with its
    manifest, and the sizes of the regular files under them. */
module Reconcile {
  import opened Common
  import opened Seqs
  import opened Lex
  import opened Urls
  import opened Variants
  import opened Upstream
  import opened Listing
  import opened Inventory
  import opened Archive
  import opened LocalPaths
  import opened Crawl
  import opened Manifests

  // ---------------------------------------------------------------------
  // _resolve_output_dir

  /** The `slug_*` folders right under `root` that hold a manifest, by name. */
  function SlugMatches(manifests: set<Path>, root: Path, slug: string): set<string> {
    set d | d in manifests && |d| == |root| + 1 && d[..|root|] == root && StartsWith(d[|root|], slug + "_") :: d[|root|]
  }

  /** Where `_resolve_output_dir` looks, in order: the `slug_chosen` folder
      under `root`; `root` itself; the `slug_chosen` folder beside `root`
      when `root` is a `slug_` folder; the greatest-named `slug_` folder
      with a manifest under `root`; otherwise the `slug_chosen` folder under
      `root`, manifest or not. */
  ghost predicate ResolvesTo(manifests: set<Path>, root: Path, slug: string, chosen: string, r: Path) {
    var direct := root + [slug + "_" + chosen];
    var sibling := Parent(root) + [slug + "_" + chosen];
    var matches := SlugMatches(manifests, root, slug);
    if direct in manifests then r == direct
    else if root in manifests then r == root
    else if StartsWith(Name(root), slug + "_") && sibling in manifests then r == sibling
    else if matches != {} then exists n :: n in matches && r == root + [n] && forall m :: m in matches ==> Le(m, n)
    else r == direct
  }

  /** The folder is determined: two answers that both fit are the same. */
  lemma ResolvesToUnique(manifests: set<Path>, root: Path, slug: string, chosen: string, r1: Path, r2: Path)
    requires ResolvesTo(manifests, root, slug, chosen, r1) && ResolvesTo(manifests, root, slug, chosen, r2)
    ensures r1 == r2
  {
    var direct := root + [slug + "_" + chosen];
    var sibling := Parent(root) + [slug + "_" + chosen];
    var matches := SlugMatches(manifests, root, slug);
    if !(direct in manifests) && !(root in manifests) && !(StartsWith(Name(root), slug + "_") && sibling in manifests)
       && matches != {} {
      var n1 :| n1 in matches && r1 == root + [n1] && forall m :: m in matches ==> Le(m, n1);
      var n2 :| n2 in matches && r2 == root + [n2] && forall m :: m in matches ==> Le(m, n2);
      if n1 != n2 {
        assert Lt(n1, n2) && Lt(n2, n1);
        LtAsymmetric(n1, n2);
      }
    }
  }

  /** The folder found holds a manifest unless it is the `slug_chosen`
      folder under `root`; and the glob step never picks that folder, so its
      exact-name branch never decides anything. */
  lemma ResolvedFolder(manifests: set<Path>, root: Path, slug: string, chosen: string, r: Path)
    requires ResolvesTo(manifests, root, slug, chosen, r)
    ensures r in manifests || r == root + [slug + "_" + chosen]
    ensures r != root + [slug + "_" + chosen] ==> r in manifests
    ensures r !in manifests ==> SlugMatches(manifests, root, slug) == {} && root !in manifests
  {
    var direct := root + [slug + "_" + chosen];
    var sibling := Parent(root) + [slug + "_" + chosen];
    var matches := SlugMatches(manifests, root, slug);
    if direct !in manifests && root !in manifests && !(StartsWith(Name(root), slug + "_") && sibling in manifests)
       && matches != {} {
      var n :| n in matches && r == root + [n] && forall m :: m in matches ==> Le(m, n);
      MatchedFolder(manifests, root, slug, n);
    }
  }

  /** A name among the matches is a folder under `root` with a manifest. */
  lemma MatchedFolder(manifests: set<Path>, root: Path, slug: string, n: string)
    requires n in SlugMatches(manifests, root, slug)
    ensures root + [n] in manifests
  {
    var d :| d in manifests && |d| == |root| + 1 && d[..|root|] == root && StartsWith(d[|root|], slug + "_") && d[|root|] == n;
    assert d == root + [n];
  }

  /** `_resolve_output_dir`, with the glob as the sorted list of matching
      folder names. */
  method ResolveOutputDir(manifests: set<Path>, root: Path, slug: string, chosen: string) returns (r: Path)
    ensures ResolvesTo(manifests, root, slug, chosen, r)
  {
    var direct := root + [slug + "_" + chosen];
    if direct in manifests {
      return direct;
    }
    if root in manifests {
      return root;
    }
    if StartsWith(Name(root), slug + "_") {
      var sibling := Parent(root) + [slug + "_" + chosen];
      if sibling in manifests {
        return sibling;
      }
    }
    var matches := SortStrings(SlugMatches(manifests, root, slug));
    if matches != [] {
      var exact := Filter(matches, (n: string) => n == slug + "_" + chosen);
      if exact != [] {
        r := root + [exact[|exact| - 1]];
      } else {
        r := root + [matches[|matches| - 1]];
      }
      GreatestLast(matches, SlugMatches(manifests, root, slug));
      NoExactMatch(manifests, root, slug, chosen, matches, exact);
      return;
    }
    r := direct;
  }

  /** The last of a sorted list is at least every element. */
  lemma GreatestLast(xs: seq<string>, s: set<string>)
    requires xs != [] && StrictlyAscending(xs) && forall x :: x in xs <==> x in s
    ensures xs[|xs| - 1] in s && forall m :: m in s ==> Le(m, xs[|xs| - 1])
  {
    forall m | m in s ensures Le(m, xs[|xs| - 1]) {
      var i :| 0 <= i < |xs| && xs[i] == m;
    }
  }

  /** With no manifest in the `slug_chosen` folder, no match has its name. */
  lemma NoExactMatch(manifests: set<Path>, root: Path, slug: string, chosen: string, matches: seq<string>,
                     exact: seq<string>)
    requires root + [slug + "_" + chosen] !in manifests
    requires forall x :: x in matches <==> x in SlugMatches(manifests, root, slug)
    requires exact == Filter(matches, (n: string) => n == slug + "_" + chosen)
    ensures exact == []
  {
    if exact != [] {
      FilterMembership(matches, (n: string) => n == slug + "_" + chosen, exact[0]);
      MatchedFolder(manifests, root, slug, exact[0]);
      assert false;
    }
  }

  // ---------------------------------------------------------------------
  // What audit and download_missing settle first

  /** The target, the snapshot worked on, the variants' hosts and wildcard
      patterns, and the folder holding the manifest. */
  datatype Located = Located(target: Url, chosen: string, hosts: set<string>, wildcards: seq<string>, dir: Path)

  /** The hosts of the variants of a target. */
  ghost function HostsOf(t: Url): set<string> { set h | h in HostVariants(Lower(t.netloc)) }

  /** The snapshots with status 200 over the variants of a target. */
  ghost function OkSnapshots(archive: Upstream.Archive, t: Url): seq<string> {
    SortSet(ListedUnion(archive, UrlVariants(t), true, MergeCaps(20000)))
  }

  /** The opening shared by `audit` and `download_missing`: the target is
      normalised, the snapshots merged, the snapshot chosen, and the folder
      with the manifest found, or the error raised. */
  method Locate(tool: ArchiveTool, manifests: set<Path>, rawTarget: string, root: Path, selected: Option<string>, now: int)
    returns (r: Result<Located, Failure>)
    requires tool.Valid()
    modifies tool
    ensures tool.Valid() && tool.cdxCache == old(tool.cdxCache)
    ensures NormalizeTarget(rawTarget).Err? ==> r == Err(NormalizeTarget(rawTarget).error)
    ensures NormalizeTarget(rawTarget).Ok? && OkSnapshots(tool.archive, NormalizeTarget(rawTarget).value) == [] ==>
              r == Err(NoArchivedSnapshots)
    ensures NormalizeTarget(rawTarget).Ok? && OkSnapshots(tool.archive, NormalizeTarget(rawTarget).value) != [] ==>
      var t := NormalizeTarget(rawTarget).value;
      var chosen := ChooseSnapshot(selected, OkSnapshots(tool.archive, t));
      && (r.Ok? ==> && r.value.target == t && r.value.chosen == chosen && r.value.hosts == HostsOf(t)
                    && r.value.wildcards == Map(UrlVariants(t), WildcardUrl) && r.value.dir in manifests
                    && ResolvesTo(manifests, root, SafeName(t.netloc), chosen, r.value.dir))
      && (r.Err? ==> && r.error.ManifestNotFound? && r.error.dir !in manifests
                     && ResolvesTo(manifests, root, SafeName(t.netloc), chosen, r.error.dir))
  {
    var normalized := NormalizeTarget(rawTarget);
    if normalized.Err? {
      return Err(normalized.error);
    }
    var t := normalized.value;
    var ok, hosts, wildcards := MergeForTarget(tool, t, now);
    if ok == [] {
      return Err(NoArchivedSnapshots);
    }
    var chosen := ChooseSnapshot(selected, ok);
    var dir := ResolveOutputDir(manifests, root, SafeName(t.netloc), chosen);
    if dir !in manifests {
      return Err(ManifestNotFound(dir));
    }
    r := Ok(Located(t, chosen, hosts, wildcards, dir));
  }

  /** `_merge_variant_snapshots` as `audit` and `download_missing` use it:
      the status-200 snapshots, the hosts of the variants and their wildcard
      patterns. */
  method MergeForTarget(tool: ArchiveTool, t: Url, now: int) returns (ok: seq<string>, hosts: set<string>, wildcards: seq<string>)
    requires tool.Valid()
    modifies tool
    ensures tool.Valid() && tool.cdxCache == old(tool.cdxCache)
    ensures ok == OkSnapshots(tool.archive, t) && hosts == HostsOf(t) && wildcards == Map(UrlVariants(t), WildcardUrl)
  {
    var m := tool.MergeVariantSnapshots(t, 20000, now);
    ok := m.ok;
    hosts := set v | v in m.variants :: v.url.netloc;
    VariantHosts(t, m.variants);
    var urls := Map(m.variants, VariantUrl);
    VariantUrls(m.variants, UrlVariants(t));
    wildcards := Map(urls, WildcardUrl);
  }

  // ---------------------------------------------------------------------
  // audit

  /** The cleaned URLs of the manifest's entries that have a URL. */
  function DownloadedUrls(unparse: Url -> string, files: seq<ManifestItem>): set<string> {
    set item | item in files && item.Entry? && item.url != "" :: unparse(CleanUrl(Parse(item.url)))
  }

  /** The cleaned URLs of the complete index rows with an allowed host. */
  function ExpectedUrls(unparse: Url -> string, rows: seq<seq<string>>, hosts: set<string>): set<string> {
    set row | row in rows && Eligible(row, hosts) :: unparse(CleanUrl(Parse(row[1])))
  }

  /** The three sorted lists of `audit`. */
  datatype Comparison = Comparison(have: seq<string>, missing: seq<string>, extra: seq<string>)

  /** The sorted URLs present and expected, expected only, and present
      only: they split the expected and the present URLs without overlap. */
  method Compare(expected: set<string>, downloaded: set<string>) returns (c: Comparison)
    ensures StrictlyAscending(c.have) && StrictlyAscending(c.missing) && StrictlyAscending(c.extra)
    ensures forall u :: u in c.have <==> u in expected && u in downloaded
    ensures forall u :: u in c.missing <==> u in expected && u !in downloaded
    ensures forall u :: u in c.extra <==> u in downloaded && u !in expected
    ensures |c.have| + |c.missing| == |expected| && |c.have| + |c.extra| == |downloaded|
    ensures |c.have| == |expected * downloaded|
  {
    assert downloaded * expected == expected * downloaded;
    var have := SortStrings(expected * downloaded);
    var missing := SortStrings(expected - downloaded);
    var extra := SortStrings(downloaded - expected);
    AscendingCard(have, expected * downloaded);
    AscendingCard(missing, expected - downloaded);
    AscendingCard(extra, downloaded - expected);
    SplitCard(expected, downloaded);
    SplitCard(downloaded, expected);
    c := Comparison(have, missing, extra);
  }

  lemma SplitCard(a: set<string>, b: set<string>)
    ensures |a * b| + |a - b| == |a|
  {
    assert a == (a * b) + (a - b);
    assert (a * b) !! (a - b);
  }

  /** A strictly ascending list of a set's elements is as long as the set. */
  lemma {:induction false} AscendingCard(xs: seq<string>, s: set<string>)
    requires StrictlyAscending(xs) && forall x :: x in xs <==> x in s
    ensures |xs| == |s|
    decreases |xs|
  {
    if xs != [] {
      var rest := xs[1..];
      assert forall x :: x in rest <==> x in s - {xs[0]} by {
        forall x ensures x in rest <==> x in s - {xs[0]} {
          if x in rest {
            var i :| 0 <= i < |rest| && rest[i] == x;
            assert Lt(xs[0], xs[i + 1]);
            LtIrreflexive(x);
          }
          if x in s - {xs[0]} {
            var i :| 0 <= i < |xs| && xs[i] == x;
            assert rest[i - 1] == x;
          }
        }
      }
      AscendingCard(rest, s - {xs[0]});
    }
  }

  /** The summed sizes of the manifest's files that exist on disk. */
  function SizeSum(sizes: map<(Path, string), nat>, dir: Path, files: seq<ManifestItem>): nat {
    if files == [] then 0
    else
      var item := files[|files| - 1];
      SizeSum(sizes, dir, files[..|files| - 1])
        + (if item.Entry? && item.localPath != "" && (dir, item.localPath) in sizes then sizes[(dir, item.localPath)] else 0)
  }

  /** The size loop of `audit`. */
  method DownloadedBytes(sizes: map<(Path, string), nat>, dir: Path, files: seq<ManifestItem>) returns (total: nat)
    ensures total == SizeSum(sizes, dir, files)
  {
    total := 0;
    for i := 0 to |files|
      invariant total == SizeSum(sizes, dir, files[..i])
    {
      assert files[..i + 1][..i] == files[..i];
      var item := files[i];
      if !item.Entry? {
        continue;
      }
      if item.localPath == "" {
        continue;
      }
      if (dir, item.localPath) in sizes {
        total := total + sizes[(dir, item.localPath)];
      }
    }
    assert files[..|files|] == files;
  }

  /** The report of `audit`; the URL lists are cut to 300, 500 and 200. */
  datatype AuditReport = AuditReport(
    target: Url, snapshot: string, outputDir: Path, expectedCount: nat, downloadedCount: nat,
    haveCount: nat, missingCount: nat, extraCount: nat, coverage: real, downloadedBytes: nat,
    haveUrls: seq<string>, missingUrls: seq<string>, extraUrls: seq<string>)

  /** The figures of an audit, given the expected and the present URLs. */
  ghost predicate AuditFigures(a: AuditReport, expected: set<string>, downloaded: set<string>) {
    && a.expectedCount == |expected| && a.downloadedCount == |downloaded|
    && a.haveCount + a.missingCount == a.expectedCount && a.haveCount + a.extraCount == a.downloadedCount
    && a.haveCount == |expected * downloaded|
    && a.coverage == Coverage(expected, downloaded) && 0.0 <= a.coverage <= 100.0
    && a.haveUrls == Take(SortSet(expected * downloaded), 300)
    && a.missingUrls == Take(SortSet(expected - downloaded), 500)
    && a.extraUrls == Take(SortSet(downloaded - expected), 200)
  }

  /** `audit`: how much of what the capture index lists up to the chosen
      snapshot the saved manifest holds, and how many bytes its files take. */
  method Audit(tool: ArchiveTool, env: Env, disk: Disk, rawTarget: string, root: Path, selected: Option<string>, now: int)
    returns (r: Result<AuditReport, Failure>)
    requires tool.Valid()
    modifies tool
    ensures tool.Valid()
    ensures NormalizeTarget(rawTarget).Err? ==> r == Err(NormalizeTarget(rawTarget).error)
    ensures NormalizeTarget(rawTarget).Ok? && OkSnapshots(tool.archive, NormalizeTarget(rawTarget).value) == [] ==>
              r == Err(NoArchivedSnapshots)
    ensures NormalizeTarget(rawTarget).Ok? && OkSnapshots(tool.archive, NormalizeTarget(rawTarget).value) != [] ==>
      var t := NormalizeTarget(rawTarget).value;
      var chosen := ChooseSnapshot(selected, OkSnapshots(tool.archive, t));
      exists dir :: && ResolvesTo(disk.manifests.Keys, root, SafeName(t.netloc), chosen, dir)
                    && (dir !in disk.manifests ==> r == Err(ManifestNotFound(dir)))
                    && (dir in disk.manifests ==> r.Ok? && r.value.outputDir == dir)
    ensures r.Ok? ==>
      var a := r.value;
      var t := NormalizeTarget(rawTarget).value;
      && NormalizeTarget(rawTarget).Ok? && a.target == t && OkSnapshots(tool.archive, t) != []
      && a.snapshot == ChooseSnapshot(selected, OkSnapshots(tool.archive, t))
      && a.outputDir in disk.manifests
      && ResolvesTo(disk.manifests.Keys, root, SafeName(t.netloc), a.snapshot, a.outputDir)
      && AuditFigures(a,
                      ExpectedUrls(env.unparse,
                                   CollectedRows(tool.archive, Map(UrlVariants(t), WildcardUrl), a.snapshot, 60000),
                                   HostsOf(t)),
                      DownloadedUrls(env.unparse, disk.manifests[a.outputDir].files))
      && a.downloadedBytes == SizeSum(disk.sizes, a.outputDir, disk.manifests[a.outputDir].files)
  {
    var located := Locate(tool, disk.manifests.Keys, rawTarget, root, selected, now);
    if located.Err? {
      return Err(located.error);
    }
    var a := Survey(tool, env, disk, located.value, now);
    r := Ok(a);
  }

  /** The body of `audit` once the manifest is found. */
  method Survey(tool: ArchiveTool, env: Env, disk: Disk, loc: Located, now: int) returns (a: AuditReport)
    requires tool.Valid() && loc.dir in disk.manifests
    modifies tool
    ensures tool.Valid()
    ensures a.target == loc.target && a.snapshot == loc.chosen && a.outputDir == loc.dir
    ensures AuditFigures(a, ExpectedUrls(env.unparse, CollectedRows(tool.archive, loc.wildcards, loc.chosen, 60000), loc.hosts),
                         DownloadedUrls(env.unparse, disk.manifests[loc.dir].files))
    ensures a.downloadedBytes == SizeSum(disk.sizes, loc.dir, disk.manifests[loc.dir].files)
  {
    var files := disk.manifests[loc.dir].files;
    var downloaded := DownloadedUrls(env.unparse, files);
    var rows := tool.CollectCdxRows(loc.wildcards, loc.chosen, 60000, now);
    var expected := ExpectedUrls(env.unparse, rows, loc.hosts);
    var bytes := DownloadedBytes(disk.sizes, loc.dir, files);
    a := Tally(loc.target, loc.chosen, loc.dir, bytes, expected, downloaded);
  }

  /** The figures of `audit` from the expected and the present URLs. */
  method Tally(target: Url, snapshot: string, dir: Path, bytes: nat, expected: set<string>, downloaded: set<string>)
    returns (a: AuditReport)
    ensures a.target == target && a.snapshot == snapshot && a.outputDir == dir && a.downloadedBytes == bytes
    ensures AuditFigures(a, expected, downloaded)
  {
    var c := Compare(expected, downloaded);
    SortSetCanonical(c.have, expected * downloaded);
    SortSetCanonical(c.missing, expected - downloaded);
    SortSetCanonical(c.extra, downloaded - expected);
    CoverageBounds(expected, downloaded);
    a := AuditReport(target, snapshot, dir, |expected|, |downloaded|, |c.have|, |c.missing|, |c.extra|,
                     Coverage(expected, downloaded), bytes, Take(c.have, 300), Take(c.missing, 500), Take(c.extra, 200));
  }

  /** The key of a manifest entry: its URL, cleaned. */
  function ItemKey(unparse: Url -> string, url: string): string { unparse(CleanUrl(Parse(url))) }

  /** `existing_map`: every entry with a URL, under its cleaned URL; a later
      entry for the same URL replaces the earlier one in its place. */
  function Existing(unparse: Url -> string, items: seq<ManifestItem>): Table {
    if items == [] then []
    else
      var t := Existing(unparse, items[..|items| - 1]);
      var item := items[|items| - 1];
      if item.Entry? && item.url != "" then Put(t, ItemKey(unparse, item.url), item) else t
  }

  lemma DownloadedSnoc(unparse: Url -> string, init: seq<ManifestItem>, item: ManifestItem)
    ensures DownloadedUrls(unparse, init + [item])
         == DownloadedUrls(unparse, init)
          + (if item.Entry? && item.url != "" then {ItemKey(unparse, item.url)} else {})
  {
    var items := init + [item];
    forall x | x in items ensures x in init || x == item { }
  }

  /** The dict holds one entry per URL, and its keys are exactly the URLs
      `audit` counts as downloaded. */
  lemma {:induction false} ExistingKeys(unparse: Url -> string, items: seq<ManifestItem>)
    ensures DistinctKeys(Existing(unparse, items))
    ensures TableKeys(Existing(unparse, items)) == DownloadedUrls(unparse, items)
  {
    if items != [] {
      var init := items[..|items| - 1];
      var item := items[|items| - 1];
      ExistingKeys(unparse, init);
      assert items == init + [item];
      DownloadedSnoc(unparse, init, item);
      if item.Entry? && item.url != "" {
        PutDistinct(Existing(unparse, init), ItemKey(unparse, item.url), item);
      }
    }
  }

  /** The manifest loop of `download_missing`. */
  method BuildExisting(unparse: Url -> string, items: seq<ManifestItem>) returns (t: Table)
    ensures t == Existing(unparse, items)
  {
    t := [];
    for i := 0 to |items|
      invariant t == Existing(unparse, items[..i])
    {
      assert items[..i + 1][..i] == items[..i];
      var item := items[i];
      if item.Entry? && item.url != "" {
        t := Put(t, ItemKey(unparse, item.url), item);
      }
    }
    assert items[..|items|] == items;
  }

  // ---------------------------------------------------------------------
  // download_missing: the plan

  /** `expected_urls`: the cleaned URL of every complete index row with an
      allowed host, in row order, repeats kept. */
  function ExpectedList(unparse: Url -> string, rows: seq<seq<string>>, hosts: set<string>): seq<string> {
    if rows == [] then []
    else (if Eligible(rows[0], hosts) then [unparse(CleanUrl(Parse(rows[0][1])))] else [])
         + ExpectedList(unparse, rows[1..], hosts)
  }

  /** The list holds exactly the URLs `audit` expects. */
  lemma {:induction false} ExpectedListMembers(unparse: Url -> string, rows: seq<seq<string>>, hosts: set<string>)
    ensures forall u :: u in ExpectedList(unparse, rows, hosts) <==> u in ExpectedUrls(unparse, rows, hosts)
  {
    if rows != [] {
      ExpectedListMembers(unparse, rows[1..], hosts);
      assert rows == [rows[0]] + rows[1..];
      assert ExpectedUrls(unparse, rows, hosts)
          == (if Eligible(rows[0], hosts) then {unparse(CleanUrl(Parse(rows[0][1])))} else {})
           + ExpectedUrls(unparse, rows[1..], hosts);
    }
  }

  // ---------------------------------------------------------------------
  // download_missing: the repair loop

  /** Where a target's file is written: `_local_path_for` on its URL. */
  function LocalFor(env: Env): (string, string) -> string {
    (u: string, mime: string) => LocalPath(Parse(u), mime, env.digest)
  }

  /** What `_download_with_repair` gives for a target URL against the
      chosen snapshot. */
  ghost function Fetched(archive: Upstream.Archive, u: string, chosen: string): Option<Capture> {
    var url := Parse(u);
    FirstCapture(archive, url, RepairCandidates(chosen, KnownTimestamps(archive.captures(url))))
  }

  /** `Fetched` for every target, as one function value. */
  ghost function FetchOf(archive: Upstream.Archive, chosen: string): string -> Option<Capture> {
    u => Fetched(archive, u, chosen)
  }

  /** One round of the loop: the target is fetched and recorded. */
  method RepairStep(tool: ArchiveTool, env: Env, writable: string -> bool, skipErrors: bool, dir: Path,
                    chosen: string, cur: Repair, u: string, now: int) returns (next: Result<Repair, Failure>)
    requires tool.Valid()
    modifies tool
    ensures tool.Valid()
    ensures next == RepairOne(LocalFor(env), writable, skipErrors, dir, chosen, cur, u, FetchOf(tool.archive, chosen)(u))
  {
    var got := tool.DownloadWithRepair(Parse(u), chosen, now);
    next := RepairOne(LocalFor(env), writable, skipErrors, dir, chosen, cur, u, got);
  }

  /** The loop of `download_missing`, proved to follow `Repaired`. */
  method RepairLoop(tool: ArchiveTool, env: Env, writable: string -> bool, skipErrors: bool, dir: Path,
                    chosen: string, s: Repair, targets: seq<string>, now: int) returns (r: Result<Repair, Failure>)
    requires tool.Valid()
    modifies tool
    ensures tool.Valid()
    ensures r == Repaired(FetchOf(tool.archive, chosen), LocalFor(env), writable, skipErrors, dir, chosen, s, targets)
  {
    var cur := s;
    var i := 0;
    while i < |targets|
      invariant 0 <= i <= |targets| && tool.Valid()
      invariant Repaired(FetchOf(tool.archive, chosen), LocalFor(env), writable, skipErrors, dir, chosen, s, targets[..i]) == Ok(cur)
    {
      var next := RepairStep(tool, env, writable, skipErrors, dir, chosen, cur, targets[i], now);
      RepairedNext(FetchOf(tool.archive, chosen), LocalFor(env), writable, skipErrors, dir, chosen, s, targets, i, cur);
      if next.Err? {
        RepairedErrSticky(FetchOf(tool.archive, chosen), LocalFor(env), writable, skipErrors, dir, chosen, s, targets, i + 1);
        return next;
      }
      cur := next.value;
      i := i + 1;
    }
    assert targets[..|targets|] == targets;
    r := Ok(cur);
  }


  // ---------------------------------------------------------------------
  // download_missing

  /** `max(1, limit)`: how many missing URLs one call tries. */
  function PlanCap(limit: int): (r: nat)
    ensures r >= 1 && r >= limit && (r == 1 || r == limit)
  {
    if limit < 1 then 1 else limit
  }

  /** The targets of `download_missing` for a folder: the first
      `max(1, limit)` URLs of the plan. */
  ghost function Targets(archive: Upstream.Archive, env: Env, files: seq<ManifestItem>, loc: Located, limit: int)
    : seq<string>
  {
    var expected := ExpectedList(env.unparse, CollectedRows(archive, loc.wildcards, loc.chosen, 70000), loc.hosts);
    Take(MissingPlan(expected, TableKeys(Existing(env.unparse, files))), PlanCap(limit))
  }

  /** What `download_missing` returns: the folder and the figures it also
      records in the manifest as `last_missing_repair`. */
  datatype RepairReport = RepairReport(outputDir: Path, stats: RepairStats)

  /** The outcome of `download_missing` once the folder is found: the loop
      runs over the targets from the manifest's dict; a raised error leaves
      every manifest as it was; otherwise the folder's manifest gets the
      dict's values as `files`, their number as `files_downloaded`, the
      recovered count added to `files_recovered`, and the figures. */
  ghost predicate Mended(archive: Upstream.Archive, env: Env, writable: string -> bool, skipErrors: bool, disk: Disk,
                         loc: Located, limit: int, r: Result<RepairReport, Failure>, disk': Disk)
    requires loc.dir in disk.manifests
  {
    var m := disk.manifests[loc.dir];
    var targets := Targets(archive, env, m.files, loc, limit);
    var start := Repair(Existing(env.unparse, m.files), 0, 0, 0, 0, disk.sizes);
    var out := Repaired(FetchOf(archive, loc.chosen), LocalFor(env), writable, skipErrors, loc.dir, loc.chosen,
                        start, targets);
    if out.Err? then r == Err(out.error) && disk'.manifests == disk.manifests
    else
      var stats := StatsOf(loc.chosen, |targets|, out.value);
      r == Ok(RepairReport(loc.dir, stats)) && disk' == Rewritten(disk, loc.dir, stats, out.value)
  }

  /** The figures of `last_missing_repair`. */
  function StatsOf(chosen: string, attempted: nat, s: Repair): RepairStats {
    RepairStats(chosen, attempted, s.added, s.failed, s.recovered, s.bytesAdded)
  }

  /** The disk once the folder's manifest is rewritten from the loop's dict. */
  function Rewritten(disk: Disk, dir: Path, stats: RepairStats, s: Repair): Disk
    requires dir in disk.manifests
  {
    var m := disk.manifests[dir];
    Disk(disk.manifests[dir := Manifest(Values(s.table), |s.table|, m.filesRecovered + s.recovered, Some(stats))],
         s.sizes)
  }

  /** `download_missing`: the shared opening, then the dict, the plan, the
      loop and the manifest rewrite. */
  method DownloadMissing(tool: ArchiveTool, env: Env, disk: Disk, rawTarget: string, root: Path,
                         selected: Option<string>, limit: int, skipErrors: bool, writable: string -> bool, now: int)
    returns (r: Result<RepairReport, Failure>, disk': Disk)
    requires tool.Valid()
    modifies tool
    ensures tool.Valid()
    ensures NormalizeTarget(rawTarget).Err? ==> r == Err(NormalizeTarget(rawTarget).error) && disk' == disk
    ensures NormalizeTarget(rawTarget).Ok? && OkSnapshots(tool.archive, NormalizeTarget(rawTarget).value) == [] ==>
              r == Err(NoArchivedSnapshots) && disk' == disk
    ensures NormalizeTarget(rawTarget).Ok? && OkSnapshots(tool.archive, NormalizeTarget(rawTarget).value) != [] ==>
      var t := NormalizeTarget(rawTarget).value;
      var chosen := ChooseSnapshot(selected, OkSnapshots(tool.archive, t));
      exists dir :: && ResolvesTo(disk.manifests.Keys, root, SafeName(t.netloc), chosen, dir)
                    && (dir !in disk.manifests ==> r == Err(ManifestNotFound(dir)) && disk' == disk)
                    && (dir in disk.manifests ==>
                          Mended(tool.archive, env, writable, skipErrors, disk,
                                 Located(t, chosen, HostsOf(t), Map(UrlVariants(t), WildcardUrl), dir), limit, r, disk'))
  {
    disk' := disk;
    var located := Locate(tool, disk.manifests.Keys, rawTarget, root, selected, now);
    if located.Err? {
      return Err(located.error), disk;
    }
    r, disk' := Mend(tool, env, disk, located.value, limit, skipErrors, writable, now);
  }

  /** The body of `download_missing` once the manifest is found. */
  method Mend(tool: ArchiveTool, env: Env, disk: Disk, loc: Located, limit: int, skipErrors: bool,
              writable: string -> bool, now: int) returns (r: Result<RepairReport, Failure>, disk': Disk)
    requires tool.Valid() && loc.dir in disk.manifests
    modifies tool
    ensures tool.Valid()
    ensures Mended(tool.archive, env, writable, skipErrors, disk, loc, limit, r, disk')
  {
    var m := disk.manifests[loc.dir];
    var table, targets := PlanTargets(tool, env, m.files, loc, limit, now);
    var out := RepairLoop(tool, env, writable, skipErrors, loc.dir, loc.chosen, Repair(table, 0, 0, 0, 0, disk.sizes),
                          targets, now);
    if out.Err? {
      return Err(out.error), disk;
    }
    var stats := StatsOf(loc.chosen, |targets|, out.value);
    r := Ok(RepairReport(loc.dir, stats));
    disk' := Rewritten(disk, loc.dir, stats, out.value);
  }

  /** The dict and the targets of `download_missing`. */
  method PlanTargets(tool: ArchiveTool, env: Env, files: seq<ManifestItem>, loc: Located, limit: int, now: int)
    returns (table: Table, targets: seq<string>)
    requires tool.Valid()
    modifies tool
    ensures tool.Valid()
    ensures table == Existing(env.unparse, files) && targets == Targets(tool.archive, env, files, loc, limit)
  {
    table := BuildExisting(env.unparse, files);
    var rows := tool.CollectCdxRows(loc.wildcards, loc.chosen, 70000, now);
    var expected := ExpectedList(env.unparse, rows, loc.hosts);
    targets := Take(MissingPlan(expected, TableKeys(table)), PlanCap(limit));
  }

  /** The targets are distinct URLs the index expects and the manifest
      lacks, at most `max(1, limit)` of them; a missing URL is left out only
      when that cap is reached. */
  lemma TargetsMissing(archive: Upstream.Archive, env: Env, files: seq<ManifestItem>, loc: Located, limit: int)
    ensures var targets := Targets(archive, env, files, loc, limit);
            var expected := ExpectedUrls(env.unparse, CollectedRows(archive, loc.wildcards, loc.chosen, 70000), loc.hosts);
            var have := DownloadedUrls(env.unparse, files);
      && NoDup(targets) && |targets| <= PlanCap(limit)
      && (forall u :: u in targets ==> u in expected && u !in have)
      && (forall u :: u in expected && u !in have && u !in targets ==> |targets| == PlanCap(limit))
  {
    var rows := CollectedRows(archive, loc.wildcards, loc.chosen, 70000);
    var list := ExpectedList(env.unparse, rows, loc.hosts);
    var table := Existing(env.unparse, files);
    ExistingKeys(env.unparse, files);
    ExpectedListMembers(env.unparse, rows, loc.hosts);
    CappedPlan(list, TableKeys(table), PlanCap(limit));
  }

  /** What a finished `download_missing` reports and records: every target
      is added or failed, recovered files are among the added ones,
      `files_downloaded` is the number of URLs the manifest held plus the
      added files, `files_recovered` grows by the recovered ones, and no
      other folder's manifest changes. */
  lemma MendedBooks(archive: Upstream.Archive, env: Env, writable: string -> bool, skipErrors: bool, disk: Disk,
                    loc: Located, limit: int, r: Result<RepairReport, Failure>, disk': Disk)
    requires loc.dir in disk.manifests
    requires Mended(archive, env, writable, skipErrors, disk, loc, limit, r, disk') && r.Ok?
    ensures var st := r.value.stats;
      && r.value.outputDir == loc.dir && st.snapshot == loc.chosen
      && st.added + st.failed == st.attempted && st.attempted <= PlanCap(limit)
      && st.recovered <= st.added
      && loc.dir in disk'.manifests
      && disk'.manifests[loc.dir].filesDownloaded
         == |DownloadedUrls(env.unparse, disk.manifests[loc.dir].files)| + st.added
      && |disk'.manifests[loc.dir].files| == disk'.manifests[loc.dir].filesDownloaded
      && disk'.manifests[loc.dir].filesRecovered == disk.manifests[loc.dir].filesRecovered + st.recovered
      && disk'.manifests[loc.dir].lastRepair == Some(st)
      && disk'.manifests.Keys == disk.manifests.Keys
      && forall d :: d in disk.manifests && d != loc.dir ==> disk'.manifests[d] == disk.manifests[d]
  {
    var m := disk.manifests[loc.dir];
    var table := Existing(env.unparse, m.files);
    var targets := Targets(archive, env, m.files, loc, limit);
    var start := Repair(table, 0, 0, 0, 0, disk.sizes);
    var fetch := FetchOf(archive, loc.chosen);
    var out := Repaired(fetch, LocalFor(env), writable, skipErrors, loc.dir, loc.chosen, start, targets);
    assert out.Ok?;
    var st := StatsOf(loc.chosen, |targets|, out.value);
    assert r.value == RepairReport(loc.dir, st);
    assert disk' == Rewritten(disk, loc.dir, st, out.value);
    ExistingKeys(env.unparse, m.files);
    DistinctKeysCard(table);
    assert |DownloadedUrls(env.unparse, m.files)| == |table|;
    TargetsMissing(archive, env, m.files, loc, limit);
    RepairedAccounts(fetch, LocalFor(env), writable, skipErrors, loc.dir, loc.chosen, start, targets);
    RecoveredAmongStored(fetch, LocalFor(env), writable, loc.chosen, targets);
    assert |out.value.table| == |table| + st.added;
    RewrittenShape(disk, loc.dir, st, out.value);
  }

  /** Rewriting one folder's manifest touches no other folder. */
  lemma RewrittenShape(disk: Disk, dir: Path, stats: RepairStats, s: Repair)
    requires dir in disk.manifests
    ensures var d' := Rewritten(disk, dir, stats, s);
      && dir in d'.manifests
      && d'.manifests[dir].filesDownloaded == |s.table| == |d'.manifests[dir].files|
      && d'.manifests[dir].filesRecovered == disk.manifests[dir].filesRecovered + s.recovered
      && d'.manifests[dir].lastRepair == Some(stats)
      && d'.manifests.Keys == disk.manifests.Keys
      && forall d :: d in disk.manifests && d != dir ==> d'.manifests[d] == disk.manifests[d]
  {
  }

  /** With `skip_errors` a finished folder always yields a report; without
      it, the only error is a file that could not be written. */
  lemma MendedRaises(archive: Upstream.Archive, env: Env, writable: string -> bool, skipErrors: bool, disk: Disk,
                     loc: Located, limit: int, r: Result<RepairReport, Failure>, disk': Disk)
    requires loc.dir in disk.manifests
    requires Mended(archive, env, writable, skipErrors, disk, loc, limit, r, disk')
    ensures skipErrors ==> r.Ok?
    ensures r.Err? ==> r.error.WriteFailed? && disk'.manifests == disk.manifests
  {
    var m := disk.manifests[loc.dir];
    var targets := Targets(archive, env, m.files, loc, limit);
    RepairedRaises(FetchOf(archive, loc.chosen), LocalFor(env), writable, skipErrors, loc.dir, loc.chosen,
                   Repair(Existing(env.unparse, m.files), 0, 0, 0, 0, disk.sizes), targets);
  }

  // ---------------------------------------------------------------------
  // download_missing: what a second call finds

  /** An entry of the dict sits under its own cleaned URL. */
  predicate KeyedEntry(unparse: Url -> string, e: (string, ManifestItem)) {
    e.1.Entry? && e.1.url != "" && ItemKey(unparse, e.1.url) == e.0
  }

  predicate KeyedEntries(unparse: Url -> string, t: Table) {
    forall e :: e in t ==> KeyedEntry(unparse, e)
  }

  /** The dict built from a manifest files every entry under its cleaned URL. */
  lemma {:induction false} ExistingKeyed(unparse: Url -> string, items: seq<ManifestItem>)
    ensures KeyedEntries(unparse, Existing(unparse, items))
  {
    if items != [] {
      var init := items[..|items| - 1];
      var item := items[|items| - 1];
      ExistingKeyed(unparse, init);
      if item.Entry? && item.url != "" {
        PutMembers(Existing(unparse, init), ItemKey(unparse, item.url), item);
      }
    }
  }

  /** When every target is a non-empty URL that cleans to itself, the loop
      files every entry it adds under its own cleaned URL too. */
  lemma {:induction false} RepairedKeyed(fetch: string -> Option<Capture>, localOf: (string, string) -> string,
                                         writable: string -> bool, skipErrors: bool, dir: Path, chosen: string,
                                         unparse: Url -> string, s: Repair, us: seq<string>)
    requires KeyedEntries(unparse, s.table)
    requires forall u :: u in us ==> u != "" && ItemKey(unparse, u) == u
    ensures var out := Repaired(fetch, localOf, writable, skipErrors, dir, chosen, s, us);
      out.Ok? ==> KeyedEntries(unparse, out.value.table)
    decreases |us|
  {
    if us != [] {
      var init := us[..|us| - 1];
      var u := us[|us| - 1];
      assert forall x :: x in init ==> x in us;
      RepairedKeyed(fetch, localOf, writable, skipErrors, dir, chosen, unparse, s, init);
      var before := Repaired(fetch, localOf, writable, skipErrors, dir, chosen, s, init);
      if before.Ok? {
        var out := RepairOne(localOf, writable, skipErrors, dir, chosen, before.value, u, fetch(u));
        assert Repaired(fetch, localOf, writable, skipErrors, dir, chosen, s, us) == out;
        RepairOneTable(localOf, writable, skipErrors, dir, chosen, before.value, u, fetch(u));
        if out.Ok? && out.value.table != before.value.table {
          var got := fetch(u).value;
          var entry := (u, Entry(u, localOf(u, got.mime), got.mime, got.timestamp));
          PutMembers(before.value.table, u, entry.1);
          assert u in us && KeyedEntry(unparse, entry);
        }
      }
    }
  }

  /** For such a dict the URLs `audit` counts among its values are its keys. */
  lemma DownloadedValues(unparse: Url -> string, t: Table)
    requires KeyedEntries(unparse, t)
    ensures DownloadedUrls(unparse, Values(t)) == TableKeys(t)
  {
    ValuesAt(t);
    forall x | x in DownloadedUrls(unparse, Values(t)) ensures x in TableKeys(t) {
      var item :| item in Values(t) && item.Entry? && item.url != "" && x == ItemKey(unparse, item.url);
      var i :| 0 <= i < |Values(t)| && Values(t)[i] == item;
      assert t[i] in t;
    }
    forall k | k in TableKeys(t) ensures k in DownloadedUrls(unparse, Values(t)) {
      var e :| e in t && e.0 == k;
      var i :| 0 <= i < |t| && t[i] == e;
      assert KeyedEntry(unparse, e);
      assert Values(t)[i] in Values(t);
    }
  }

  /** A dict that starts with a keyed dict lists all of its URLs among its values. */
  lemma PrefixKept(unparse: Url -> string, t0: Table, t: Table)
    requires KeyedEntries(unparse, t0) && |t0| <= |t| && t[..|t0|] == t0
    ensures TableKeys(t0) <= DownloadedUrls(unparse, Values(t))
  {
    ValuesAt(t);
    forall k | k in TableKeys(t0) ensures k in DownloadedUrls(unparse, Values(t)) {
      var e :| e in t0 && e.0 == k;
      var i :| 0 <= i < |t0| && t0[i] == e;
      assert KeyedEntry(unparse, e);
      assert t[i] == e;
      assert Values(t)[i] in Values(t);
    }
  }

  /** A finished `download_missing` keeps every URL the folder's manifest
      listed, so the coverage `audit` reports against any expected URLs
      never drops. */
  lemma MendedKeeps(archive: Upstream.Archive, env: Env, writable: string -> bool, skipErrors: bool, disk: Disk,
                    loc: Located, limit: int, r: Result<RepairReport, Failure>, disk': Disk, expected: set<string>)
    requires loc.dir in disk.manifests
    requires Mended(archive, env, writable, skipErrors, disk, loc, limit, r, disk') && r.Ok?
    ensures loc.dir in disk'.manifests
    ensures DownloadedUrls(env.unparse, disk.manifests[loc.dir].files)
         <= DownloadedUrls(env.unparse, disk'.manifests[loc.dir].files)
    ensures Coverage(expected, DownloadedUrls(env.unparse, disk.manifests[loc.dir].files))
         <= Coverage(expected, DownloadedUrls(env.unparse, disk'.manifests[loc.dir].files))
  {
    var m := disk.manifests[loc.dir];
    var table := Existing(env.unparse, m.files);
    var targets := Targets(archive, env, m.files, loc, limit);
    var start := Repair(table, 0, 0, 0, 0, disk.sizes);
    var fetch := FetchOf(archive, loc.chosen);
    var out := Repaired(fetch, LocalFor(env), writable, skipErrors, loc.dir, loc.chosen, start, targets);
    assert out.Ok?;
    var st := StatsOf(loc.chosen, |targets|, out.value);
    assert disk' == Rewritten(disk, loc.dir, st, out.value);
    var t := out.value.table;
    ExistingKeys(env.unparse, m.files);
    ExistingKeyed(env.unparse, m.files);
    TargetsMissing(archive, env, m.files, loc, limit);
    RepairedAccounts(fetch, LocalFor(env), writable, skipErrors, loc.dir, loc.chosen, start, targets);
    PrefixKept(env.unparse, table, t);
    CoverageMonotone(expected, DownloadedUrls(env.unparse, m.files), DownloadedUrls(env.unparse, Values(t)));
  }

  /** Whether `max(1, limit)` reaches every URL the plan names for the folder. */
  ghost predicate CapCovers(archive: Upstream.Archive, env: Env, files: seq<ManifestItem>, loc: Located, limit: int) {
    var expected := ExpectedList(env.unparse, CollectedRows(archive, loc.wildcards, loc.chosen, 70000), loc.hosts);
    |MissingPlan(expected, DownloadedUrls(env.unparse, files))| <= PlanCap(limit)
  }

  /** When the cap reaches the whole plan, every expected URL the manifest
      lacks is a target. */
  lemma CoveredTargets(archive: Upstream.Archive, env: Env, files: seq<ManifestItem>, loc: Located, limit: int)
    requires CapCovers(archive, env, files, loc, limit)
    ensures var expected := ExpectedUrls(env.unparse, CollectedRows(archive, loc.wildcards, loc.chosen, 70000), loc.hosts);
      forall u :: u in expected && u !in DownloadedUrls(env.unparse, files) ==> u in Targets(archive, env, files, loc, limit)
  {
    var rows := CollectedRows(archive, loc.wildcards, loc.chosen, 70000);
    var list := ExpectedList(env.unparse, rows, loc.hosts);
    ExistingKeys(env.unparse, files);
    ExpectedListMembers(env.unparse, rows, loc.hosts);
    MissingPlanMembers(list, DownloadedUrls(env.unparse, files));
  }

  /** What a finished `download_missing` leaves in the folder's manifest:
      the URLs it listed and the targets whose files were saved, when every
      expected URL is a non-empty URL that cleans to itself. */
  lemma MendedLeaves(archive: Upstream.Archive, env: Env, writable: string -> bool, skipErrors: bool, disk: Disk,
                     loc: Located, limit: int, r: Result<RepairReport, Failure>, disk': Disk)
    requires loc.dir in disk.manifests
    requires Mended(archive, env, writable, skipErrors, disk, loc, limit, r, disk') && r.Ok?
    requires forall u :: u in ExpectedUrls(env.unparse, CollectedRows(archive, loc.wildcards, loc.chosen, 70000), loc.hosts)
                         ==> u != "" && ItemKey(env.unparse, u) == u
    ensures loc.dir in disk'.manifests
    ensures var files := disk.manifests[loc.dir].files;
      DownloadedUrls(env.unparse, disk'.manifests[loc.dir].files)
      == DownloadedUrls(env.unparse, files)
       + StoredSet(FetchOf(archive, loc.chosen), LocalFor(env), writable, Targets(archive, env, files, loc, limit))
  {
    var m := disk.manifests[loc.dir];
    var table := Existing(env.unparse, m.files);
    var targets := Targets(archive, env, m.files, loc, limit);
    var start := Repair(table, 0, 0, 0, 0, disk.sizes);
    var fetch := FetchOf(archive, loc.chosen);
    var out := Repaired(fetch, LocalFor(env), writable, skipErrors, loc.dir, loc.chosen, start, targets);
    assert out.Ok?;
    var st := StatsOf(loc.chosen, |targets|, out.value);
    assert disk' == Rewritten(disk, loc.dir, st, out.value);
    ExistingKeys(env.unparse, m.files);
    ExistingKeyed(env.unparse, m.files);
    TargetsMissing(archive, env, m.files, loc, limit);
    RepairedAccounts(fetch, LocalFor(env), writable, skipErrors, loc.dir, loc.chosen, start, targets);
    RepairedKeyed(fetch, LocalFor(env), writable, skipErrors, loc.dir, loc.chosen, env.unparse, start, targets);
    DownloadedValues(env.unparse, out.value.table);
  }

  /** A finished `download_missing` adds one file per target whose capture
      was found and could be written. */
  lemma MendedAdds(archive: Upstream.Archive, env: Env, writable: string -> bool, skipErrors: bool, disk: Disk,
                   loc: Located, limit: int, r: Result<RepairReport, Failure>, disk': Disk)
    requires loc.dir in disk.manifests
    requires Mended(archive, env, writable, skipErrors, disk, loc, limit, r, disk') && r.Ok?
    ensures var targets := Targets(archive, env, disk.manifests[loc.dir].files, loc, limit);
      r.value.stats.added == CountWhere(targets, StoredP(FetchOf(archive, loc.chosen), LocalFor(env), writable))
  {
    var m := disk.manifests[loc.dir];
    var table := Existing(env.unparse, m.files);
    var targets := Targets(archive, env, m.files, loc, limit);
    var start := Repair(table, 0, 0, 0, 0, disk.sizes);
    var fetch := FetchOf(archive, loc.chosen);
    var out := Repaired(fetch, LocalFor(env), writable, skipErrors, loc.dir, loc.chosen, start, targets);
    assert out.Ok?;
    assert r.value.stats.added == out.value.added;
    ExistingKeys(env.unparse, m.files);
    TargetsMissing(archive, env, m.files, loc, limit);
    RepairedAccounts(fetch, LocalFor(env), writable, skipErrors, loc.dir, loc.chosen, start, targets);
  }

  /** Repairing again changes nothing: once a `download_missing` whose cap
      reached every missing URL has finished, a second one on the same
      archive, folder and writable files adds no file, because the URLs
      still missing are exactly those whose capture was not found or could
      not be written. It holds when every expected URL is a non-empty URL
      that cleans to itself. */
  lemma MendedAgain(archive: Upstream.Archive, env: Env, writable: string -> bool, skipErrors: bool, disk: Disk,
                    loc: Located, limit: int, r: Result<RepairReport, Failure>, disk': Disk,
                    skipErrors2: bool, limit2: int, r2: Result<RepairReport, Failure>, disk'': Disk)
    requires loc.dir in disk.manifests
    requires Mended(archive, env, writable, skipErrors, disk, loc, limit, r, disk') && r.Ok?
    requires CapCovers(archive, env, disk.manifests[loc.dir].files, loc, limit)
    requires forall u :: u in ExpectedUrls(env.unparse, CollectedRows(archive, loc.wildcards, loc.chosen, 70000), loc.hosts)
                         ==> u != "" && ItemKey(env.unparse, u) == u
    requires loc.dir in disk'.manifests
    requires Mended(archive, env, writable, skipErrors2, disk', loc, limit2, r2, disk'') && r2.Ok?
    ensures r2.value.stats.added == 0
  {
    var files := disk.manifests[loc.dir].files;
    var files' := disk'.manifests[loc.dir].files;
    var expected := ExpectedUrls(env.unparse, CollectedRows(archive, loc.wildcards, loc.chosen, 70000), loc.hosts);
    var fetch := FetchOf(archive, loc.chosen);
    var targets := Targets(archive, env, files, loc, limit);
    var targets' := Targets(archive, env, files', loc, limit2);
    MendedLeaves(archive, env, writable, skipErrors, disk, loc, limit, r, disk');
    CoveredTargets(archive, env, files, loc, limit);
    TargetsMissing(archive, env, files', loc, limit2);
    MendedAdds(archive, env, writable, skipErrors2, disk', loc, limit2, r2, disk'');
    forall i | 0 <= i < |targets'| ensures !StoredP(fetch, LocalFor(env), writable)(targets'[i]) {
      var u := targets'[i];
      assert u in targets';
      assert u in targets && u !in StoredSet(fetch, LocalFor(env), writable, targets);
    }
    CountWhereNone(targets', StoredP(fetch, LocalFor(env), writable));
  }
}
