/** The bounded crawl of `ArchiveWebTool.run`: the snapshot is chosen, the
    capture index ranks the site's URLs, and a queue seeded with the target
    and the best-ranked URLs is worked through until it is empty or the
    file budget is spent, links found in downloaded pages and stylesheets
    joining the queue while there is room; then the best-ranked URLs not
    yet tried top the budget up. Files are written into a map from local
    path to content. */
module Crawl {
  import opened Common
  import opened Seqs
  import opened Lex
  import opened Urls
  import opened Variants
  import opened Upstream
  import opened Listing
  import opened Inventory
  import opened Archive
  import opened LocalPaths
  import opened Rewriter

  /** `FileRecord`: one saved file of the manifest. */
  datatype FileRecord = FileRecord(url: Url, localPath: string, mime: string, timestamp: string)

  /** What the crawl leaves to libraries: parsing, reference resolution,
      the SHA-1 digest of a query string, `urlunparse`, and the serialisers
      of a rewritten page and of rewritten stylesheet text. */
  datatype Env = Env(parser: Parser, join: (Url, string) -> Url, digest: string -> HexString,
                     unparse: Url -> string, renderHtml: seq<Tag> -> seq<byte>, encode: string -> seq<byte>)

  /** The locals of the crawl: the queue, the URLs tried (`seen`), the
      files in the order they were saved, the URLs that yielded nothing,
      and what was written. */
  datatype Progress = Progress(queue: seq<Url>, seen: set<Url>, files: seq<FileRecord>, missing: seq<Url>,
                               saved: map<string, seq<byte>>)

  // ---------------------------------------------------------------------
  // Seeds and admission to the queue

  /** How many ranked URLs join the target in the first queue. */
  function SeedCount(maxFiles: int): (r: nat)
    ensures 50 <= r <= 2000
  {
    Max(50, Min(maxFiles * 2, 2000))
  }

  /** The first queue: the target, then the best-ranked URLs, each once. */
  function Seeds(normalized: Url, prioritized: seq<Url>, maxFiles: int): seq<Url> {
    Dedup([normalized] + Take(prioritized, SeedCount(maxFiles)))
  }

  /** The first queue starts with the target, holds nothing twice, and
      holds exactly the target and the first `SeedCount` ranked URLs. */
  lemma SeedsSpec(normalized: Url, prioritized: seq<Url>, maxFiles: int)
    ensures var s := Seeds(normalized, prioritized, maxFiles);
      && NoDup(s) && s != [] && s[0] == normalized
      && forall u :: u in s <==> u == normalized || u in Take(prioritized, SeedCount(maxFiles))
  {
    var t := Take(prioritized, SeedCount(maxFiles));
    var xs := [normalized] + t;
    DedupHead(xs);
    forall u ensures u in xs <==> u == normalized || u in t {
      if u in xs && u != normalized {
        var k :| 0 <= k < |xs| && xs[k] == u;
        assert xs[k] == t[k - 1];
      }
      if u in t {
        var k :| 0 <= k < |t| && t[k] == u;
        assert xs[k + 1] == u;
      }
    }
  }

  /** The links of one page that join the queue: in order, while the files
      and the queue leave `room`, those with an allowed host not tried yet. */
  function Admitted(links: seq<Url>, room: int, allowed: set<string>, seen: set<Url>): (r: seq<Url>)
    ensures |r| <= Max(room, 0)
    ensures forall k :: 0 <= k < |r| ==> r[k] in links && r[k].netloc in allowed && r[k] !in seen
  {
    if links == [] || room <= 0 then []
    else if links[0].netloc in allowed && links[0] !in seen then
      [links[0]] + Admitted(links[1..], room - 1, allowed, seen)
    else Admitted(links[1..], room, allowed, seen)
  }

  /** One link of the loop: queued when allowed and untried, skipped otherwise. */
  lemma AdmittedStep(links: seq<Url>, i: nat, room: int, allowed: set<string>, seen: set<Url>)
    requires i < |links| && room > 0
    ensures Admitted(links[i..], room, allowed, seen)
            == if links[i].netloc in allowed && links[i] !in seen
               then [links[i]] + Admitted(links[i + 1..], room - 1, allowed, seen)
               else Admitted(links[i + 1..], room, allowed, seen)
  {
    assert links[i..][0] == links[i] && links[i..][1..] == links[i + 1..];
  }

  /** The progress once the admitted links are queued behind the waiting ones. */
  function Offered(p: Progress, links: seq<Url>, allowed: set<string>, maxFiles: int): Progress {
    p.(queue := p.queue + Admitted(links, maxFiles - |p.files| - |p.queue|, allowed, p.seen))
  }

  /** The loop over the discovered links in `run`: stops once the files and
      the queue fill the budget, queues the allowed, untried ones. */
  method Enqueue(p: Progress, links: seq<Url>, allowed: set<string>, maxFiles: int) returns (p': Progress)
    ensures p' == Offered(p, links, allowed, maxFiles)
  {
    var q := p.queue;
    var i := 0;
    ghost var room := maxFiles - |p.files| - |p.queue|;
    ghost var total := p.queue + Admitted(links, room, allowed, p.seen);
    while i < |links|
      invariant 0 <= i <= |links|
      invariant room == maxFiles - |p.files| - |q|
      invariant q + Admitted(links[i..], room, allowed, p.seen) == total
    {
      if |p.files| + |q| >= maxFiles {
        break;
      }
      AdmittedStep(links, i, room, allowed, p.seen);
      if links[i].netloc in allowed && links[i] !in p.seen {
        ConcatAssoc(q, [links[i]], Admitted(links[i + 1..], room - 1, allowed, p.seen));
        q := q + [links[i]];
        room := room - 1;
      }
      i := i + 1;
    }
    assert i == |links| ==> links[i..] == [];
    p' := p.(queue := q);
  }

  // ---------------------------------------------------------------------
  // What the crawl keeps true

  /** Where the crawl may go: clean URLs that are the target or have an
      allowed host. */
  predicate InScope(u: Url, target: Url, allowed: set<string>) {
    IsClean(u) && (u == target || u.netloc in allowed)
  }

  /** The URLs of the files (the keys of the `files` dict). */
  function UrlSet(files: seq<FileRecord>): (r: set<Url>)
    ensures forall k :: 0 <= k < |files| ==> files[k].url in r
  {
    if files == [] then {} else UrlSet(files[..|files| - 1]) + {files[|files| - 1].url}
  }

  /** The local paths written. */
  function Paths(files: seq<FileRecord>): (r: set<string>)
    ensures forall k :: 0 <= k < |files| ==> files[k].localPath in r
  {
    if files == [] then {} else Paths(files[..|files| - 1]) + {files[|files| - 1].localPath}
  }

  predicate DistinctUrls(files: seq<FileRecord>) {
    forall i, j :: 0 <= i < j < |files| ==> files[i].url != files[j].url
  }

  /** A saved file: under the local path `localOf` gives its URL and type,
      captured no later than the snapshot. */
  predicate FileOk(f: FileRecord, latest: string, localOf: (Url, string) -> string) {
    f.localPath == localOf(f.url, f.mime) && (f.timestamp == latest || Lt(f.timestamp, latest))
  }

  /** The files: one per URL, each saved where `localOf` says and captured
      no later than the snapshot; what was written is exactly their local
      paths. */
  ghost predicate FilesGood(p: Progress, latest: string, localOf: (Url, string) -> string) {
    && DistinctUrls(p.files)
    && (forall k :: 0 <= k < |p.files| ==> FileOk(p.files[k], latest, localOf))
    && p.saved.Keys == Paths(p.files)
  }

  /** Every URL tried was tried once, and it either gave a file or is
      listed missing; the URLs tried stay in scope. */
  ghost predicate SeenGood(p: Progress, target: Url, allowed: set<string>) {
    && NoDup(p.missing)
    && (forall k :: 0 <= k < |p.missing| ==> p.missing[k] !in UrlSet(p.files))
    && (forall u :: u in p.seen <==> u in UrlSet(p.files) || u in p.missing)
    && (forall u :: u in p.seen ==> InScope(u, target, allowed))
  }

  predicate QueueGood(queue: seq<Url>, target: Url, allowed: set<string>) {
    forall k :: 0 <= k < |queue| ==> InScope(queue[k], target, allowed)
  }

  /** The crawl invariant: files, tried URLs and queue as above. */
  ghost predicate Good(p: Progress, target: Url, allowed: set<string>, latest: string, localOf: (Url, string) -> string) {
    FilesGood(p, latest, localOf) && SeenGood(p, target, allowed) && QueueGood(p.queue, target, allowed)
  }

  lemma GoodStart(seeds: seq<Url>, target: Url, allowed: set<string>, latest: string, localOf: (Url, string) -> string)
    requires forall k :: 0 <= k < |seeds| ==> InScope(seeds[k], target, allowed)
    ensures Good(Progress(seeds, {}, [], [], map[]), target, allowed, latest, localOf)
  {
  }

  /** The bookkeeping after one URL was tried: it joins `seen`, and its
      capture, if any, is saved under `localOf` of its URL and type, or
      else the URL is missing. */
  function Record(p: Progress, u: Url, got: Option<Capture>, localOf: (Url, string) -> string): Progress {
    if got.None? then p.(seen := p.seen + {u}, missing := p.missing + [u])
    else
      var local := localOf(u, got.value.mime);
      p.(seen := p.seen + {u}, files := p.files + [FileRecord(u, local, got.value.mime, got.value.timestamp)],
         saved := p.saved[local := got.value.body])
  }

  /** Trying a URL marks it tried, appends a file exactly when a capture
      came back and leaves the queue alone. */
  lemma RecordShape(p: Progress, u: Url, got: Option<Capture>, localOf: (Url, string) -> string)
    ensures var r := Record(p, u, got, localOf);
      && r.queue == p.queue && r.seen == p.seen + {u} && r.files[..|p.files|] == p.files
      && |r.files| == if got.Some? then |p.files| + 1 else |p.files|
  {
    var r := Record(p, u, got, localOf);
    assert r.files[..|p.files|] == p.files;
  }

  /** Trying a URL not tried before keeps the crawl invariant, provided the
      capture is no later than the snapshot. */
  lemma RecordGood(p: Progress, u: Url, got: Option<Capture>, target: Url, allowed: set<string>, latest: string,
                   localOf: (Url, string) -> string)
    requires Good(p, target, allowed, latest, localOf)
    requires u !in p.seen && InScope(u, target, allowed)
    requires got.Some? ==> got.value.timestamp == latest || Lt(got.value.timestamp, latest)
    ensures Good(Record(p, u, got, localOf), target, allowed, latest, localOf)
  {
    if got.Some? {
      var c := got.value;
      SavedGood(p, FileRecord(u, localOf(u, c.mime), c.mime, c.timestamp), c.body, target, allowed, latest, localOf);
    } else {
      MissingGood(p, u, target, allowed, latest, localOf);
    }
  }

  lemma MissingGood(p: Progress, u: Url, target: Url, allowed: set<string>, latest: string, localOf: (Url, string) -> string)
    requires Good(p, target, allowed, latest, localOf)
    requires u !in p.seen && InScope(u, target, allowed)
    ensures Good(p.(seen := p.seen + {u}, missing := p.missing + [u]), target, allowed, latest, localOf)
  {
    var m := p.missing + [u];
    assert forall k :: 0 <= k < |m| ==> m[k] == (if k < |p.missing| then p.missing[k] else u);
  }

  lemma SavedGood(p: Progress, f: FileRecord, body: seq<byte>, target: Url, allowed: set<string>, latest: string,
                  localOf: (Url, string) -> string)
    requires Good(p, target, allowed, latest, localOf)
    requires f.url !in p.seen && InScope(f.url, target, allowed) && FileOk(f, latest, localOf)
    ensures Good(p.(seen := p.seen + {f.url}, files := p.files + [f], saved := p.saved[f.localPath := body]),
                 target, allowed, latest, localOf)
  {
    SnocSets(p.files, f);
    SavedFilesGood(p, f, body, latest, localOf);
    SavedSeenGood(p, f, target, allowed);
  }

  lemma SnocSets(files: seq<FileRecord>, f: FileRecord)
    ensures UrlSet(files + [f]) == UrlSet(files) + {f.url}
    ensures Paths(files + [f]) == Paths(files) + {f.localPath}
  {
    assert (files + [f])[..|files|] == files;
  }

  lemma SnocDistinct(files: seq<FileRecord>, f: FileRecord)
    requires DistinctUrls(files) && f.url !in UrlSet(files)
    ensures DistinctUrls(files + [f])
  {
    var fs := files + [f];
    forall i, j | 0 <= i < j < |fs| ensures fs[i].url != fs[j].url {
      assert fs[i] == files[i];
      if j < |files| {
        assert fs[j] == files[j];
      }
    }
  }

  lemma SavedFilesGood(p: Progress, f: FileRecord, body: seq<byte>, latest: string, localOf: (Url, string) -> string)
    requires FilesGood(p, latest, localOf)
    requires f.url !in UrlSet(p.files) && FileOk(f, latest, localOf)
    requires Paths(p.files + [f]) == Paths(p.files) + {f.localPath}
    ensures FilesGood(p.(files := p.files + [f], saved := p.saved[f.localPath := body]), latest, localOf)
  {
    var fs := p.files + [f];
    SnocDistinct(p.files, f);
    forall k | 0 <= k < |fs| ensures FileOk(fs[k], latest, localOf) {
      if k < |p.files| {
        assert fs[k] == p.files[k];
      }
    }
  }

  lemma SavedSeenGood(p: Progress, f: FileRecord, target: Url, allowed: set<string>)
    requires SeenGood(p, target, allowed)
    requires f.url !in p.seen && InScope(f.url, target, allowed)
    requires UrlSet(p.files + [f]) == UrlSet(p.files) + {f.url}
    ensures SeenGood(p.(seen := p.seen + {f.url}, files := p.files + [f]), target, allowed)
  {
  }

  /** What `_download_with_repair` gives for a URL against the snapshot:
      the first capture among the snapshot and the older known ones. */
  ghost function RepairedCapture(archive: Upstream.Archive, u: Url, latest: string): Option<Capture> {
    FirstCapture(archive, u, RepairCandidates(latest, KnownTimestamps(archive.captures(u))))
  }

  /** One URL tried with `_download_with_repair`. */
  method Attempt(tool: ArchiveTool, localOf: (Url, string) -> string, latest: string, now: int, u: Url, p: Progress,
                 ghost target: Url, ghost allowed: set<string>)
    returns (p': Progress, got: Option<Capture>)
    requires tool.Valid()
    requires Good(p, target, allowed, latest, localOf)
    requires u !in p.seen && InScope(u, target, allowed)
    modifies tool
    ensures tool.Valid()
    ensures Good(p', target, allowed, latest, localOf)
    ensures p' == Record(p, u, got, localOf)
    ensures got == RepairedCapture(tool.archive, u, latest)
    ensures got.Some? ==> got.value.body != []
  {
    got := tool.DownloadWithRepair(u, latest, now);
    p' := Record(p, u, got, localOf);
    RecordGood(p, u, got, target, allowed, latest, localOf);
  }

  // ---------------------------------------------------------------------
  // The two loops

  /** One round of the queue loop as the archive answers it: the head of
      the queue is taken off and cleaned; unless tried already, it gets its
      repaired capture, which is saved or listed missing, and the links
      discovered in a saved file are offered to the queue. */
  ghost function StepOf(archive: Upstream.Archive, env: Env, localOf: (Url, string) -> string, latest: string,
                        p: Progress, maxFiles: int, allowed: set<string>): Progress
    requires p.queue != []
  {
    var current := CleanUrl(p.queue[0]);
    var q := p.(queue := p.queue[1..]);
    if current in q.seen then q
    else
      var got := RepairedCapture(archive, current, latest);
      var b := Record(q, current, got, localOf);
      if got.Some? then Offered(b, DiscoverLinks(current, got.value.body, got.value.mime, env.parser, env.join), allowed, maxFiles)
      else b
  }

  /** Every round adds a file, or keeps the files and shortens the queue. */
  lemma StepProgress(archive: Upstream.Archive, env: Env, localOf: (Url, string) -> string, latest: string,
                     p: Progress, maxFiles: int, allowed: set<string>)
    requires p.queue != []
    ensures var s := StepOf(archive, env, localOf, latest, p, maxFiles, allowed);
      |s.files| == |p.files| + 1 || (|s.files| == |p.files| && |s.queue| < |p.queue|)
  {
    var current := CleanUrl(p.queue[0]);
    RecordShape(p.(queue := p.queue[1..]), current, RepairedCapture(archive, current, latest), localOf);
  }

  /** The queue loop of `run` as the archive answers it: rounds of
      `StepOf` until the queue is empty or the budget is spent. */
  ghost function CrawlOf(archive: Upstream.Archive, env: Env, localOf: (Url, string) -> string, latest: string,
                         p: Progress, maxFiles: int, allowed: set<string>): Progress
    decreases maxFiles - |p.files|, |p.queue|
  {
    if p.queue == [] || |p.files| >= maxFiles then p
    else
      StepProgress(archive, env, localOf, latest, p, maxFiles, allowed);
      CrawlOf(archive, env, localOf, latest, StepOf(archive, env, localOf, latest, p, maxFiles, allowed), maxFiles, allowed)
  }

  /** A round of the queue loop when the queue is not empty and the budget
      not spent. */
  lemma CrawlOfStep(archive: Upstream.Archive, env: Env, localOf: (Url, string) -> string, latest: string,
                    p: Progress, maxFiles: int, allowed: set<string>)
    requires p.queue != [] && |p.files| < maxFiles
    ensures CrawlOf(archive, env, localOf, latest, p, maxFiles, allowed)
         == CrawlOf(archive, env, localOf, latest, StepOf(archive, env, localOf, latest, p, maxFiles, allowed), maxFiles, allowed)
  {
  }

  /** The files and missing URLs agree with the archive: each file has the
      type and timestamp of its URL's repaired capture, and each missing
      URL has none. */
  ghost predicate Captured(archive: Upstream.Archive, files: seq<FileRecord>, missing: seq<Url>, latest: string) {
    && (forall k :: 0 <= k < |files| ==>
          var c := RepairedCapture(archive, files[k].url, latest);
          c.Some? && c.value.mime == files[k].mime && c.value.timestamp == files[k].timestamp)
    && (forall k :: 0 <= k < |missing| ==> RepairedCapture(archive, missing[k], latest).None?)
  }

  /** Recording a URL's repaired capture keeps the files and missing URLs
      in agreement with the archive. */
  lemma RecordCaptured(archive: Upstream.Archive, p: Progress, u: Url, latest: string, localOf: (Url, string) -> string)
    requires Captured(archive, p.files, p.missing, latest)
    ensures var r := Record(p, u, RepairedCapture(archive, u, latest), localOf);
      Captured(archive, r.files, r.missing, latest)
  {
    var got := RepairedCapture(archive, u, latest);
    if got.Some? {
      var f := FileRecord(u, localOf(u, got.value.mime), got.value.mime, got.value.timestamp);
      forall k | 0 <= k < |p.files| + 1
        ensures var c := RepairedCapture(archive, (p.files + [f])[k].url, latest);
          c.Some? && c.value.mime == (p.files + [f])[k].mime && c.value.timestamp == (p.files + [f])[k].timestamp
      {
        if k < |p.files| {
          assert (p.files + [f])[k] == p.files[k];
        }
      }
    } else {
      assert forall k :: 0 <= k < |p.missing| ==> (p.missing + [u])[k] == p.missing[k];
    }
  }

  /** One round keeps the files and missing URLs in agreement with the archive. */
  lemma StepCaptured(archive: Upstream.Archive, env: Env, localOf: (Url, string) -> string, latest: string,
                     p: Progress, maxFiles: int, allowed: set<string>)
    requires p.queue != [] && Captured(archive, p.files, p.missing, latest)
    ensures var s := StepOf(archive, env, localOf, latest, p, maxFiles, allowed);
      Captured(archive, s.files, s.missing, latest)
  {
    RecordCaptured(archive, p.(queue := p.queue[1..]), CleanUrl(p.queue[0]), latest, localOf);
  }

  /** The whole queue loop keeps them in agreement. */
  lemma {:induction false} CrawlCaptured(archive: Upstream.Archive, env: Env, localOf: (Url, string) -> string,
                                         latest: string, p: Progress, maxFiles: int, allowed: set<string>)
    requires Captured(archive, p.files, p.missing, latest)
    ensures var c := CrawlOf(archive, env, localOf, latest, p, maxFiles, allowed);
      Captured(archive, c.files, c.missing, latest)
    decreases maxFiles - |p.files|, |p.queue|
  {
    if p.queue != [] && |p.files| < maxFiles {
      StepProgress(archive, env, localOf, latest, p, maxFiles, allowed);
      StepCaptured(archive, env, localOf, latest, p, maxFiles, allowed);
      CrawlCaptured(archive, env, localOf, latest, StepOf(archive, env, localOf, latest, p, maxFiles, allowed), maxFiles, allowed);
    }
  }

  /** One round of the queue loop of `run`: the next URL is taken off the
      queue and cleaned and, unless tried already, tried. */
  method CrawlStep(tool: ArchiveTool, env: Env, localOf: (Url, string) -> string, latest: string, now: int,
                   p: Progress, maxFiles: int, allowed: set<string>, ghost target: Url) returns (p': Progress)
    requires tool.Valid()
    requires Good(p, target, allowed, latest, localOf)
    requires |p.queue| > 0 && |p.files| < maxFiles
    modifies tool
    ensures tool.Valid()
    ensures Good(p', target, allowed, latest, localOf)
    ensures |p'.files| + |p'.queue| <= Max(maxFiles, |p.files| + |p.queue|)
    ensures |p'.files| > |p.files| || (|p'.files| == |p.files| && |p'.queue| < |p.queue|)
    ensures |p'.files| <= |p.files| + 1 && p'.files[..|p.files|] == p.files && p.seen <= p'.seen
    ensures CleanUrl(p.queue[0]) in p'.seen
    ensures p' == StepOf(tool.archive, env, localOf, latest, p, maxFiles, allowed)
  {
    var current := CleanUrl(p.queue[0]);
    PopGood(p, target, allowed, latest, localOf);
    p' := p.(queue := p.queue[1..]);
    assert p'.files[..|p.files|] == p.files;
    if current in p'.seen {
      return;
    }
    var got;
    p', got := Visit(tool, env, localOf, latest, now, current, p', maxFiles, allowed, target);
  }

  /** Taking the head off the queue keeps the crawl invariant; the head,
      cleaned, is in scope. */
  lemma PopGood(p: Progress, target: Url, allowed: set<string>, latest: string, localOf: (Url, string) -> string)
    requires Good(p, target, allowed, latest, localOf) && |p.queue| > 0
    ensures Good(p.(queue := p.queue[1..]), target, allowed, latest, localOf)
    ensures InScope(CleanUrl(p.queue[0]), target, allowed)
  {
    CleanUrlIdempotent(p.queue[0]);
    var rest := p.queue[1..];
    assert forall k :: 0 <= k < |rest| ==> rest[k] == p.queue[k + 1];
  }

  /** A URL not tried before is tried; the links discovered in a saved
      file are offered to the queue, which admits those allowed and untried
      while there is room. */
  method Visit(tool: ArchiveTool, env: Env, localOf: (Url, string) -> string, latest: string, now: int,
               current: Url, p: Progress, maxFiles: int, allowed: set<string>, ghost target: Url)
    returns (p': Progress, got: Option<Capture>)
    requires tool.Valid()
    requires Good(p, target, allowed, latest, localOf)
    requires current !in p.seen && InScope(current, target, allowed)
    modifies tool
    ensures tool.Valid()
    ensures Good(p', target, allowed, latest, localOf)
    ensures |p'.files| + |p'.queue| <= Max(maxFiles, |p.files| + |p.queue| + 1)
    ensures |p'.files| == |p.files| + 1 || (|p'.files| == |p.files| && p'.queue == p.queue)
    ensures p'.files[..|p.files|] == p.files && p.seen <= p'.seen && current in p'.seen
    ensures got == RepairedCapture(tool.archive, current, latest)
    ensures got.None? ==> p' == Record(p, current, got, localOf)
    ensures got.Some? ==> p' == Offered(Record(p, current, got, localOf),
                                        DiscoverLinks(current, got.value.body, got.value.mime, env.parser, env.join),
                                        allowed, maxFiles)
  {
    p', got := Attempt(tool, localOf, latest, now, current, p, target, allowed);
    if got.Some? {
      var links := DiscoverLinks(current, got.value.body, got.value.mime, env.parser, env.join);
      VisitShape(p, current, got, links, target, allowed, latest, localOf, maxFiles);
      p' := Enqueue(p', links, allowed, maxFiles);
    } else {
      VisitShape(p, current, got, [], target, allowed, latest, localOf, maxFiles);
    }
  }

  /** What a visit does to the progress: the crawl invariant holds after it,
      the URL is tried, at most one file is added and the budget is kept. */
  lemma VisitShape(p: Progress, current: Url, got: Option<Capture>, links: seq<Url>, target: Url, allowed: set<string>,
                   latest: string, localOf: (Url, string) -> string, maxFiles: int)
    requires Good(Record(p, current, got, localOf), target, allowed, latest, localOf)
    requires forall k :: 0 <= k < |links| ==> IsClean(links[k])
    ensures var b := Record(p, current, got, localOf);
      var p' := if got.Some? then Offered(b, links, allowed, maxFiles) else b;
      && Good(p', target, allowed, latest, localOf)
      && |p'.files| + |p'.queue| <= Max(maxFiles, |p.files| + |p.queue| + 1)
      && (|p'.files| == |p.files| + 1 || (|p'.files| == |p.files| && p'.queue == p.queue))
      && p'.files[..|p.files|] == p.files && p.seen <= p'.seen && current in p'.seen
  {
    RecordShape(p, current, got, localOf);
    OfferedGood(Record(p, current, got, localOf), links, target, allowed, latest, localOf, maxFiles);
  }

  /** Queueing links in scope keeps the crawl invariant. */
  lemma EnqueueGood(p: Progress, extra: seq<Url>, target: Url, allowed: set<string>, latest: string,
                    localOf: (Url, string) -> string)
    requires Good(p, target, allowed, latest, localOf)
    requires forall k :: 0 <= k < |extra| ==> IsClean(extra[k]) && extra[k].netloc in allowed
    ensures Good(p.(queue := p.queue + extra), target, allowed, latest, localOf)
  {
    var q := p.queue + extra;
    assert forall k :: 0 <= k < |q| ==> q[k] == (if k < |p.queue| then p.queue[k] else extra[k - |p.queue|]);
  }

  /** Offering the links of a page keeps the crawl invariant, leaves the
      files and the tried URLs alone and stays within the budget. */
  lemma OfferedGood(p: Progress, links: seq<Url>, target: Url, allowed: set<string>, latest: string,
                    localOf: (Url, string) -> string, maxFiles: int)
    requires Good(p, target, allowed, latest, localOf)
    requires forall k :: 0 <= k < |links| ==> IsClean(links[k])
    ensures var o := Offered(p, links, allowed, maxFiles);
      && Good(o, target, allowed, latest, localOf)
      && o.files == p.files && o.seen == p.seen && o.queue[..|p.queue|] == p.queue
      && |o.files| + |o.queue| <= Max(maxFiles, |p.files| + |p.queue|)
  {
    var extra := Admitted(links, maxFiles - |p.files| - |p.queue|, allowed, p.seen);
    EnqueueGood(p, extra, target, allowed, latest, localOf);
    assert (p.queue + extra)[..|p.queue|] == p.queue;
  }

  /** The queue loop of `run`: while the queue is not empty and the budget
      not spent, one round of `CrawlStep`. The files never exceed the
      budget, the files and the queue together never exceed the budget or
      the first queue, and the loop ends with an empty queue or a full
      budget. */
  method CrawlQueue(tool: ArchiveTool, env: Env, localOf: (Url, string) -> string, latest: string, now: int, p0: Progress, maxFiles: int,
                    allowed: set<string>, ghost target: Url) returns (p: Progress)
    requires tool.Valid()
    requires Good(p0, target, allowed, latest, localOf)
    modifies tool
    ensures tool.Valid()
    ensures Good(p, target, allowed, latest, localOf)
    ensures |p.files| <= Max(maxFiles, |p0.files|)
    ensures |p.files| + |p.queue| <= Max(maxFiles, |p0.files| + |p0.queue|)
    ensures p.queue == [] || |p.files| >= maxFiles
    ensures p0.seen <= p.seen && |p0.files| <= |p.files| && p.files[..|p0.files|] == p0.files
    ensures p0.queue != [] && |p0.files| < maxFiles ==> CleanUrl(p0.queue[0]) in p.seen
    ensures p == CrawlOf(tool.archive, env, localOf, latest, p0, maxFiles, allowed)
  {
    p := p0;
    while |p.queue| > 0 && |p.files| < maxFiles
      invariant tool.Valid()
      invariant Good(p, target, allowed, latest, localOf)
      invariant QueueSoFar(p0, p, maxFiles)
      invariant CrawlOf(tool.archive, env, localOf, latest, p, maxFiles, allowed)
             == CrawlOf(tool.archive, env, localOf, latest, p0, maxFiles, allowed)
      decreases maxFiles - |p.files|, |p.queue|
    {
      ghost var before := p;
      CrawlOfStep(tool.archive, env, localOf, latest, p, maxFiles, allowed);
      p := CrawlStep(tool, env, localOf, latest, now, p, maxFiles, allowed, target);
      QueueStep(p0, before, p, maxFiles);
    }
  }

  /** Where the queue loop stands: the files only grow, within the budget,
      files and queue together stay within the budget or the first queue,
      and after a round the first head has been tried. */
  predicate QueueSoFar(p0: Progress, p: Progress, maxFiles: int) {
    && (p == p0 || (p0.queue != [] && |p0.files| < maxFiles && CleanUrl(p0.queue[0]) in p.seen))
    && |p.files| <= Max(maxFiles, |p0.files|)
    && |p.files| + |p.queue| <= Max(maxFiles, |p0.files| + |p0.queue|)
    && p0.seen <= p.seen && |p0.files| <= |p.files| && p.files[..|p0.files|] == p0.files
  }

  /** A round that keeps within the budget, only adds files and tries the
      head keeps the queue loop's standing. */
  lemma QueueStep(p0: Progress, p: Progress, p': Progress, maxFiles: int)
    requires QueueSoFar(p0, p, maxFiles) && |p.queue| > 0 && |p.files| < maxFiles
    requires |p'.files| + |p'.queue| <= Max(maxFiles, |p.files| + |p.queue|)
    requires |p.files| <= |p'.files| <= |p.files| + 1 && p'.files[..|p.files|] == p.files && p.seen <= p'.seen
    requires CleanUrl(p.queue[0]) in p'.seen
    ensures QueueSoFar(p0, p', maxFiles)
  {
    assert p'.files[..|p0.files|] == p'.files[..|p.files|][..|p0.files|];
  }

  /** The cleaned forms of the first `n` candidates. */
  function Cleaned(candidates: seq<Url>, n: nat): set<Url>
    requires n <= |candidates|
  {
    set k | 0 <= k < n :: CleanUrl(candidates[k])
  }

  /** One candidate more adds its cleaned form. */
  lemma CleanedStep(candidates: seq<Url>, i: nat)
    requires i < |candidates|
    ensures Cleaned(candidates, i + 1) == Cleaned(candidates, i) + {CleanUrl(candidates[i])}
  {
  }

  /** Where the top-up loop stands after the first `i` candidates: the
      files only grow, within the budget, the queue is untouched, the
      candidates so far are tried unless the budget is spent, and nothing
      else is tried. */
  predicate TopUpSoFar(p0: Progress, p: Progress, candidates: seq<Url>, i: nat, maxFiles: int)
    requires i <= |candidates|
  {
    && |p.files| <= Max(maxFiles, |p0.files|)
    && p0.seen <= p.seen && |p0.files| <= |p.files| && p.files[..|p0.files|] == p0.files && p.queue == p0.queue
    && (|p.files| >= maxFiles || forall k :: 0 <= k < i ==> CleanUrl(candidates[k]) in p.seen)
    && p.seen <= p0.seen + Cleaned(candidates, i)
  }

  /** A candidate already tried is passed over. */
  lemma TopUpSkipped(p0: Progress, p: Progress, candidates: seq<Url>, i: nat, maxFiles: int)
    requires i < |candidates| && TopUpSoFar(p0, p, candidates, i, maxFiles)
    requires CleanUrl(candidates[i]) in p.seen
    ensures TopUpSoFar(p0, p, candidates, i + 1, maxFiles)
  {
    CleanedStep(candidates, i);
  }

  /** A candidate not tried yet is tried while the budget is not spent. */
  lemma TopUpTried(p0: Progress, p: Progress, candidates: seq<Url>, i: nat, maxFiles: int, got: Option<Capture>,
                   localOf: (Url, string) -> string)
    requires i < |candidates| && TopUpSoFar(p0, p, candidates, i, maxFiles) && |p.files| < maxFiles
    ensures TopUpSoFar(p0, Record(p, CleanUrl(candidates[i]), got, localOf), candidates, i + 1, maxFiles)
  {
    var r := Record(p, CleanUrl(candidates[i]), got, localOf);
    RecordShape(p, CleanUrl(candidates[i]), got, localOf);
    CleanedStep(candidates, i);
    assert r.files[..|p0.files|] == r.files[..|p.files|][..|p0.files|];
  }

  /** The top-up loop of `run` as the archive answers it: the candidates in
      order, cleaned, each not tried yet recorded with its repaired capture,
      until the budget is spent. */
  ghost function TopUpOf(archive: Upstream.Archive, localOf: (Url, string) -> string, latest: string, p: Progress,
                         candidates: seq<Url>, maxFiles: int): Progress
    decreases |candidates|
  {
    if candidates == [] || |p.files| >= maxFiles then p
    else
      var c := CleanUrl(candidates[0]);
      var next := if c in p.seen then p else Record(p, c, RepairedCapture(archive, c, latest), localOf);
      TopUpOf(archive, localOf, latest, next, candidates[1..], maxFiles)
  }

  /** One candidate of the top-up: skipped when already seen, otherwise fetched and recorded. */
  lemma TopUpOfNext(archive: Upstream.Archive, localOf: (Url, string) -> string, latest: string, p: Progress,
                    candidates: seq<Url>, i: nat, maxFiles: int)
    requires i < |candidates| && |p.files| < maxFiles
    ensures var c := CleanUrl(candidates[i]);
      TopUpOf(archive, localOf, latest, p, candidates[i..], maxFiles)
      == TopUpOf(archive, localOf, latest,
                 if c in p.seen then p else Record(p, c, RepairedCapture(archive, c, latest), localOf),
                 candidates[i + 1..], maxFiles)
  {
    assert candidates[i..][0] == candidates[i] && candidates[i..][1..] == candidates[i + 1..];
  }

  /** The top-up stops once the budget is spent or the candidates run out. */
  lemma TopUpOfDone(archive: Upstream.Archive, localOf: (Url, string) -> string, latest: string, p: Progress,
                    candidates: seq<Url>, i: nat, maxFiles: int)
    requires i <= |candidates| && (i == |candidates| || |p.files| >= maxFiles)
    ensures TopUpOf(archive, localOf, latest, p, candidates[i..], maxFiles) == p
  {
    if i == |candidates| {
      assert candidates[i..] == [];
    }
  }

  /** The top-up keeps the files and missing URLs in agreement with the archive. */
  lemma {:induction false} TopUpCaptured(archive: Upstream.Archive, localOf: (Url, string) -> string, latest: string,
                                         p: Progress, candidates: seq<Url>, maxFiles: int)
    requires Captured(archive, p.files, p.missing, latest)
    ensures var t := TopUpOf(archive, localOf, latest, p, candidates, maxFiles);
      Captured(archive, t.files, t.missing, latest)
    decreases |candidates|
  {
    if candidates != [] && |p.files| < maxFiles {
      var c := CleanUrl(candidates[0]);
      if c !in p.seen {
        RecordCaptured(archive, p, c, latest, localOf);
        TopUpCaptured(archive, localOf, latest, Record(p, c, RepairedCapture(archive, c, latest), localOf),
                      candidates[1..], maxFiles);
      } else {
        TopUpCaptured(archive, localOf, latest, p, candidates[1..], maxFiles);
      }
    }
  }

  /** The top-up loop of `run`: the ranked URLs in order, cleaned, those not
      tried yet tried, until the budget is spent. */
  method TopUp(tool: ArchiveTool, localOf: (Url, string) -> string, latest: string, now: int, p0: Progress, candidates: seq<Url>, maxFiles: int,
               allowed: set<string>, ghost target: Url) returns (p: Progress)
    requires tool.Valid()
    requires Good(p0, target, allowed, latest, localOf)
    requires forall k :: 0 <= k < |candidates| ==> candidates[k].netloc in allowed
    modifies tool
    ensures tool.Valid()
    ensures Good(p, target, allowed, latest, localOf)
    ensures |p.files| <= Max(maxFiles, |p0.files|)
    ensures p0.seen <= p.seen && |p0.files| <= |p.files| && p.files[..|p0.files|] == p0.files && p.queue == p0.queue
    ensures |p.files| >= maxFiles || forall k :: 0 <= k < |candidates| ==> CleanUrl(candidates[k]) in p.seen
    ensures p.seen <= p0.seen + Cleaned(candidates, |candidates|)
    ensures p == TopUpOf(tool.archive, localOf, latest, p0, candidates, maxFiles)
  {
    p := p0;
    for i := 0 to |candidates|
      invariant tool.Valid()
      invariant Good(p, target, allowed, latest, localOf)
      invariant TopUpSoFar(p0, p, candidates, i, maxFiles)
      invariant TopUpOf(tool.archive, localOf, latest, p, candidates[i..], maxFiles)
             == TopUpOf(tool.archive, localOf, latest, p0, candidates, maxFiles)
    {
      if |p.files| >= maxFiles {
        TopUpOfDone(tool.archive, localOf, latest, p, candidates, i, maxFiles);
        break;
      }
      TopUpOfNext(tool.archive, localOf, latest, p, candidates, i, maxFiles);
      var candidate := CleanUrl(candidates[i]);
      if candidate in p.seen {
        TopUpSkipped(p0, p, candidates, i, maxFiles);
        continue;
      }
      var got;
      ghost var before := p;
      p, got := Attempt(tool, localOf, latest, now, candidate, p, target, allowed);
      TopUpTried(p0, before, candidates, i, maxFiles, got, localOf);
    }
    TopUpOfDone(tool.archive, localOf, latest, p, candidates, |candidates|, maxFiles);
  }

  // ---------------------------------------------------------------------
  // Rewriting the saved files

  /** `{u: r.local_path for u, r in files.items()}`. */
  function UrlToLocal(files: seq<FileRecord>): (r: map<Url, string>)
    ensures r.Keys == UrlSet(files)
  {
    if files == [] then map[]
    else UrlToLocal(files[..|files| - 1])[files[|files| - 1].url := files[|files| - 1].localPath]
  }

  /** With one file per URL, the map sends each file's URL to its local path. */
  lemma {:induction false} UrlToLocalFinds(files: seq<FileRecord>, k: nat)
    requires DistinctUrls(files) && k < |files|
    ensures UrlToLocal(files)[files[k].url] == files[k].localPath
  {
    var init := files[..|files| - 1];
    if k < |files| - 1 {
      assert init[k] == files[k];
      assert DistinctUrls(init) by {
        forall i, j | 0 <= i < j < |init| ensures init[i].url != init[j].url {
          assert init[i] == files[i] && init[j] == files[j];
        }
      }
      UrlToLocalFinds(init, k);
    }
  }

  /** One file through `_rewrite_for_offline`: its content is replaced when
      the rewrite changed it; a path that was not written is left alone. */
  function RewriteFile(env: Env, urlToLocal: map<Url, string>, f: FileRecord, saved: map<string, seq<byte>>)
    : (r: map<string, seq<byte>>)
    ensures r.Keys == saved.Keys
  {
    if f.localPath !in saved then saved
    else
      match RewriteForOffline(Context(f.url, env.join, urlToLocal, f.localPath), saved[f.localPath], f.mime, env.parser)
      case Unchanged => saved
      case HtmlTags(tags) => saved[f.localPath := env.renderHtml(tags)]
      case CssText(text) => saved[f.localPath := env.encode(text)]
  }

  /** The files rewritten in the order they were saved, each reading what
      the earlier rewrites left. */
  function RewriteAll(env: Env, urlToLocal: map<Url, string>, files: seq<FileRecord>, saved: map<string, seq<byte>>)
    : map<string, seq<byte>>
  {
    if files == [] then saved
    else RewriteFile(env, urlToLocal, files[|files| - 1], RewriteAll(env, urlToLocal, files[..|files| - 1], saved))
  }

  /** Rewriting writes no new path and removes none, and leaves alone every
      path that no file of an HTML or CSS type is saved under. */
  lemma {:induction false} RewriteAllKeeps(env: Env, urlToLocal: map<Url, string>, files: seq<FileRecord>,
                                           saved: map<string, seq<byte>>, path: string)
    ensures RewriteAll(env, urlToLocal, files, saved).Keys == saved.Keys
    ensures (forall k :: 0 <= k < |files| && files[k].localPath == path ==>
               !IsHtmlMime(files[k].mime) && !IsCssMime(files[k].mime))
            ==> path !in saved || RewriteAll(env, urlToLocal, files, saved)[path] == saved[path]
  {
    if files != [] {
      var init := files[..|files| - 1];
      assert forall k :: 0 <= k < |init| ==> init[k] == files[k];
      RewriteAllKeeps(env, urlToLocal, init, saved, path);
    }
  }

  /** The rewrite loop of `run`. */
  method RewriteFiles(env: Env, files: seq<FileRecord>, saved: map<string, seq<byte>>)
    returns (out: map<string, seq<byte>>)
    ensures out == RewriteAll(env, UrlToLocal(files), files, saved)
  {
    var urlToLocal := UrlToLocal(files);
    out := saved;
    for i := 0 to |files|
      invariant out == RewriteAll(env, urlToLocal, files[..i], saved)
    {
      RewriteAllSnoc(env, urlToLocal, files, i, saved);
      out := RewriteFile(env, urlToLocal, files[i], out);
    }
    assert files[..|files|] == files;
  }

  lemma RewriteAllSnoc(env: Env, urlToLocal: map<Url, string>, files: seq<FileRecord>, i: nat,
                       saved: map<string, seq<byte>>)
    requires i < |files|
    ensures RewriteAll(env, urlToLocal, files[..i + 1], saved)
         == RewriteFile(env, urlToLocal, files[i], RewriteAll(env, urlToLocal, files[..i], saved))
  {
    assert files[..i + 1][..i] == files[..i];
  }

  // ---------------------------------------------------------------------
  // run

  /** The `ArchiveResult` of `run`, the written files beside it
      (`files_downloaded` is `|files|`; the elapsed seconds are left out). */
  datatype RunResult = RunResult(
    target: Url, latest: string, totalSnapshots: nat, outputDir: string, filesRecovered: nat,
    missing: seq<Url>, files: seq<FileRecord>, expectedSampleFiles: nat, expectedSampleSizeBytes: nat,
    coverage: real, missingExpected: seq<string>, saved: map<string, seq<byte>>)

  /** `inventory_urls`: the URL column, as written, of the complete rows with
      an allowed host. */
  function InventoryUrls(rows: seq<seq<string>>, allowed: set<string>): seq<string> {
    if rows == [] then []
    else (if Eligible(rows[0], allowed) then [rows[0][1]] else []) + InventoryUrls(rows[1..], allowed)
  }

  /** `inventory_size`: the sum of the length column over the rows where it
      is a number. */
  function InventorySize(rows: seq<seq<string>>): nat {
    if rows == [] then 0
    else (if |rows[0]| >= 4 && IsDigits(rows[0][3]) then DigitsValue(rows[0][3]) else 0) + InventorySize(rows[1..])
  }

  function VariantUrl(v: VariantRow): Url { v.url }

  /** Report rows made for the variants list the variants' URLs. */
  lemma VariantUrls(rows: seq<VariantRow>, vs: seq<Url>)
    requires |rows| == |vs| && forall j :: 0 <= j < |vs| ==> rows[j].url == vs[j]
    ensures Map(rows, VariantUrl) == vs
  {
    assert forall j :: 0 <= j < |vs| ==> Map(rows, VariantUrl)[j] == vs[j];
  }

  /** What `run` promises of its result: at most `maxFiles` files, one per
      URL, each saved under its local path and captured no later than the
      snapshot; every URL tried gave a file or is listed missing once; the
      count of older captures agrees with the files and the coverage is a
      percentage. `RunOutcome` says which files and which figures. */
  ghost predicate RunGood(res: RunResult, env: Env, maxFiles: int, allowed: set<string>) {
    && |res.files| <= Max(maxFiles, 0)
    && DistinctUrls(res.files)
    && (forall k :: 0 <= k < |res.files| ==>
          && res.files[k].localPath == LocalPath(res.files[k].url, res.files[k].mime, env.digest)
          && (res.files[k].timestamp == res.latest || Lt(res.files[k].timestamp, res.latest))
          && InScope(res.files[k].url, res.target, allowed))
    && res.saved.Keys == Paths(res.files)
    && NoDup(res.missing)
    && (forall k :: 0 <= k < |res.missing| ==> res.missing[k] !in UrlSet(res.files))
    && res.filesRecovered == CountWhere(res.files, FromOtherSnapshot(res.latest))
    && 0.0 <= res.coverage <= 100.0
    && |res.missingExpected| <= 300 && StrictlyAscending(res.missingExpected)
    && (maxFiles > 0 ==> res.target in UrlSet(res.files) || res.target in res.missing)
  }

  /** The result of `run` in terms of the archive: the index rows read for
      the wildcard patterns, the files and missing URLs of the crawl over
      them, the saved bodies rewritten for offline use, and the inventory
      figures and coverage measured against the files. */
  ghost predicate RunOutcome(res: RunResult, archive: Upstream.Archive, env: Env, hosts: set<string>,
                             patterns: seq<string>, maxFiles: int)
  {
    var rows := CollectedRows(archive, patterns, res.latest, Max(5000, maxFiles * 8));
    var p := SiteOf(archive, env, res.target, hosts, res.latest, Prioritize(rows, hosts), maxFiles);
    var expected := set u | u in InventoryUrls(rows, hosts);
    var downloaded := set f | f in p.files :: env.unparse(f.url);
    && res.files == p.files && res.missing == p.missing
    && res.saved == RewriteAll(env, UrlToLocal(p.files), p.files, p.saved)
    && res.expectedSampleFiles == |expected| && res.expectedSampleSizeBytes == InventorySize(rows)
    && res.coverage == Coverage(expected, downloaded)
    && res.missingExpected == Take(SortSet(expected - downloaded), 300)
  }

  /** The wildcard patterns of the report rows are those of the variants they list. */
  lemma OutcomeOfVariants(res: RunResult, archive: Upstream.Archive, env: Env, hosts: set<string>,
                          rows: seq<VariantRow>, vs: seq<Url>, maxFiles: int)
    requires |rows| == |vs| && forall j :: 0 <= j < |vs| ==> rows[j].url == vs[j]
    requires RunOutcome(res, archive, env, hosts, Map(Map(rows, VariantUrl), WildcardUrl), maxFiles)
    ensures RunOutcome(res, archive, env, hosts, Map(vs, WildcardUrl), maxFiles)
  {
    VariantUrls(rows, vs);
  }

  /** Every file in the result of `run` holds the type and timestamp of its
      URL's repaired capture, and every URL it lists missing has none. */
  lemma OutcomeCaptured(res: RunResult, archive: Upstream.Archive, env: Env, hosts: set<string>,
                        patterns: seq<string>, maxFiles: int)
    requires RunOutcome(res, archive, env, hosts, patterns, maxFiles)
    ensures Captured(archive, res.files, res.missing, res.latest)
  {
    var rows := CollectedRows(archive, patterns, res.latest, Max(5000, maxFiles * 8));
    SiteCaptured(archive, env, res.target, hosts, res.latest, Prioritize(rows, hosts), maxFiles);
  }

  /** The hosts of the variants are the host forms of the target's host. */
  lemma VariantHosts(t: Url, rows: seq<VariantRow>)
    requires |rows| == |UrlVariants(t)| && forall k :: 0 <= k < |rows| ==> rows[k].url == UrlVariants(t)[k]
    ensures (set v | v in rows :: v.url.netloc) == set h | h in HostVariants(Lower(t.netloc))
  {
    var hv := HostVariants(Lower(t.netloc));
    var vs := UrlVariants(t);
    VariantNetlocs(t);
    forall h | h in hv ensures h in (set v | v in rows :: v.url.netloc) {
      var i :| 0 <= i < |hv| && hv[i] == h;
      assert rows[i].url == vs[i];
    }
    forall v | v in rows ensures v.url.netloc in hv {
      var k :| 0 <= k < |rows| && rows[k] == v;
      assert rows[k].url == vs[k];
    }
  }

  /** Every variant's host is a host form, and every host form is the host
      of the https variant at the same place. */
  lemma VariantNetlocs(t: Url)
    ensures var hv := HostVariants(Lower(t.netloc));
      && |hv| <= |UrlVariants(t)|
      && (forall i :: 0 <= i < |hv| ==> UrlVariants(t)[i].netloc == hv[i])
      && (forall k :: 0 <= k < |UrlVariants(t)| ==> UrlVariants(t)[k].netloc in hv)
  {
    var hv := HostVariants(Lower(t.netloc));
    var vs := UrlVariants(t);
    UrlVariantsAt(t);
    forall k | 0 <= k < |vs| ensures vs[k].netloc in hv {
      if k < |hv| {
        assert vs[k].netloc == hv[k];
      } else {
        assert vs[k].netloc == hv[k - |hv|];
      }
    }
  }

  /** A file taken from a snapshot other than the chosen one. */
  function FromOtherSnapshot(latest: string): FileRecord -> bool {
    (f: FileRecord) => f.timestamp != latest
  }

  /** Where `_save_file` puts a capture. */
  function LocalOf(digest: string -> HexString): (Url, string) -> string {
    (u: Url, mime: string) => LocalPath(u, mime, digest)
  }

  /** `run`: the target is normalised, the snapshots of its variants are
      merged, and with the newest status-200 snapshot (or the 14-digit one
      asked for) the site is crawled, rewritten for offline use and measured
      against the capture index. */
  method Run(tool: ArchiveTool, env: Env, rawTarget: string, maxFiles: int, preferred: Option<string>, now: int)
    returns (r: Result<RunResult, Failure>, ghost allowed: set<string>)
    requires tool.Valid()
    modifies tool
    ensures tool.Valid()
    ensures NormalizeTarget(rawTarget).Err? ==> r == Err(NormalizeTarget(rawTarget).error)
    ensures NormalizeTarget(rawTarget).Ok? ==>
      var t := NormalizeTarget(rawTarget).value;
      var ok := SortSet(ListedUnion(tool.archive, UrlVariants(t), true, MergeCaps(20000)));
      && (r.Err? <==> ok == [])
      && (r.Err? ==> r.error == NoArchivedSnapshots)
      && (r.Ok? ==> && r.value.target == t && r.value.latest == LatestForRun(ok, preferred)
                    && r.value.totalSnapshots == |ok|
                    && r.value.outputDir == SafeName(t.netloc) + "_" + r.value.latest
                    && allowed == set h | h in HostVariants(Lower(t.netloc)))
    ensures r.Ok? ==> RunGood(r.value, env, maxFiles, allowed)
    ensures r.Ok? ==> RunOutcome(r.value, tool.archive, env, allowed, Map(UrlVariants(r.value.target), WildcardUrl), maxFiles)
  {
    allowed := {};
    var normalized := NormalizeTarget(rawTarget);
    if normalized.Err? {
      return Err(normalized.error), allowed;
    }
    var t := normalized.value;
    var m := tool.MergeVariantSnapshots(t, 20000, now);
    if m.ok == [] {
      return Err(NoArchivedSnapshots), allowed;
    }
    var hosts := set v | v in m.variants :: v.url.netloc;
    VariantHosts(t, m.variants);
    allowed := hosts;
    var latest := LatestForRun(m.ok, preferred);
    var res := Recover(tool, env, t, m.variants, hosts, |m.ok|, latest, maxFiles, now);
    OutcomeOfVariants(res, tool.archive, env, hosts, m.variants, UrlVariants(t), maxFiles);
    r := Ok(res);
  }

  /** The part of `run` after the snapshot is chosen: the capture index of
      every variant's host is read, the site crawled, the saved files
      rewritten for offline use and the coverage measured. */
  method Recover(tool: ArchiveTool, env: Env, t: Url, variants: seq<VariantRow>, hosts: set<string>,
                 totalSnapshots: nat, latest: string, maxFiles: int, now: int) returns (res: RunResult)
    requires tool.Valid() && IsClean(t)
    modifies tool
    ensures tool.Valid()
    ensures res.target == t && res.latest == latest && res.totalSnapshots == totalSnapshots
    ensures res.outputDir == SafeName(t.netloc) + "_" + latest
    ensures RunGood(res, env, maxFiles, hosts)
    ensures RunOutcome(res, tool.archive, env, hosts, Map(Map(variants, VariantUrl), WildcardUrl), maxFiles)
  {
    var wildcards := Map(Map(variants, VariantUrl), WildcardUrl);
    var rows := tool.CollectCdxRows(wildcards, latest, Max(5000, maxFiles * 8), now);
    var prioritized := Prioritize(rows, hosts);
    PrioritizedHosts(rows, hosts);
    var p := CrawlSite(tool, env, t, hosts, latest, prioritized, maxFiles, now);
    var saved := RewriteFiles(env, p.files, p.saved);
    RewriteAllKeeps(env, UrlToLocal(p.files), p.files, p.saved, "");
    var coverage, expectedCount, missingExpected := Measure(env, InventoryUrls(rows, hosts), p.files);
    res := RunResult(t, latest, totalSnapshots, SafeName(t.netloc) + "_" + latest,
                     CountWhere(p.files, FromOtherSnapshot(latest)), p.missing, p.files,
                     expectedCount, InventorySize(rows), coverage, missingExpected, saved);
    ResultGood(p, res, env, maxFiles, hosts);
  }

  /** What the crawl of `run` ends with: the queue walk from the seeds,
      then, while the budget lasts, the top-up over the ranked inventory. */
  ghost function SiteOf(archive: Upstream.Archive, env: Env, t: Url, hosts: set<string>, latest: string,
                        prioritized: seq<Url>, maxFiles: int): Progress
  {
    var localOf := LocalOf(env.digest);
    var c := CrawlOf(archive, env, localOf, latest, Progress(Seeds(t, prioritized, maxFiles), {}, [], [], map[]), maxFiles, hosts);
    if |c.files| < maxFiles then TopUpOf(archive, localOf, latest, c, prioritized, maxFiles) else c
  }

  /** Every saved file of the crawl holds the type and timestamp of its
      URL's repaired capture, and every URL recorded missing has none. */
  lemma SiteCaptured(archive: Upstream.Archive, env: Env, t: Url, hosts: set<string>, latest: string,
                     prioritized: seq<Url>, maxFiles: int)
    ensures var p := SiteOf(archive, env, t, hosts, latest, prioritized, maxFiles);
      Captured(archive, p.files, p.missing, latest)
  {
    var localOf := LocalOf(env.digest);
    var p0 := Progress(Seeds(t, prioritized, maxFiles), {}, [], [], map[]);
    CrawlCaptured(archive, env, localOf, latest, p0, maxFiles, hosts);
    var c := CrawlOf(archive, env, localOf, latest, p0, maxFiles, hosts);
    TopUpCaptured(archive, localOf, latest, c, prioritized, maxFiles);
  }

  /** The crawl proper: the first queue, the queue loop, and the top-up when
      the budget is not spent. */
  method CrawlSite(tool: ArchiveTool, env: Env, t: Url, hosts: set<string>, latest: string,
                   prioritized: seq<Url>, maxFiles: int, now: int) returns (p: Progress)
    requires tool.Valid() && IsClean(t)
    requires forall k :: 0 <= k < |prioritized| ==> IsClean(prioritized[k]) && prioritized[k].netloc in hosts
    modifies tool
    ensures tool.Valid()
    ensures Good(p, t, hosts, latest, LocalOf(env.digest))
    ensures |p.files| <= Max(maxFiles, 0)
    ensures maxFiles > 0 ==> t in p.seen
    ensures p == SiteOf(tool.archive, env, t, hosts, latest, prioritized, maxFiles)
  {
    var seeds := Seeds(t, prioritized, maxFiles);
    SeedsSpec(t, prioritized, maxFiles);
    SeedsInScope(t, prioritized, maxFiles, hosts);
    var p0 := Progress(seeds, {}, [], [], map[]);
    GoodStart(seeds, t, hosts, latest, LocalOf(env.digest));
    p := CrawlQueue(tool, env, LocalOf(env.digest), latest, now, p0, maxFiles, hosts, t);
    if |p.files| < maxFiles {
      p := TopUp(tool, LocalOf(env.digest), latest, now, p, prioritized, maxFiles, hosts, t);
    }
    assert CleanUrl(t) == t;
  }

  /** The coverage figures of `run`: the share of the distinct inventory
      URLs among the saved URLs, their number, and the first 300 of the
      missing ones in sorted order. */
  method Measure(env: Env, inventoryUrls: seq<string>, files: seq<FileRecord>)
    returns (coverage: real, expectedCount: nat, missingExpected: seq<string>)
    ensures var expected := set u | u in inventoryUrls;
      var downloaded := set f | f in files :: env.unparse(f.url);
      && coverage == Coverage(expected, downloaded) && expectedCount == |expected|
      && missingExpected == Take(SortSet(expected - downloaded), 300)
    ensures 0.0 <= coverage <= 100.0 && |missingExpected| <= 300 && StrictlyAscending(missingExpected)
  {
    var expected := set u | u in inventoryUrls;
    var downloaded := set f | f in files :: env.unparse(f.url);
    CoverageBounds(expected, downloaded);
    var sortedMissing := SortStrings(expected - downloaded);
    missingExpected := Take(sortedMissing, 300);
    TakeAscending(sortedMissing, 300);
    coverage := Coverage(expected, downloaded);
    expectedCount := |expected|;
  }

  /** What the crawl invariant gives the result of `run`. */
  lemma ResultGood(p: Progress, res: RunResult, env: Env, maxFiles: int, allowed: set<string>)
    requires Good(p, res.target, allowed, res.latest, LocalOf(env.digest))
    requires |p.files| <= Max(maxFiles, 0) && (maxFiles > 0 ==> res.target in p.seen)
    requires res.files == p.files && res.missing == p.missing && res.saved.Keys == p.saved.Keys
    requires res.filesRecovered == CountWhere(res.files, FromOtherSnapshot(res.latest))
    requires 0.0 <= res.coverage <= 100.0 && |res.missingExpected| <= 300 && StrictlyAscending(res.missingExpected)
    ensures RunGood(res, env, maxFiles, allowed)
  {
    forall k | 0 <= k < |res.files|
      ensures res.files[k].localPath == LocalPath(res.files[k].url, res.files[k].mime, env.digest)
      ensures InScope(res.files[k].url, res.target, allowed)
    {
      assert FileOk(p.files[k], res.latest, LocalOf(env.digest));
      assert res.files[k].url in p.seen;
    }
  }

  lemma SeedsInScope(t: Url, prioritized: seq<Url>, maxFiles: int, allowed: set<string>)
    requires IsClean(t)
    requires forall k :: 0 <= k < |prioritized| ==> IsClean(prioritized[k]) && prioritized[k].netloc in allowed
    requires forall u :: u in Seeds(t, prioritized, maxFiles) ==> u == t || u in Take(prioritized, SeedCount(maxFiles))
    ensures forall k :: 0 <= k < |Seeds(t, prioritized, maxFiles)| ==> InScope(Seeds(t, prioritized, maxFiles)[k], t, allowed)
  {
    var s := Seeds(t, prioritized, maxFiles);
    var pre := Take(prioritized, SeedCount(maxFiles));
    forall k | 0 <= k < |s| ensures InScope(s[k], t, allowed) {
      if s[k] != t {
        assert s[k] in pre;
        var i :| 0 <= i < |pre| && pre[i] == s[k];
        assert pre[i] == prioritized[i];
      }
    }
  }

  lemma TakeAscending(xs: seq<string>, n: nat)
    requires StrictlyAscending(xs)
    ensures StrictlyAscending(Take(xs, n))
  {
    var t := Take(xs, n);
    assert forall i :: 0 <= i < |t| ==> t[i] == xs[i];
  }
}
