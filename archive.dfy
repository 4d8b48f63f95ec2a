/** The archive client as an object: the capture-index memo `_cdx_cache`
    (keyed by URL) and the moment `_archive_unavailable_until` before which
    the archive counts as unavailable. Every request goes through
    `Observe`, which opens the window on a 503 answer as the request helper
    does. The clock is the parameter `now` of each operation. Each method
    is proved to compute the pure definition of `Listing`, `Inventory` or
    this module, and to leave the window as that definition says. */
module Archive {
  import opened Common
  import opened Seqs
  import opened Lex
  import opened Urls
  import opened Variants
  import opened Upstream
  import opened Listing
  import opened Inventory

  predicate StrictlyDescending(xs: seq<string>) {
    forall i, j :: 0 <= i < j < |xs| ==> Lt(xs[j], xs[i])
  }

  /** `_timestamps_for_url` on the answer it gets: the status-200
      timestamps, newest first; none for a failed query or one without
      data rows. */
  ghost function KnownTimestamps(reply: CdxReply): (r: seq<string>)
    ensures StrictlyDescending(r)
    ensures reply.Rows? && |reply.rows| > 1 ==> forall t :: t in r <==> t in RowTimestamps(reply.rows)
    ensures !(reply.Rows? && |reply.rows| > 1) ==> r == []
  {
    if reply.Rows? && |reply.rows| > 1 then SortSetDesc(RowTimestamps(reply.rows)) else []
  }

  function RawStatus(reply: RawReply): Option<int> {
    if reply.RawFailed? then reply.status else None
  }

  // ---------------------------------------------------------------------
  // Nearest-timestamp repair

  predicate OlderThan(latest: string, t: string) { t != latest && Le(t, latest) }

  /** The timestamps `_download_with_repair` tries, in order: the requested
      one, then the known ones other than it that are not later. */
  function RepairCandidates(latest: string, known: seq<string>): (r: seq<string>)
    ensures r != [] && r[0] == latest
    ensures forall t :: t in r[1..] <==> t in known && OlderThan(latest, t)
  {
    var older := Filter(known, t => OlderThan(latest, t));
    assert forall t :: t in older <==> t in known && OlderThan(latest, t) by {
      forall t ensures t in older <==> t in known && OlderThan(latest, t) {
        FilterMembership(known, t => OlderThan(latest, t), t);
      }
    }
    assert ([latest] + older)[1..] == older;
    [latest] + older
  }

  /** A download that yields a capture (see `CaptureOf`). */
  predicate Hit(reply: RawReply) { reply.Response? && reply.body != [] }

  /** The index of the first candidate whose download yields a capture,
      |cands| when none does. */
  function FirstHit(archive: Archive, url: Url, cands: seq<string>): (r: nat)
    ensures r <= |cands|
    ensures r < |cands| ==> Hit(archive.raw(cands[r], url))
    ensures forall j :: 0 <= j < r ==> !Hit(archive.raw(cands[j], url))
  {
    if cands == [] then 0
    else if Hit(archive.raw(cands[0], url)) then 0
    else 1 + FirstHit(archive, url, cands[1..])
  }

  /** The first capture among the candidates. */
  function FirstCapture(archive: Archive, url: Url, cands: seq<string>): Option<Capture> {
    var k := FirstHit(archive, url, cands);
    if k < |cands| then CaptureOf(archive.raw(cands[k], url), cands[k]) else None
  }

  /** Whether one of the downloads tried answered 503. */
  ghost predicate RepairSaw503(archive: Archive, url: Url, cands: seq<string>) {
    exists j :: 0 <= j < FirstHit(archive, url, cands) && Is503(RawStatus(archive.raw(cands[j], url)))
  }

  lemma {:induction false} FilterDescending(xs: seq<string>, p: string -> bool)
    requires StrictlyDescending(xs)
    ensures StrictlyDescending(Filter(xs, p))
  {
    if xs != [] {
      FilterDescending(xs[1..], p);
      var tail := Filter(xs[1..], p);
      forall k | 0 <= k < |tail| ensures Lt(tail[k], xs[0]) {
        FilterMembership(xs[1..], p, tail[k]);
        var i :| 0 <= i < |xs[1..]| && xs[1..][i] == tail[k];
        assert xs[i + 1] == tail[k];
      }
    }
  }

  lemma CandidatesDescending(latest: string, known: seq<string>)
    requires StrictlyDescending(known)
    ensures StrictlyDescending(RepairCandidates(latest, known))
  {
    var c := RepairCandidates(latest, known);
    FilterDescending(known, t => OlderThan(latest, t));
    forall i, j | 0 <= i < j < |c| ensures Lt(c[j], c[i]) {
      assert c[j] in c[1..] by { assert c[1..][j - 1] == c[j]; }
      if i > 0 {
        assert c[i] == c[1..][i - 1] && c[j] == c[1..][j - 1];
      }
    }
  }

  /** `_download_with_repair`: the requested timestamp is used when its
      capture exists; otherwise the capture comes from the newest known
      timestamp before it that has one, so the timestamp used is never
      later than the requested one and every known timestamp between the
      two had no capture; no capture at all means none of them had one. */
  lemma RepairNearest(archive: Archive, url: Url, latest: string, known: seq<string>)
    requires StrictlyDescending(known)
    ensures var r := FirstCapture(archive, url, RepairCandidates(latest, known));
      && (CaptureOf(archive.raw(latest, url), latest).Some? ==> r == CaptureOf(archive.raw(latest, url), latest))
      && (r.Some? ==> r.value.timestamp == latest || (r.value.timestamp in known && Lt(r.value.timestamp, latest)))
      && (r.Some? ==> forall t :: t in known && Lt(r.value.timestamp, t) && Lt(t, latest) ==>
                        CaptureOf(archive.raw(t, url), t).None?)
      && (r.None? ==> CaptureOf(archive.raw(latest, url), latest).None? &&
                      forall t :: t in known && Lt(t, latest) ==> CaptureOf(archive.raw(t, url), t).None?)
  {
    var c := RepairCandidates(latest, known);
    var h := FirstHit(archive, url, c);
    CandidatesDescending(latest, known);
    LtIrreflexive(latest);
    forall t | t in known && Lt(t, latest) ensures exists j :: 1 <= j < |c| && c[j] == t {
      assert t in c[1..];
      var k :| 0 <= k < |c[1..]| && c[1..][k] == t;
      assert c[k + 1] == t;
    }
    if h < |c| && h > 0 {
      assert c[h] in c[1..] by { assert c[1..][h - 1] == c[h]; }
      assert OlderThan(latest, c[h]);
    }
    if h < |c| {
      forall t | t in known && Lt(c[h], t) && Lt(t, latest)
        ensures CaptureOf(archive.raw(t, url), t).None?
      {
        var j :| 1 <= j < |c| && c[j] == t;
        if j == h { LtIrreflexive(t); }
        if j > h { LtAsymmetric(c[j], c[h]); }
      }
    }
  }

  // ---------------------------------------------------------------------
  // The client

  /** The window after the variant checks or the pattern queries of one
      operation: extended by one hold exactly when a 503 was seen. */
  function WindowIf(saw: bool, until: int, now: int): int {
    if saw then Extend(until, now, DefaultHold) else until
  }

  /** Whether a query of one of the inventory patterns answered 503. */
  ghost predicate IndexSaw503(archive: Archive, patterns: seq<string>, to: string, cap: int) {
    exists i :: 0 <= i < |patterns| && Is503(StatusOf(archive.index(patterns[i], to, cap)))
  }

  /** The report rows of a list of variants, one per variant in order. */
  ghost function RowsFor(archive: Archive, vs: seq<Url>, caps: seq<int>): (r: seq<VariantRow>)
    ensures |r| == |vs|
    ensures forall j :: 0 <= j < |vs| ==> r[j] == RowFor(archive, vs[j], caps)
    ensures forall j :: 0 <= j < |vs| ==> r[j].url == vs[j]
  {
    seq(|vs|, j requires 0 <= j < |vs| => RowFor(archive, vs[j], caps))
  }

  /** The number of variants with a failed listing. */
  ghost function FailedVariants(archive: Archive, vs: seq<Url>, caps: seq<int>): (r: nat)
    ensures r <= |vs|
  {
    if vs == [] then 0
    else FailedVariants(archive, vs[..|vs| - 1], caps) + (if VariantFailed(archive, vs[|vs| - 1], caps) then 1 else 0)
  }

  class ArchiveTool {
    const archive: Archive
    var unavailableUntil: int
    var cdxCache: map<Url, seq<string>>

    /** The memo only holds what the capture index answers. */
    ghost predicate Valid()
      reads this
    {
      forall u :: u in cdxCache ==> cdxCache[u] == KnownTimestamps(archive.captures(u))
    }

    constructor(archive: Archive)
      ensures Valid()
      ensures this.archive == archive && unavailableUntil == 0 && cdxCache == map[]
    {
      this.archive := archive;
      unavailableUntil := 0;
      cdxCache := map[];
    }

    /** `_mark_archive_unavailable`. */
    method MarkUnavailable(now: int, hold: int)
      modifies this
      ensures unavailableUntil == Extend(old(unavailableUntil), now, hold)
      ensures cdxCache == old(cdxCache)
    {
      var end := now + (if hold < 30 then 30 else hold);
      if unavailableUntil < end {
        unavailableUntil := end;
      }
    }

    /** `_archive_unavailable_recent`. */
    function UnavailableRecent(now: int): (r: bool)
      reads this
      ensures r <==> OpenAt(unavailableUntil, now)
    {
      now < unavailableUntil
    }

    /** What the request helper does with the outcome of a request. */
    method Observe(status: Option<int>, now: int)
      modifies this
      ensures unavailableUntil == WindowAfter(old(unavailableUntil), status, now)
      ensures cdxCache == old(cdxCache)
    {
      if Is503(status) {
        MarkUnavailable(now, DefaultHold);
      }
    }

    /** `_list_snapshots`. */
    method ListSnapshots(url: Url, successOnly: bool, maxRows: int, strict: bool, now: int)
      returns (r: Result<seq<string>, Failure>)
      modifies this
      ensures unavailableUntil == WindowAfter(old(unavailableUntil), StatusOf(archive.listing(url, successOnly, maxRows)), now)
      ensures r == ListingResult(archive.listing(url, successOnly, maxRows), strict, OpenAt(unavailableUntil, now))
      ensures cdxCache == old(cdxCache)
    {
      var reply := archive.listing(url, successOnly, maxRows);
      Observe(StatusOf(reply), now);
      match reply {
        case Failed(status) =>
          if !strict {
            r := Ok([]);
          } else if Is503(status) || UnavailableRecent(now) {
            r := Err(ArchiveUnavailable);
          } else {
            r := Err(ListingTimedOut);
          }
        case Rows(rows) =>
          if |rows| <= 1 {
            r := Ok([]);
          } else {
            var ts := SortStrings(RowTimestamps(rows));
            r := Ok(ts);
          }
      }
    }

    /** `_list_snapshots_adaptive`: the ladder over the four caps. */
    method ListSnapshotsAdaptive(url: Url, successOnly: bool, maxRows: int, now: int)
      returns (r: Result<seq<string>, Failure>)
      modifies this
      ensures (r, unavailableUntil) == Ladder(archive, url, successOnly, Attempts(maxRows), old(unavailableUntil), now)
      ensures cdxCache == old(cdxCache)
    {
      var attempts := Attempts(maxRows);
      var i := 0;
      while true
        invariant 0 <= i < |attempts|
        invariant Ladder(archive, url, successOnly, attempts, old(unavailableUntil), now)
               == Ladder(archive, url, successOnly, attempts[i..], unavailableUntil, now)
        invariant cdxCache == old(cdxCache)
        decreases |attempts| - i
      {
        assert attempts[i..][0] == attempts[i];
        assert attempts[i..][1..] == attempts[i + 1..];
        r := ListSnapshots(url, successOnly, attempts[i], true, now);
        if r.Ok? || i == |attempts| - 1 {
          return;
        }
        i := i + 1;
      }
    }

    /** Both listings of one variant, as `_merge_variant_snapshots` makes
        them: a failed listing counts as empty and marks the variant failed. */
    method CheckVariant(v: Url, maxRows: int, now: int)
      returns (allList: seq<string>, okList: seq<string>, failed: bool)
      modifies this
      ensures allList == OrEmpty(LadderListing(archive, v, false, Attempts(maxRows)))
      ensures okList == OrEmpty(LadderListing(archive, v, true, Attempts(maxRows)))
      ensures failed == VariantFailed(archive, v, Attempts(maxRows))
      ensures unavailableUntil == WindowIf(LadderSaw503(archive, v, false, Attempts(maxRows))
                                           || LadderSaw503(archive, v, true, Attempts(maxRows)),
                                           old(unavailableUntil), now)
      ensures cdxCache == old(cdxCache)
    {
      var caps := Attempts(maxRows);
      ghost var u0 := unavailableUntil;
      var a := ListSnapshotsAdaptive(v, false, maxRows, now);
      LadderSpec(archive, v, false, caps, u0, now);
      ghost var u1 := unavailableUntil;
      var o := ListSnapshotsAdaptive(v, true, maxRows, now);
      LadderSpec(archive, v, true, caps, u1, now);
      ExtendIdempotent(u0, now, DefaultHold);
      failed := false;
      if a.Ok? {
        allList := a.value;
      } else {
        allList := [];
        failed := true;
      }
      if o.Ok? {
        okList := o.value;
      } else {
        okList := [];
        failed := true;
      }
    }

    /** `_merge_variant_snapshots`: both listings of every variant of the
        target, merged into two sorted sets, with one report row per
        variant and the number of variants with a failed listing. */
    method MergeVariantSnapshots(normalized: Url, cdxLimit: int, now: int) returns (m: Merged)
      modifies this
      ensures var vs := UrlVariants(normalized);
        var caps := MergeCaps(cdxLimit);
        && m.variantCount == |vs|
        && m.all == SortSet(ListedUnion(archive, vs, false, caps))
        && m.ok == SortSet(ListedUnion(archive, vs, true, caps))
        && m.variants == RowsFor(archive, vs, caps)
        && m.failedVariants == FailedVariants(archive, vs, caps)
        && unavailableUntil == WindowIf(AnySaw503(archive, vs, caps), old(unavailableUntil), now)
      ensures cdxCache == old(cdxCache)
    {
      var vs := BuildUrlVariants(normalized);
      m := MergeVariants(vs, if cdxLimit < 500 then 500 else cdxLimit, now);
    }

    /** The loop of `_merge_variant_snapshots` over the variants. */
    method MergeVariants(vs: seq<Url>, maxRows: int, now: int) returns (m: Merged)
      modifies this
      ensures var caps := Attempts(maxRows);
        && m.variantCount == |vs|
        && m.all == SortSet(ListedUnion(archive, vs, false, caps))
        && m.ok == SortSet(ListedUnion(archive, vs, true, caps))
        && m.variants == RowsFor(archive, vs, caps)
        && m.failedVariants == FailedVariants(archive, vs, caps)
        && unavailableUntil == WindowIf(AnySaw503(archive, vs, caps), old(unavailableUntil), now)
      ensures cdxCache == old(cdxCache)
    {
      ghost var caps := Attempts(maxRows);
      ghost var u0 := unavailableUntil;
      var allTs: set<string> := {};
      var okTs: set<string> := {};
      var rows: seq<VariantRow> := [];
      var failed := 0;
      for i := 0 to |vs|
        invariant allTs == ListedUnion(archive, vs[..i], false, caps)
        invariant okTs == ListedUnion(archive, vs[..i], true, caps)
        invariant rows == RowsFor(archive, vs[..i], caps)
        invariant failed == FailedVariants(archive, vs[..i], caps)
        invariant unavailableUntil == WindowIf(AnySaw503(archive, vs[..i], caps), u0, now)
        invariant cdxCache == old(cdxCache)
      {
        allTs, okTs, rows, failed := MergeOne(vs, i, maxRows, now, allTs, okTs, rows, failed, u0);
      }
      assert vs[..|vs|] == vs;
      var all := SortStrings(allTs);
      var ok := SortStrings(okTs);
      m := Merged(all, ok, rows, failed, |vs|);
    }

    /** One round of the merge loop: variant `i` is checked and added. */
    method MergeOne(vs: seq<Url>, i: nat, maxRows: int, now: int, allTs: set<string>, okTs: set<string>,
                    rows: seq<VariantRow>, failed: nat, ghost u0: int)
      returns (allTs': set<string>, okTs': set<string>, rows': seq<VariantRow>, failed': nat)
      requires i < |vs|
      requires allTs == ListedUnion(archive, vs[..i], false, Attempts(maxRows))
      requires okTs == ListedUnion(archive, vs[..i], true, Attempts(maxRows))
      requires rows == RowsFor(archive, vs[..i], Attempts(maxRows))
      requires failed == FailedVariants(archive, vs[..i], Attempts(maxRows))
      requires unavailableUntil == WindowIf(AnySaw503(archive, vs[..i], Attempts(maxRows)), u0, now)
      modifies this
      ensures allTs' == ListedUnion(archive, vs[..i + 1], false, Attempts(maxRows))
      ensures okTs' == ListedUnion(archive, vs[..i + 1], true, Attempts(maxRows))
      ensures rows' == RowsFor(archive, vs[..i + 1], Attempts(maxRows))
      ensures failed' == FailedVariants(archive, vs[..i + 1], Attempts(maxRows))
      ensures unavailableUntil == WindowIf(AnySaw503(archive, vs[..i + 1], Attempts(maxRows)), u0, now)
      ensures cdxCache == old(cdxCache)
    {
      ghost var caps := Attempts(maxRows);
      var allList, okList, variantError := CheckVariant(vs[i], maxRows, now);
      ListedUnionSnoc(archive, vs, i, false, caps);
      ListedUnionSnoc(archive, vs, i, true, caps);
      FailedVariantsSnoc(archive, vs, i, caps);
      RowsForSnoc(archive, vs, i, caps);
      AnySaw503Snoc(archive, vs, i, caps);
      ExtendIdempotent(u0, now, DefaultHold);
      failed' := if variantError then failed + 1 else failed;
      allTs' := allTs + (set t | t in allList);
      okTs' := okTs + (set t | t in okList);
      rows' := rows + [VariantRow(vs[i], |allList|, |okList|)];
    }

    /** `_collect_cdx_rows`: the rows of every pattern, the first row of
        each key kept; a failed pattern is skipped. */
    method CollectCdxRows(patterns: seq<string>, to: string, limit: int, now: int)
      returns (rows: seq<seq<string>>)
      modifies this
      ensures rows == CollectedRows(archive, patterns, to, limit)
      ensures unavailableUntil == WindowIf(IndexSaw503(archive, patterns, to, PerVariantLimit(limit, |patterns|)),
                                           old(unavailableUntil), now)
      ensures cdxCache == old(cdxCache)
    {
      var cap := PerVariantLimit(limit, |patterns|);
      ghost var u0 := unavailableUntil;
      rows := [];
      var seen: set<string> := {};
      for i := 0 to |patterns|
        invariant rows == DedupBy(IndexRows(archive, patterns[..i], to, cap), CdxKey)
        invariant seen == Keys(rows, CdxKey)
        invariant unavailableUntil == WindowIf(IndexSaw503(archive, patterns[..i], to, cap), u0, now)
        invariant cdxCache == old(cdxCache)
      {
        var reply := archive.index(patterns[i], to, cap);
        Observe(StatusOf(reply), now);
        IndexRowsSnoc(archive, patterns, i, to, cap);
        IndexSaw503Snoc(archive, patterns, i, to, cap);
        ExtendIdempotent(u0, now, DefaultHold);
        if reply.Rows? && |reply.rows| > 1 {
          rows, seen := Absorb(rows, seen, IndexRows(archive, patterns[..i], to, cap), reply.rows[1..]);
        } else {
          assert DataRows(reply) == [];
          assert IndexRows(archive, patterns[..i], to, cap) + [] == IndexRows(archive, patterns[..i], to, cap);
        }
      }
      assert patterns[..|patterns|] == patterns;
    }

    /** `_timestamps_for_url`: answered from the memo when the URL is in it,
        else queried once and memoised, a failure memoised as no timestamps. */
    method TimestampsForUrl(url: Url, now: int) returns (r: seq<string>)
      requires Valid()
      modifies this
      ensures Valid()
      ensures r == KnownTimestamps(archive.captures(url))
      ensures cdxCache == old(cdxCache)[url := r]
      ensures unavailableUntil == if url in old(cdxCache) then old(unavailableUntil)
                                  else WindowAfter(old(unavailableUntil), StatusOf(archive.captures(url)), now)
    {
      if url in cdxCache {
        r := cdxCache[url];
        return;
      }
      var reply := archive.captures(url);
      Observe(StatusOf(reply), now);
      if reply.Failed? || |reply.rows| <= 1 {
        r := [];
      } else {
        var ascending := SortStrings(RowTimestamps(reply.rows));
        r := Reverse(ascending);
      }
      cdxCache := cdxCache[url := r];
    }

    /** `_download_at_timestamp`. */
    method DownloadAtTimestamp(url: Url, timestamp: string, now: int) returns (r: Option<Capture>)
      modifies this
      ensures r == CaptureOf(archive.raw(timestamp, url), timestamp)
      ensures unavailableUntil == WindowAfter(old(unavailableUntil), RawStatus(archive.raw(timestamp, url)), now)
      ensures cdxCache == old(cdxCache)
    {
      var reply := archive.raw(timestamp, url);
      Observe(RawStatus(reply), now);
      match reply {
        case RawFailed(_) =>
          r := None;
        case Response(body, contentType) =>
          if body == [] {
            r := None;
          } else {
            r := Some(Capture(body, NormalizeMime(contentType), timestamp));
          }
      }
    }

    /** `_download_with_repair`: the known timestamps are fetched first,
        then the candidates are downloaded in turn until one yields a
        capture. */
    method DownloadWithRepair(url: Url, latest: string, now: int) returns (r: Option<Capture>)
      requires Valid()
      modifies this
      ensures Valid()
      ensures var cands := RepairCandidates(latest, KnownTimestamps(archive.captures(url)));
        && r == FirstCapture(archive, url, cands)
        && unavailableUntil == WindowIf((url !in old(cdxCache) && Is503(StatusOf(archive.captures(url))))
                                        || RepairSaw503(archive, url, cands), old(unavailableUntil), now)
      ensures cdxCache == old(cdxCache)[url := KnownTimestamps(archive.captures(url))]
      ensures r.Some? ==> r.value.body != [] && (r.value.timestamp == latest || Lt(r.value.timestamp, latest))
    {
      ghost var u0 := unavailableUntil;
      var known := TimestampsForUrl(url, now);
      var cands := [latest] + Filter(known, t => OlderThan(latest, t));
      assert cands == RepairCandidates(latest, known);
      r := TryCandidates(url, cands, now);
      ExtendIdempotent(u0, now, DefaultHold);
      RepairNearest(archive, url, latest, known);
    }

    /** The download loop of `_download_with_repair`. */
    method TryCandidates(url: Url, cands: seq<string>, now: int) returns (r: Option<Capture>)
      modifies this
      ensures r == FirstCapture(archive, url, cands)
      ensures r.Some? ==> r.value.body != []
      ensures unavailableUntil == WindowIf(RepairSaw503(archive, url, cands), old(unavailableUntil), now)
      ensures cdxCache == old(cdxCache)
    {
      ghost var u0 := unavailableUntil;
      ExtendIdempotent(u0, now, DefaultHold);
      var i := 0;
      while i < |cands|
        invariant 0 <= i <= |cands|
        invariant forall j :: 0 <= j < i ==> !Hit(archive.raw(cands[j], url))
        invariant unavailableUntil == WindowIf(exists j :: 0 <= j < i && Is503(RawStatus(archive.raw(cands[j], url))), u0, now)
        invariant cdxCache == old(cdxCache)
      {
        r := DownloadAtTimestamp(url, cands[i], now);
        if r.Some? {
          FirstHitAt(archive, url, cands, i);
          return;
        }
        i := i + 1;
      }
      FirstHitAt(archive, url, cands, i);
      r := None;
    }
  }

  lemma AnySaw503Snoc(archive: Archive, vs: seq<Url>, i: nat, caps: seq<int>)
    requires i < |vs|
    ensures AnySaw503(archive, vs[..i + 1], caps)
        <==> AnySaw503(archive, vs[..i], caps) || LadderSaw503(archive, vs[i], false, caps) || LadderSaw503(archive, vs[i], true, caps)
  {
    assert vs[..i + 1][i] == vs[i];
    if AnySaw503(archive, vs[..i + 1], caps) {
      var j :| 0 <= j < i + 1 && (LadderSaw503(archive, vs[..i + 1][j], false, caps) || LadderSaw503(archive, vs[..i + 1][j], true, caps));
      if j < i { assert vs[..i + 1][j] == vs[..i][j]; }
    }
    if AnySaw503(archive, vs[..i], caps) {
      var j :| 0 <= j < i && (LadderSaw503(archive, vs[..i][j], false, caps) || LadderSaw503(archive, vs[..i][j], true, caps));
      assert vs[..i + 1][j] == vs[..i][j];
    }
  }

  lemma IndexSaw503Snoc(archive: Archive, patterns: seq<string>, i: nat, to: string, cap: int)
    requires i < |patterns|
    ensures IndexSaw503(archive, patterns[..i + 1], to, cap)
        <==> IndexSaw503(archive, patterns[..i], to, cap) || Is503(StatusOf(archive.index(patterns[i], to, cap)))
  {
    assert patterns[..i + 1][i] == patterns[i];
    if IndexSaw503(archive, patterns[..i + 1], to, cap) {
      var j :| 0 <= j < i + 1 && Is503(StatusOf(archive.index(patterns[..i + 1][j], to, cap)));
      if j < i { assert patterns[..i + 1][j] == patterns[..i][j]; }
    }
    if IndexSaw503(archive, patterns[..i], to, cap) {
      var j :| 0 <= j < i && Is503(StatusOf(archive.index(patterns[..i][j], to, cap)));
      assert patterns[..i + 1][j] == patterns[..i][j];
    }
  }

  lemma ListedUnionSnoc(archive: Archive, vs: seq<Url>, i: nat, successOnly: bool, caps: seq<int>)
    requires i < |vs|
    ensures ListedUnion(archive, vs[..i + 1], successOnly, caps)
         == ListedUnion(archive, vs[..i], successOnly, caps) + (set t | t in OrEmpty(LadderListing(archive, vs[i], successOnly, caps)))
  {
    assert vs[..i + 1][..i] == vs[..i];
    assert vs[..i + 1][i] == vs[i];
    assert ListedBy(archive, successOnly, caps)(vs[i]) == set t | t in OrEmpty(LadderListing(archive, vs[i], successOnly, caps));
  }

  lemma RowsForSnoc(archive: Archive, vs: seq<Url>, i: nat, caps: seq<int>)
    requires i < |vs|
    ensures RowsFor(archive, vs[..i + 1], caps) == RowsFor(archive, vs[..i], caps) + [RowFor(archive, vs[i], caps)]
  {
    var a := RowsFor(archive, vs[..i + 1], caps);
    var b := RowsFor(archive, vs[..i], caps) + [RowFor(archive, vs[i], caps)];
    assert |a| == |b|;
    forall j | 0 <= j < |a| ensures a[j] == b[j] {
      if j < i {
        assert vs[..i + 1][j] == vs[..i][j];
      }
    }
  }

  lemma FailedVariantsSnoc(archive: Archive, vs: seq<Url>, i: nat, caps: seq<int>)
    requires i < |vs|
    ensures FailedVariants(archive, vs[..i + 1], caps)
         == FailedVariants(archive, vs[..i], caps) + (if VariantFailed(archive, vs[i], caps) then 1 else 0)
  {
    assert vs[..i + 1][..i] == vs[..i];
    assert vs[..i + 1][i] == vs[i];
  }

  lemma IndexRowsSnoc(archive: Archive, patterns: seq<string>, i: nat, to: string, cap: int)
    requires i < |patterns|
    ensures IndexRows(archive, patterns[..i + 1], to, cap)
         == IndexRows(archive, patterns[..i], to, cap) + DataRows(archive.index(patterns[i], to, cap))
  {
    assert patterns[..i + 1][..i] == patterns[..i];
    assert patterns[..i + 1][i] == patterns[i];
  }

  lemma FirstHitAt(archive: Archive, url: Url, cands: seq<string>, i: nat)
    requires i <= |cands|
    requires forall j :: 0 <= j < i ==> !Hit(archive.raw(cands[j], url))
    requires i < |cands| ==> Hit(archive.raw(cands[i], url))
    ensures FirstHit(archive, url, cands) == i
  {
  }

  /** The inner loop of `_collect_cdx_rows` over one answer's data rows:
      incomplete rows are skipped and a row is kept only when its key is
      new. `seen` is the key set of `kept`, as the dict's keys are. */
  method Absorb(kept: seq<seq<string>>, seen: set<string>, ghost before: seq<seq<string>>, data: seq<seq<string>>)
    returns (kept': seq<seq<string>>, seen': set<string>)
    requires kept == DedupBy(before, CdxKey)
    requires seen == Keys(kept, CdxKey)
    ensures kept' == DedupBy(before + Filter(data, Complete), CdxKey)
    ensures seen' == Keys(kept', CdxKey)
  {
    kept', seen' := kept, seen;
    assert before + Filter(data[..0], Complete) == before;
    for j := 0 to |data|
      invariant kept' == DedupBy(before + Filter(data[..j], Complete), CdxKey)
      invariant seen' == Keys(kept', CdxKey)
    {
      var row := data[j];
      ghost var prefix := before + Filter(data[..j], Complete);
      assert data[..j + 1] == data[..j] + [row];
      FilterConcat(data[..j], [row], Complete);
      assert Filter([row], Complete) == if Complete(row) then [row] else [];
      if |row| >= 5 {
        var key := row[1] + "|" + row[4];
        assert before + Filter(data[..j + 1], Complete) == prefix + [row];
        DedupByStep(prefix, row, CdxKey);
        if key !in seen' {
          KeysSnoc(kept', row, CdxKey);
          kept' := kept' + [row];
          seen' := seen' + {key};
        }
      } else {
        assert before + Filter(data[..j + 1], Complete) == prefix;
      }
    }
    assert data[..|data|] == data;
  }
}
