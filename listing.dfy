/** Snapshot listing as pure functions of the archive's answers: what one
    capture-index query yields (`_list_snapshots`), the row-cap ladder that
    retries with smaller caps (`_list_snapshots_adaptive`), the window during
    which the archive counts as unavailable after a 503, and what the merge
    over URL variants accumulates (`_merge_variant_snapshots`). The class
    `Archive.ArchiveTool` runs these steps and is proved to agree with them. */
module Listing {
  import opened Common
  import opened Seqs
  import opened Lex
  import opened Urls
  import opened Upstream

  // ---------------------------------------------------------------------
  // The unavailability window

  /** The hold a 503 answer opens by default. */
  const DefaultHold := 120

  /** `_mark_archive_unavailable`: the window is extended to at least
      `now + max(30, hold)` and never shortened. */
  function Extend(until: int, now: int, hold: int): (r: int)
    ensures r >= until
    ensures r >= now + 30 && r >= now + hold
    ensures r == until || r == now + (if hold < 30 then 30 else hold)
  {
    var end := now + (if hold < 30 then 30 else hold);
    if until < end then end else until
  }

  /** `_archive_unavailable_recent`. */
  predicate OpenAt(until: int, now: int) { now < until }

  /** Marking opens the window for at least the next 30 seconds. */
  lemma ExtendOpens(until: int, now: int, hold: int, t: int)
    requires now <= t < now + 30
    ensures OpenAt(Extend(until, now, hold), t)
  {
  }

  /** Marking twice at the same moment is marking once. */
  lemma ExtendIdempotent(until: int, now: int, hold: int)
    ensures Extend(Extend(until, now, hold), now, hold) == Extend(until, now, hold)
  {
  }

  function StatusOf(reply: CdxReply): Option<int> {
    if reply.Failed? then reply.status else None
  }

  /** The window after a request that ended with `status`. */
  function WindowAfter(until: int, status: Option<int>, now: int): (r: int)
    ensures r == until || r == Extend(until, now, DefaultHold)
    ensures Is503(status) ==> OpenAt(r, now)
    ensures !Is503(status) ==> r == until
  {
    if Is503(status) then Extend(until, now, DefaultHold) else until
  }

  // ---------------------------------------------------------------------
  // One listing

  /** The timestamps one answer lists: none for a failed request, none when
      there are no data rows, else the sorted set of valid timestamps. */
  ghost function Listed(reply: CdxReply): (r: Option<seq<string>>)
    ensures r.Some? <==> reply.Rows?
    ensures r.Some? ==> StrictlyAscending(r.value)
    ensures r.Some? ==> forall i :: 0 <= i < |r.value| ==> IsTimestamp(r.value[i])
    ensures r.Some? && |reply.rows| > 1 ==> forall t :: t in r.value <==> t in RowTimestamps(reply.rows)
    ensures r.Some? && |reply.rows| <= 1 ==> r.value == []
  {
    match reply
    case Failed(_) => None
    case Rows(rows) => Some(if |rows| <= 1 then [] else SortSet(RowTimestamps(rows)))
  }

  /** `_list_snapshots`: a failed request yields an empty list when not
      strict; when strict it is an "unavailable" error if it was a 503 or
      the window is open, else a "timed out" error. */
  ghost function ListingResult(reply: CdxReply, strict: bool, windowOpen: bool): (r: Result<seq<string>, Failure>)
    ensures r.Ok? <==> reply.Rows? || !strict
    ensures reply.Rows? ==> r == Ok(Listed(reply).value)
    ensures reply.Failed? && !strict ==> r == Ok([])
    ensures r.Err? ==> (r.error == ArchiveUnavailable <==> Is503(reply.status) || windowOpen)
    ensures r.Err? ==> r.error == ArchiveUnavailable || r.error == ListingTimedOut
  {
    match reply
    case Rows(_) => Ok(Listed(reply).value)
    case Failed(status) =>
      if !strict then Ok([])
      else if Is503(status) || windowOpen then Err(ArchiveUnavailable)
      else Err(ListingTimedOut)
  }

  // ---------------------------------------------------------------------
  // The row-cap ladder

  /** The caps tried in turn: the requested one, half of it but at least
      800, then 800 and 500. */
  function Attempts(maxRows: int): (r: seq<int>)
    ensures |r| == 4 && r[0] == maxRows && r[2] == 800 && r[3] == 500
    ensures r[1] >= 800 && r[1] >= maxRows / 2
    ensures maxRows >= 500 ==> forall i :: 0 <= i < |r| ==> r[i] >= 500
  {
    [maxRows, if 800 < maxRows / 2 then maxRows / 2 else 800, 800, 500]
  }

  /** The ladder as it runs: each cap is tried in strict mode until one
      answers; the result and the window afterwards. */
  ghost function Ladder(archive: Archive, url: Url, successOnly: bool, caps: seq<int>, until: int, now: int)
    : (r: (Result<seq<string>, Failure>, int))
    requires caps != []
    decreases |caps|
  {
    var reply := archive.listing(url, successOnly, caps[0]);
    var until' := WindowAfter(until, StatusOf(reply), now);
    var res := ListingResult(reply, true, OpenAt(until', now));
    if res.Ok? || |caps| == 1 then (res, until')
    else Ladder(archive, url, successOnly, caps[1..], until', now)
  }

  /** The index of the first cap the archive answers, |caps| if none. */
  function FirstAnswered(archive: Archive, url: Url, successOnly: bool, caps: seq<int>): (r: nat)
    ensures r <= |caps|
    ensures r < |caps| ==> archive.listing(url, successOnly, caps[r]).Rows?
    ensures forall i :: 0 <= i < r ==> archive.listing(url, successOnly, caps[i]).Failed?
  {
    if caps == [] then 0
    else if archive.listing(url, successOnly, caps[0]).Rows? then 0
    else 1 + FirstAnswered(archive, url, successOnly, caps[1..])
  }

  /** What the ladder lists, independent of the window: the listing of
      the first cap answered, or nothing when every cap failed. */
  ghost function LadderListing(archive: Archive, url: Url, successOnly: bool, caps: seq<int>): Option<seq<string>> {
    var k := FirstAnswered(archive, url, successOnly, caps);
    if k < |caps| then Listed(archive.listing(url, successOnly, caps[k])) else None
  }

  /** Whether one of the attempts the ladder makes answers 503. */
  predicate LadderSaw503(archive: Archive, url: Url, successOnly: bool, caps: seq<int>)
    decreases |caps|
  {
    caps != [] &&
    var reply := archive.listing(url, successOnly, caps[0]);
    Is503(StatusOf(reply)) || (reply.Failed? && LadderSaw503(archive, url, successOnly, caps[1..]))
  }

  /** The ladder returns the listing of the first cap the archive answers;
      it fails only when every cap fails, and then with an "unavailable"
      error exactly when a 503 was seen or the window was already open.
      The window afterwards is extended exactly when a 503 was seen. */
  lemma {:induction false} LadderSpec(archive: Archive, url: Url, successOnly: bool, caps: seq<int>, until: int, now: int)
    requires caps != []
    ensures var (res, until') := Ladder(archive, url, successOnly, caps, until, now);
      var listed := LadderListing(archive, url, successOnly, caps);
      var saw := LadderSaw503(archive, url, successOnly, caps);
      && (res.Ok? <==> listed.Some?)
      && (res.Ok? ==> res.value == listed.value)
      && (res.Err? ==> res.error == (if saw || OpenAt(until, now) then ArchiveUnavailable else ListingTimedOut))
      && until' == (if saw then Extend(until, now, DefaultHold) else until)
    decreases |caps|
  {
    var reply := archive.listing(url, successOnly, caps[0]);
    if reply.Failed? && |caps| > 1 {
      var until1 := WindowAfter(until, StatusOf(reply), now);
      LadderSpec(archive, url, successOnly, caps[1..], until1, now);
      ExtendIdempotent(until, now, DefaultHold);
    }
  }

  /** The caps `_merge_variant_snapshots` hands to the ladder. */
  function MergeCaps(cdxLimit: int): (r: seq<int>)
    ensures |r| == 4 && forall i :: 0 <= i < |r| ==> r[i] >= 500
  {
    Attempts(if cdxLimit < 500 then 500 else cdxLimit)
  }

  // ---------------------------------------------------------------------
  // The merge over variants

  function OrEmpty(o: Option<seq<string>>): seq<string> {
    if o.Some? then o.value else []
  }

  /** One variant's entry in the merge report. */
  datatype VariantRow = VariantRow(url: Url, captures: nat, okCaptures: nat)

  datatype Merged = Merged(all: seq<string>, ok: seq<string>, variants: seq<VariantRow>,
                           failedVariants: nat, variantCount: nat)

  /** The union of the sets `f` gives for each variant. */
  ghost function UnionOver(vs: seq<Url>, f: Url -> set<string>): set<string>
  {
    if vs == [] then {} else UnionOver(vs[..|vs| - 1], f) + f(vs[|vs| - 1])
  }

  lemma {:induction false} UnionOverMembership(vs: seq<Url>, f: Url -> set<string>, t: string)
    ensures t in UnionOver(vs, f) <==> exists i :: 0 <= i < |vs| && t in f(vs[i])
  {
    if vs != [] {
      var init := vs[..|vs| - 1];
      UnionOverMembership(init, f, t);
      if t in UnionOver(init, f) {
        var i :| 0 <= i < |init| && t in f(init[i]);
        assert vs[i] == init[i];
      } else if t !in f(vs[|vs| - 1]) {
        forall i | 0 <= i < |vs| ensures t !in f(vs[i]) {
          if i < |init| {
            assert vs[i] == init[i];
          }
        }
      }
    }
  }

  /** The timestamps one variant's ladder lists. */
  ghost function ListedBy(archive: Archive, successOnly: bool, caps: seq<int>): Url -> set<string>
  {
    v => set t | t in OrEmpty(LadderListing(archive, v, successOnly, caps))
  }

  /** The timestamps listed over a list of variants. */
  ghost function ListedUnion(archive: Archive, vs: seq<Url>, successOnly: bool, caps: seq<int>): (r: set<string>)
  {
    UnionOver(vs, ListedBy(archive, successOnly, caps))
  }

  /** A timestamp is merged exactly when some variant lists it. */
  lemma ListedUnionMembership(archive: Archive, vs: seq<Url>, successOnly: bool, caps: seq<int>, t: string)
    ensures t in ListedUnion(archive, vs, successOnly, caps)
        <==> exists i :: 0 <= i < |vs| && t in OrEmpty(LadderListing(archive, vs[i], successOnly, caps))
  {
    var f := ListedBy(archive, successOnly, caps);
    UnionOverMembership(vs, f, t);
    forall i | 0 <= i < |vs|
      ensures t in f(vs[i]) <==> t in OrEmpty(LadderListing(archive, vs[i], successOnly, caps))
    {
    }
  }

  /** A variant counts as failed when either of its two listings failed. */
  ghost predicate VariantFailed(archive: Archive, v: Url, caps: seq<int>) {
    LadderListing(archive, v, false, caps).None? || LadderListing(archive, v, true, caps).None?
  }

  ghost function RowFor(archive: Archive, v: Url, caps: seq<int>): VariantRow {
    VariantRow(v, |OrEmpty(LadderListing(archive, v, false, caps))|,
               |OrEmpty(LadderListing(archive, v, true, caps))|)
  }

  /** Whether any listing made for the variants answered 503. */
  ghost predicate AnySaw503(archive: Archive, vs: seq<Url>, caps: seq<int>) {
    exists i :: 0 <= i < |vs| && (LadderSaw503(archive, vs[i], false, caps) || LadderSaw503(archive, vs[i], true, caps))
  }

  // ---------------------------------------------------------------------
  // inspect

  /** The counts `inspect` reports: the total is raised to the status-200
      count when fewer captures of any status were merged, since the merge
      does not make `all` contain `ok`. */
  function InspectTotals(all: seq<string>, ok: seq<string>): (r: (nat, nat))
    ensures r.1 == |ok| && r.0 >= r.1
    ensures r.0 == |all| || r.0 == |ok|
    ensures |all| >= |ok| ==> r.0 == |all|
  {
    if |all| < |ok| then (|ok|, |ok|) else (|all|, |ok|)
  }

  /** The error `inspect` raises when neither the target, its root nor the
      fallback produced a snapshot: "unavailable" while the window is open,
      "no response" when every variant failed, else "nothing archived". */
  function InspectFailure(m: Merged, windowOpen: bool): (r: Failure)
    ensures windowOpen ==> r == ArchiveUnavailable
    ensures !windowOpen ==> (r == WaybackNoResponse <==> m.failedVariants >= m.variantCount)
    ensures r == ArchiveUnavailable || r == WaybackNoResponse || r == NoArchivedSnapshots
  {
    if windowOpen then ArchiveUnavailable
    else if m.failedVariants >= m.variantCount then WaybackNoResponse
    else NoArchivedSnapshots
  }

  /** The snapshot list `inspect` shows: the newest `max(5, limit)`
      snapshots, newest first. */
  function RecentFirst(all: seq<string>, displayLimit: int): (r: seq<string>)
    ensures var n := if displayLimit < 5 then 5 else displayLimit;
      |r| == (if n < |all| then n else |all|)
    ensures forall i :: 0 <= i < |r| ==> r[i] == all[|all| - 1 - i]
  {
    var n := if displayLimit < 5 then 5 else displayLimit;
    var start := if n < |all| then |all| - n else 0;
    Reverse(all[start..])
  }
}
