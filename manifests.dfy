/** The manifest of a finished download and the bookkeeping of
    `download_missing`: the `files` list read into a dict keyed by URL, the
    list of missing URLs, and the loop that fetches them, adds each saved
    file to the dict and counts what it did. The fetches and the writes are
    parameters here; the module that runs them against the archive is
    `Reconcile`. */
module Manifests {
  import opened Common
  import opened Seqs
  import opened Upstream

  // ---------------------------------------------------------------------
  // The disk

  /** A path as its components; the empty path is the root of the disk. */
  type Path = seq<string>

  function Name(p: Path): string { if p == [] then "" else p[|p| - 1] }

  function Parent(p: Path): Path { if p == [] then p else p[..|p| - 1] }

  /** One entry of the manifest's `files` list: an object with its `url`,
      `local_path`, `mime` and `timestamp` (an absent or empty member is
      ""), or anything that is not an object. */
  datatype ManifestItem = Entry(url: string, localPath: string, mime: string, timestamp: string) | NotAnObject

  /** What `download_missing` adds to a manifest. */
  datatype RepairStats = RepairStats(snapshot: string, attempted: nat, added: nat, failed: nat, recovered: nat,
                                     bytesAdded: nat)

  /** A `manifest.json`: its `files`, `files_downloaded`, `files_recovered`
      and `last_missing_repair` members; the rest of `ArchiveResult` is
      carried along unchanged and not modelled. */
  datatype Manifest = Manifest(files: seq<ManifestItem>, filesDownloaded: int, filesRecovered: int,
                               lastRepair: Option<RepairStats>)

  /** The disk: the folders with a `manifest.json`, and the size of every
      regular file, by folder and relative path. */
  datatype Disk = Disk(manifests: map<Path, Manifest>, sizes: map<(Path, string), nat>)

  // ---------------------------------------------------------------------
  // download_missing: the manifest as a dict

  /** A dict from cleaned URL to manifest entry, in insertion order. */
  type Table = seq<(string, ManifestItem)>

  function TableKeys(t: Table): set<string> { set e | e in t :: e.0 }

  /** No key is stored twice. */
  predicate DistinctKeys(t: Table) {
    t == [] || (t[0].0 !in TableKeys(t[1..]) && DistinctKeys(t[1..]))
  }

  /** `d[k]`: the entry stored under `k`. */
  function Lookup(t: Table, k: string): Option<ManifestItem> {
    if t == [] then None else if t[0].0 == k then Some(t[0].1) else Lookup(t[1..], k)
  }

  /** `d[k] = v`: a known key keeps its place and takes the new entry, a new
      key goes last. */
  function Put(t: Table, k: string, v: ManifestItem): (r: Table)
    ensures |r| == if k in TableKeys(t) then |t| else |t| + 1
    ensures TableKeys(r) == TableKeys(t) + {k}
    ensures k !in TableKeys(t) ==> r == t + [(k, v)]
  {
    if t == [] then [(k, v)]
    else if t[0].0 == k then
      assert TableKeys(t) == {k} + TableKeys(t[1..]) by { assert t == [t[0]] + t[1..]; }
      [(k, v)] + t[1..]
    else
      assert TableKeys(t) == {t[0].0} + TableKeys(t[1..]) by { assert t == [t[0]] + t[1..]; }
      var rest := Put(t[1..], k, v);
      assert TableKeys([t[0]] + rest) == {t[0].0} + TableKeys(rest);
      [t[0]] + rest
  }

  /** After `d[k] = v`, `d[k]` is `v`. */
  lemma {:induction false} PutLookup(t: Table, k: string, v: ManifestItem)
    ensures Lookup(Put(t, k, v), k) == Some(v)
  {
    if t != [] && t[0].0 != k {
      PutLookup(t[1..], k, v);
    }
  }

  /** `d[k] = v` leaves every other key's entry alone. */
  lemma {:induction false} PutLookupOther(t: Table, k: string, v: ManifestItem, other: string)
    requires other != k
    ensures Lookup(Put(t, k, v), other) == Lookup(t, other)
  {
    if t != [] && t[0].0 != k {
      PutLookupOther(t[1..], k, v, other);
    }
  }

  /** `d[k] = v` holds the old entries and the new one, nothing else. */
  lemma {:induction false} PutMembers(t: Table, k: string, v: ManifestItem)
    ensures forall e :: e in Put(t, k, v) ==> e in t || e == (k, v)
  {
    if t != [] && t[0].0 != k {
      PutMembers(t[1..], k, v);
      assert forall e :: e in t[1..] ==> e in t;
    }
  }

  lemma TableKeysCons(t: Table)
    requires t != []
    ensures TableKeys(t) == {t[0].0} + TableKeys(t[1..])
  {
    assert t == [t[0]] + t[1..];
  }

  /** `d[k] = v` keeps the keys distinct. */
  lemma {:induction false} PutDistinct(t: Table, k: string, v: ManifestItem)
    requires DistinctKeys(t)
    ensures DistinctKeys(Put(t, k, v))
  {
    if t == [] {
      assert Put(t, k, v) == [(k, v)];
    } else if t[0].0 == k {
      assert Put(t, k, v)[1..] == t[1..];
    } else {
      var rest := Put(t[1..], k, v);
      PutDistinct(t[1..], k, v);
      TableKeysCons(t);
      assert Put(t, k, v)[1..] == rest;
    }
  }

  /** `list(d.values())`. */
  function Values(t: Table): (r: seq<ManifestItem>)
    ensures |r| == |t|
  {
    if t == [] then [] else [t[0].1] + Values(t[1..])
  }

  /** The values are listed in the dict's order. */
  lemma {:induction false} ValuesAt(t: Table)
    ensures forall i :: 0 <= i < |t| ==> Values(t)[i] == t[i].1
  {
    if t != [] {
      ValuesAt(t[1..]);
      assert forall i :: 1 <= i < |t| ==> t[1..][i - 1] == t[i];
    }
  }

  /** A dict with distinct keys has as many entries as keys. */
  lemma {:induction false} DistinctKeysCard(t: Table)
    requires DistinctKeys(t)
    ensures |TableKeys(t)| == |t|
  {
    if t != [] {
      TableKeysCons(t);
      DistinctKeysCard(t[1..]);
    }
  }

  // ---------------------------------------------------------------------
  // The plan of `download_missing`

  /** `missing_urls`: the expected URLs, first occurrences only, that are
      not keys of the manifest dict. */
  function MissingPlan(expected: seq<string>, present: set<string>): seq<string> {
    Filter(Dedup(expected), u => u !in present)
  }

  /** The plan names each URL once, and names exactly the expected URLs not
      present. */
  lemma MissingPlanMembers(expected: seq<string>, present: set<string>)
    ensures NoDup(MissingPlan(expected, present))
    ensures forall u :: u in MissingPlan(expected, present) <==> u in expected && u !in present
  {
    FilterNoDup(Dedup(expected), u => u !in present);
    forall u ensures u in MissingPlan(expected, present) <==> u in expected && u !in present {
      FilterMembership(Dedup(expected), u => u !in present, u);
    }
  }

  /** Once every expected URL is present there is nothing left to fetch;
      more present URLs never add to the plan. */
  lemma MissingPlanShrinks(expected: seq<string>, present: set<string>, more: set<string>)
    requires present <= more
    ensures forall u :: u in MissingPlan(expected, more) ==> u in MissingPlan(expected, present)
    ensures (forall u :: u in expected ==> u in present) ==> MissingPlan(expected, present) == []
  {
    MissingPlanMembers(expected, present);
    MissingPlanMembers(expected, more);
    var plan := MissingPlan(expected, present);
    if plan != [] {
      assert plan[0] in plan;
    }
  }

  /** The first `n` URLs of the plan are distinct, expected and absent; a
      missing URL is left out of them only when there are `n` of them. */
  lemma CappedPlan(expected: seq<string>, present: set<string>, n: nat)
    ensures var t := Take(MissingPlan(expected, present), n);
      && NoDup(t) && |t| <= n
      && (forall u :: u in t ==> u in expected && u !in present)
      && (forall u :: u in expected && u !in present && u !in t ==> |t| == n)
  {
    var plan := MissingPlan(expected, present);
    var t := Take(plan, n);
    MissingPlanMembers(expected, present);
    assert t == plan[..|t|];
    forall i, j | 0 <= i < j < |t| ensures t[i] != t[j] {
      assert t[i] == plan[i] && t[j] == plan[j];
    }
    forall u | u in t ensures u in plan {
      var i :| 0 <= i < |t| && t[i] == u;
      assert plan[i] == u;
    }
  }

  // ---------------------------------------------------------------------
  // The loop of `download_missing`

  /** What the loop of `download_missing` has done so far: the dict, the
      four counters and the sizes of the files on disk. */
  datatype Repair = Repair(table: Table, added: nat, failed: nat, recovered: nat, bytesAdded: nat,
                           sizes: map<(Path, string), nat>)

  /** One target with what `_download_with_repair` gave for it: nothing
      counts a failure; a file that cannot be written counts a failure, or
      raises without `skip_errors`; a saved file goes into the dict under
      the target's URL, and counts as recovered when it comes from another
      snapshot than the chosen one. `writable` says which files can be
      written under the folder. */
  function RepairOne(localOf: (string, string) -> string, writable: string -> bool, skipErrors: bool, dir: Path, chosen: string,
                     s: Repair, u: string, got: Option<Capture>): (r: Result<Repair, Failure>)
    ensures r.Err? <==> !skipErrors && got.Some? && !writable(localOf(u, got.value.mime))
    ensures r.Err? ==> r.error == WriteFailed(localOf(u, got.value.mime))
    ensures r.Ok? ==> r.value.added + r.value.failed == s.added + s.failed + 1
  {
    if got.None? then Ok(s.(failed := s.failed + 1))
    else
      var local := localOf(u, got.value.mime);
      if !writable(local) then
        if skipErrors then Ok(s.(failed := s.failed + 1)) else Err(WriteFailed(local))
      else
        Ok(Repair(Put(s.table, u, Entry(u, local, got.value.mime, got.value.timestamp)),
                  s.added + 1, s.failed, s.recovered + (if got.value.timestamp != chosen then 1 else 0),
                  s.bytesAdded + |got.value.body|, s.sizes[(dir, local) := |got.value.body|]))
  }

  /** One target leaves the dict alone or files the fetched capture under the target. */
  lemma RepairOneTable(localOf: (string, string) -> string, writable: string -> bool, skipErrors: bool, dir: Path,
                       chosen: string, s: Repair, u: string, got: Option<Capture>)
    ensures var r := RepairOne(localOf, writable, skipErrors, dir, chosen, s, u, got);
      r.Ok? ==> (|| r.value.table == s.table
                 || (got.Some? && r.value.table
                     == Put(s.table, u, Entry(u, localOf(u, got.value.mime), got.value.mime, got.value.timestamp))))
  {
  }

  /** Whether the target's file gets saved. */
  ghost predicate Stored(fetch: string -> Option<Capture>, localOf: (string, string) -> string, writable: string -> bool, u: string) {
    fetch(u).Some? && writable(localOf(u, fetch(u).value.mime))
  }

  /** The loop of `download_missing` over the targets, in order. */
  ghost function Repaired(fetch: string -> Option<Capture>, localOf: (string, string) -> string, writable: string -> bool, skipErrors: bool, dir: Path,
                          chosen: string, s: Repair, us: seq<string>): Result<Repair, Failure>
    decreases |us|
  {
    if us == [] then Ok(s)
    else
      var before := Repaired(fetch, localOf, writable, skipErrors, dir, chosen, s, us[..|us| - 1]);
      if before.Err? then before
      else
        var u := us[|us| - 1];
        RepairOne(localOf, writable, skipErrors, dir, chosen, before.value, u, fetch(u))
  }

  /** A raised error ends the loop: it is the loop's outcome. */
  lemma {:induction false} RepairedErrSticky(fetch: string -> Option<Capture>, localOf: (string, string) -> string, writable: string -> bool,
                                             skipErrors: bool, dir: Path, chosen: string, s: Repair,
                                             us: seq<string>, k: nat)
    requires k <= |us|
    requires Repaired(fetch, localOf, writable, skipErrors, dir, chosen, s, us[..k]).Err?
    ensures Repaired(fetch, localOf, writable, skipErrors, dir, chosen, s, us)
         == Repaired(fetch, localOf, writable, skipErrors, dir, chosen, s, us[..k])
    decreases |us| - k
  {
    if k < |us| {
      assert us[..k + 1][..k] == us[..k];
      RepairedErrSticky(fetch, localOf, writable, skipErrors, dir, chosen, s, us, k + 1);
    } else {
      assert us[..k] == us;
    }
  }

  /** `Repaired` one target further. */
  lemma RepairedNext(fetch: string -> Option<Capture>, localOf: (string, string) -> string, writable: string -> bool, skipErrors: bool, dir: Path,
                     chosen: string, s: Repair, us: seq<string>, i: nat, cur: Repair)
    requires i < |us|
    requires Repaired(fetch, localOf, writable, skipErrors, dir, chosen, s, us[..i]) == Ok(cur)
    ensures Repaired(fetch, localOf, writable, skipErrors, dir, chosen, s, us[..i + 1])
         == RepairOne(localOf, writable, skipErrors, dir, chosen, cur, us[i], fetch(us[i]))
  {
    assert us[..i + 1][..i] == us[..i];
  }

  // ---------------------------------------------------------------------
  // download_missing: what the loop adds up to

  /** `u => Stored(...)`, as one function value. */
  ghost function StoredP(fetch: string -> Option<Capture>, localOf: (string, string) -> string, writable: string -> bool): string -> bool {
    u => Stored(fetch, localOf, writable, u)
  }

  /** Whether the target's file is saved from another snapshot than the chosen one. */
  ghost function RecoveredP(fetch: string -> Option<Capture>, localOf: (string, string) -> string, writable: string -> bool, chosen: string): string -> bool {
    u => Stored(fetch, localOf, writable, u) && fetch(u).value.timestamp != chosen
  }

  /** The targets whose files are saved. */
  ghost function StoredSet(fetch: string -> Option<Capture>, localOf: (string, string) -> string, writable: string -> bool,
                           us: seq<string>): set<string> {
    set u | u in us && Stored(fetch, localOf, writable, u)
  }

  /** The books of a finished loop: every target is added or failed; the
      added ones are the saved ones, the recovered ones those saved from
      another snapshot; the dict keeps its entries in place and gains one
      new key per saved file. */
  ghost predicate RepairAccounts(fetch: string -> Option<Capture>, localOf: (string, string) -> string, writable: string -> bool, chosen: string,
                                 s: Repair, us: seq<string>, s': Repair) {
    RepairCounts(fetch, localOf, writable, chosen, s, us, s') && RepairTable(fetch, localOf, writable, s.table, us, s'.table)
  }

  ghost predicate RepairCounts(fetch: string -> Option<Capture>, localOf: (string, string) -> string, writable: string -> bool, chosen: string,
                               s: Repair, us: seq<string>, s': Repair) {
    && s'.added + s'.failed == s.added + s.failed + |us|
    && s'.added == s.added + CountWhere(us, StoredP(fetch, localOf, writable))
    && s'.recovered == s.recovered + CountWhere(us, RecoveredP(fetch, localOf, writable, chosen))
    && s.bytesAdded <= s'.bytesAdded
  }

  ghost predicate RepairTable(fetch: string -> Option<Capture>, localOf: (string, string) -> string, writable: string -> bool,
                              t0: Table, us: seq<string>, t: Table) {
    && |t| == |t0| + CountWhere(us, StoredP(fetch, localOf, writable))
    && t[..|t0|] == t0
    && DistinctKeys(t)
    && TableKeys(t) == TableKeys(t0) + StoredSet(fetch, localOf, writable, us)
  }

  lemma StoredSetSnoc(fetch: string -> Option<Capture>, localOf: (string, string) -> string, writable: string -> bool,
                      us: seq<string>, u: string)
    ensures StoredSet(fetch, localOf, writable, us + [u])
         == StoredSet(fetch, localOf, writable, us)
          + (if Stored(fetch, localOf, writable, u) then {u} else {})
  {
    forall x | x in us + [u] ensures x in us || x == u { }
  }

  /** Recovered files are among the added ones. */
  lemma {:induction false} RecoveredAmongStored(fetch: string -> Option<Capture>, localOf: (string, string) -> string, writable: string -> bool,
                                                chosen: string, us: seq<string>)
    ensures CountWhere(us, RecoveredP(fetch, localOf, writable, chosen))
         <= CountWhere(us, StoredP(fetch, localOf, writable))
  {
    if us != [] {
      RecoveredAmongStored(fetch, localOf, writable, chosen, us[1..]);
    }
  }

  /** The books stay right over one more target. */
  lemma RepairOneAccounts(fetch: string -> Option<Capture>, localOf: (string, string) -> string, writable: string -> bool, skipErrors: bool, dir: Path,
                          chosen: string, s: Repair, init: seq<string>, u: string, s1: Repair)
    requires DistinctKeys(s.table) && u !in TableKeys(s.table) && u !in init
    requires RepairAccounts(fetch, localOf, writable, chosen, s, init, s1)
    requires RepairOne(localOf, writable, skipErrors, dir, chosen, s1, u, fetch(u)).Ok?
    ensures RepairAccounts(fetch, localOf, writable, chosen, s, init + [u],
                           RepairOne(localOf, writable, skipErrors, dir, chosen, s1, u, fetch(u)).value)
  {
    var got := fetch(u);
    var s2 := RepairOne(localOf, writable, skipErrors, dir, chosen, s1, u, got).value;
    CountWhereSnoc(init, u, StoredP(fetch, localOf, writable));
    CountWhereSnoc(init, u, RecoveredP(fetch, localOf, writable, chosen));
    StoredSetSnoc(fetch, localOf, writable, init, u);
    if Stored(fetch, localOf, writable, u) {
      var e := Entry(u, localOf(u, got.value.mime), got.value.mime, got.value.timestamp);
      SavedAccounts(fetch, localOf, writable, chosen, s, init, u, s1, s2, e);
    } else {
      FailedAccounts(fetch, localOf, writable, chosen, s, init, u, s1, s2);
    }
  }

  lemma SavedAccounts(fetch: string -> Option<Capture>, localOf: (string, string) -> string, writable: string -> bool, chosen: string,
                      s: Repair, init: seq<string>, u: string, s1: Repair, s2: Repair, e: ManifestItem)
    requires u !in TableKeys(s.table) && u !in init && Stored(fetch, localOf, writable, u)
    requires RepairAccounts(fetch, localOf, writable, chosen, s, init, s1)
    requires s2.table == Put(s1.table, u, e) && s2.added == s1.added + 1 && s2.failed == s1.failed
    requires s2.recovered == s1.recovered + (if RecoveredP(fetch, localOf, writable, chosen)(u) then 1 else 0)
    requires s1.bytesAdded <= s2.bytesAdded
    requires CountWhere(init + [u], StoredP(fetch, localOf, writable))
          == CountWhere(init, StoredP(fetch, localOf, writable)) + 1
    requires CountWhere(init + [u], RecoveredP(fetch, localOf, writable, chosen))
          == CountWhere(init, RecoveredP(fetch, localOf, writable, chosen))
           + (if RecoveredP(fetch, localOf, writable, chosen)(u) then 1 else 0)
    requires StoredSet(fetch, localOf, writable, init + [u]) == StoredSet(fetch, localOf, writable, init) + {u}
    ensures RepairAccounts(fetch, localOf, writable, chosen, s, init + [u], s2)
  {
    SavedTable(fetch, localOf, writable, s.table, init, u, s1.table, e);
  }

  lemma SavedTable(fetch: string -> Option<Capture>, localOf: (string, string) -> string, writable: string -> bool,
                   t0: Table, init: seq<string>, u: string, t1: Table, e: ManifestItem)
    requires u !in TableKeys(t0) && u !in init && Stored(fetch, localOf, writable, u)
    requires RepairTable(fetch, localOf, writable, t0, init, t1)
    requires CountWhere(init + [u], StoredP(fetch, localOf, writable))
          == CountWhere(init, StoredP(fetch, localOf, writable)) + 1
    requires StoredSet(fetch, localOf, writable, init + [u]) == StoredSet(fetch, localOf, writable, init) + {u}
    ensures RepairTable(fetch, localOf, writable, t0, init + [u], Put(t1, u, e))
  {
    assert u !in TableKeys(t1);
    assert Put(t1, u, e) == t1 + [(u, e)];
    PutDistinct(t1, u, e);
    assert Put(t1, u, e)[..|t0|] == t1[..|t0|];
  }

  lemma FailedAccounts(fetch: string -> Option<Capture>, localOf: (string, string) -> string, writable: string -> bool, chosen: string,
                       s: Repair, init: seq<string>, u: string, s1: Repair, s2: Repair)
    requires !Stored(fetch, localOf, writable, u)
    requires RepairAccounts(fetch, localOf, writable, chosen, s, init, s1)
    requires s2 == s1.(failed := s1.failed + 1)
    requires CountWhere(init + [u], StoredP(fetch, localOf, writable))
          == CountWhere(init, StoredP(fetch, localOf, writable))
    requires CountWhere(init + [u], RecoveredP(fetch, localOf, writable, chosen))
          == CountWhere(init, RecoveredP(fetch, localOf, writable, chosen))
    requires StoredSet(fetch, localOf, writable, init + [u]) == StoredSet(fetch, localOf, writable, init)
    ensures RepairAccounts(fetch, localOf, writable, chosen, s, init + [u], s2)
  {
  }

  /** What the whole loop adds up to, when no error is raised; the targets
      are distinct and not yet in the dict, as the plan makes them. */
  lemma {:induction false} RepairedAccounts(fetch: string -> Option<Capture>, localOf: (string, string) -> string, writable: string -> bool,
                                            skipErrors: bool, dir: Path, chosen: string, s: Repair, us: seq<string>)
    requires DistinctKeys(s.table) && NoDup(us)
    requires forall u :: u in us ==> u !in TableKeys(s.table)
    ensures Repaired(fetch, localOf, writable, skipErrors, dir, chosen, s, us).Ok? ==>
              RepairAccounts(fetch, localOf, writable, chosen, s, us,
                             Repaired(fetch, localOf, writable, skipErrors, dir, chosen, s, us).value)
    decreases |us|
  {
    if us == [] {
      assert StoredSet(fetch, localOf, writable, us) == {};
      assert s.table[..|s.table|] == s.table;
    } else {
      var init := us[..|us| - 1];
      var u := us[|us| - 1];
      assert us == init + [u];
      assert NoDup(init) by {
        forall i, j | 0 <= i < j < |init| ensures init[i] != init[j] { assert init[i] == us[i] && init[j] == us[j]; }
      }
      assert u !in init by {
        forall k | 0 <= k < |init| ensures init[k] != u { assert init[k] == us[k]; }
      }
      RepairedAccounts(fetch, localOf, writable, skipErrors, dir, chosen, s, init);
      var before := Repaired(fetch, localOf, writable, skipErrors, dir, chosen, s, init);
      if before.Ok? && Repaired(fetch, localOf, writable, skipErrors, dir, chosen, s, us).Ok? {
        RepairOneAccounts(fetch, localOf, writable, skipErrors, dir, chosen, s, init, u, before.value);
      }
    }
  }

  /** With `skip_errors` the loop never raises; without it, it raises
      exactly when some fetched target's file cannot be written. */
  lemma {:induction false} RepairedRaises(fetch: string -> Option<Capture>, localOf: (string, string) -> string, writable: string -> bool,
                                          skipErrors: bool, dir: Path, chosen: string, s: Repair, us: seq<string>)
    ensures Repaired(fetch, localOf, writable, skipErrors, dir, chosen, s, us).Err?
        <==> !skipErrors && exists u :: u in us && fetch(u).Some?
                                      && !writable(localOf(u, fetch(u).value.mime))
    ensures Repaired(fetch, localOf, writable, skipErrors, dir, chosen, s, us).Err? ==>
              Repaired(fetch, localOf, writable, skipErrors, dir, chosen, s, us).error.WriteFailed?
    decreases |us|
  {
    if us != [] {
      var init := us[..|us| - 1];
      var u := us[|us| - 1];
      assert us == init + [u];
      RepairedRaises(fetch, localOf, writable, skipErrors, dir, chosen, s, init);
      forall x ensures x in us <==> x in init || x == u { }
    }
  }
}
