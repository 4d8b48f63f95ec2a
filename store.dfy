/** The project database (db.py) as in-memory tables: the `projects` table
    keyed by normalised target URL, and the rows of the cache and history
    tables by the two columns the maintenance statements read. The SQL
    statements become operations on those tables; the clock is `now`, in
    whole seconds, and JSON decoding is the parameter `parseJson`. */
module Store {
  import opened Common
  import opened Seqs
  import opened Urls
  import opened Identity

  // ---------------------------------------------------------------------
  // SQLite's LIKE

  /** `s LIKE p` with SQLite's defaults: `%` matches any run of characters,
      `_` any single character, and other characters match up to ASCII
      case. */
  predicate LikeMatch(s: string, p: string)
    decreases |s| + |p|
  {
    if p == [] then s == []
    else if p[0] == '%' then LikeMatch(s, p[1..]) || (s != [] && LikeMatch(s[1..], p))
    else s != [] && (p[0] == '_' || LowerChar(s[0]) == LowerChar(p[0])) && LikeMatch(s[1..], p[1..])
  }

  /** Every string matches itself used as a pattern. */
  lemma {:induction false} LikeSelf(s: string)
    ensures LikeMatch(s, s)
    decreases |s|
  {
    if s != [] {
      LikeSelf(s[1..]);
      if s[0] == '%' {
        assert LikeMatch(s[1..], s);
      }
    }
  }

  /** Matching composes: a match of `a` by `p` and of `b` by `q` is a match
      of `a + b` by `p + q`. */
  lemma {:induction false} LikeConcat(a: string, p: string, b: string, q: string)
    requires LikeMatch(a, p) && LikeMatch(b, q)
    ensures LikeMatch(a + b, p + q)
    decreases |a| + |p|
  {
    if p == [] {
      assert a + b == b && p + q == q;
    } else if p[0] == '%' {
      assert (p + q)[0] == '%' && (p + q)[1..] == p[1..] + q;
      if LikeMatch(a, p[1..]) {
        LikeConcat(a, p[1..], b, q);
      } else {
        assert (a + b)[1..] == a[1..] + b;
        LikeConcat(a[1..], p, b, q);
      }
    } else {
      assert (p + q)[0] == p[0] && (p + q)[1..] == p[1..] + q;
      assert (a + b)[0] == a[0] && (a + b)[1..] == a[1..] + b;
      LikeConcat(a[1..], p[1..], b, q);
    }
  }

  /** `%` alone matches everything. */
  lemma {:induction false} PercentMatchesAll(s: string)
    ensures LikeMatch(s, "%")
    decreases |s|
  {
    assert "%"[1..] == [];
    if s != [] {
      PercentMatchesAll(s[1..]);
    }
  }

  /** The pattern `v/%` matches every path below `v`. */
  lemma LikeBelow(v: string, rest: string)
    ensures LikeMatch(v + "/" + rest, v + "/%")
  {
    LikeSelf(v);
    PercentMatchesAll(rest);
    assert "/%" == "/" + "%" && "/"[1..] == [];
    assert LikeMatch("/", "/");
    LikeConcat("/", "/", rest, "%");
    LikeConcat(v, v, "/" + rest, "/%");
    assert v + "/" + rest == v + ("/" + rest);
  }

  // ---------------------------------------------------------------------
  // Deleting by target (`_delete_by_target` in `delete_project`)

  /** One condition of the WHERE clause: `target_url = ?` or
      `target_url LIKE ?`. */
  datatype Clause = Equals(value: string) | Like(pattern: string)

  predicate Matches(c: Clause, url: string) {
    match c
    case Equals(v) => url == v
    case Like(p) => LikeMatch(url, p)
  }

  /** The clauses joined with OR. */
  predicate Deletes(clauses: seq<Clause>, url: string) {
    exists i :: 0 <= i < |clauses| && Matches(clauses[i], url)
  }

  /** The clause list of a variant list: an exact match and a `/%` prefix
      match per variant, in order. */
  predicate ClausesFor(variants: seq<string>, clauses: seq<Clause>) {
    && |clauses| == 2 * |variants|
    && forall j :: 0 <= j < |variants| ==>
         clauses[2 * j] == Equals(variants[j]) && clauses[2 * j + 1] == Like(variants[j] + "/%")
  }

  /** The WHERE clause `_delete_by_target` builds. */
  method DeleteClauses(variants: seq<string>) returns (clauses: seq<Clause>)
    ensures ClausesFor(variants, clauses)
  {
    clauses := [];
    for i := 0 to |variants|
      invariant ClausesFor(variants[..i], clauses)
    {
      clauses := clauses + [Equals(variants[i]), Like(variants[i] + "/%")];
    }
    assert variants[..|variants|] == variants;
  }

  /** What the statement removes, said without clauses: the rows whose
      target is one of the variants or lies below one. */
  predicate Purges(variants: seq<string>, url: string) {
    exists j :: 0 <= j < |variants| && (url == variants[j] || LikeMatch(url, variants[j] + "/%"))
  }

  lemma DeletesIff(variants: seq<string>, clauses: seq<Clause>, url: string)
    requires ClausesFor(variants, clauses)
    ensures Deletes(clauses, url) <==> Purges(variants, url)
  {
    if Deletes(clauses, url) {
      var i :| 0 <= i < |clauses| && Matches(clauses[i], url);
      var j := i / 2;
      assert j < |variants|;
      if i == 2 * j {
        assert clauses[i] == Equals(variants[j]);
      } else {
        assert i == 2 * j + 1 && clauses[i] == Like(variants[j] + "/%");
      }
    }
    if Purges(variants, url) {
      var j :| 0 <= j < |variants| && (url == variants[j] || LikeMatch(url, variants[j] + "/%"));
      var i := if url == variants[j] then 2 * j else 2 * j + 1;
      assert 0 <= i < |clauses| && Matches(clauses[i], url);
    }
  }

  /** A row of a cache or history table by the columns the maintenance
      statements read. */
  datatype Row = Row(targetUrl: string, createdAt: int)

  function Outside(variants: seq<string>): Row -> bool {
    (r: Row) => !Purges(variants, r.targetUrl)
  }

  function Inside(variants: seq<string>): Row -> bool {
    (r: Row) => Purges(variants, r.targetUrl)
  }

  function Survives(clauses: seq<Clause>): Row -> bool {
    (r: Row) => !Deletes(clauses, r.targetUrl)
  }

  /** `_delete_by_target` on one table: no variants delete nothing;
      otherwise the rows at or below a variant go, the others stay in
      order, and the count is how many went. */
  method DeleteByTarget(rows: seq<Row>, variants: seq<string>) returns (kept: seq<Row>, count: nat)
    ensures kept == Filter(rows, Outside(variants))
    ensures count == |rows| - |kept|
    ensures count == CountWhere(rows, Inside(variants))
  {
    if variants == [] {
      FilterAll(rows, Outside(variants));
      kept, count := rows, 0;
    } else {
      var clauses := DeleteClauses(variants);
      kept := Filter(rows, Survives(clauses));
      forall i | 0 <= i < |rows| ensures Survives(clauses)(rows[i]) == Outside(variants)(rows[i]) {
        DeletesIff(variants, clauses, rows[i].targetUrl);
      }
      FilterSame(rows, Survives(clauses), Outside(variants));
      count := |rows| - |kept|;
    }
    FilterDropped(rows, Outside(variants), Inside(variants));
  }

  /** Deleting by a variant list purges each variant's rows: the variant
      itself and every path below it. */
  lemma VariantRowsPurged(variants: seq<string>, j: nat, rest: string, createdAt: int)
    requires j < |variants|
    ensures !Outside(variants)(Row(variants[j], createdAt))
    ensures !Outside(variants)(Row(variants[j] + "/" + rest, createdAt))
  {
    LikeBelow(variants[j], rest);
  }

  /** `_` in a variant is a LIKE wildcard: purging a site whose host holds
      `_` also removes the rows below any host that differs from it in that
      one character. */
  lemma UnderscoreMatchesAnyCharacter(variants: seq<string>, j: nat, pre: string, post: string, c: char, rest: string)
    requires j < |variants| && variants[j] == pre + "_" + post
    ensures Purges(variants, pre + [c] + post + "/" + rest)
  {
    LikeSelf(pre);
    assert LikeMatch([c], "_") by { assert "_"[1..] == [] && [c][1..] == []; }
    LikeConcat(pre, pre, [c], "_");
    LikeBelow(post, rest);
    LikeConcat(pre + [c], pre + "_", post + "/" + rest, post + "/%");
    assert pre + [c] + post + "/" + rest == (pre + [c]) + (post + "/" + rest);
    assert variants[j] + "/%" == (pre + "_") + (post + "/%");
  }

  // ---------------------------------------------------------------------
  // Pruning (`prune_old_data`)

  /** The oldest creation time a prune keeps: never less than a minute
      back. */
  function PruneCutoff(now: int, retention: int): (r: int)
    ensures r <= now - 60
    ensures r <= now - retention
  {
    now - Max(60, retention)
  }

  function NotBefore(cutoff: int): Row -> bool {
    (r: Row) => r.createdAt >= cutoff
  }

  /** `DELETE ... WHERE created_at < cutoff` on one table. */
  function Prune(rows: seq<Row>, cutoff: int): (r: seq<Row>)
    ensures forall x :: x in r <==> x in rows && x.createdAt >= cutoff
  {
    PruneMembership(rows, cutoff);
    Filter(rows, NotBefore(cutoff))
  }

  lemma PruneMembership(rows: seq<Row>, cutoff: int)
    ensures forall x :: x in Filter(rows, NotBefore(cutoff)) <==> x in rows && x.createdAt >= cutoff
  {
    forall x {
      FilterMembership(rows, NotBefore(cutoff), x);
    }
  }

  /** Nothing younger than a minute, nor within its retention, is pruned;
      everything older than both is. */
  lemma PruneKeepsRecent(rows: seq<Row>, now: int, retention: int, x: Row)
    requires x in rows
    ensures x.createdAt >= now - 60 && x.createdAt >= now - retention ==> x in Prune(rows, PruneCutoff(now, retention))
    ensures x.createdAt < now - 60 && x.createdAt < now - retention ==> x !in Prune(rows, PruneCutoff(now, retention))
  {
  }

  /** A longer retention prunes no more. */
  lemma PruneCutoffMonotone(now: int, shorter: int, longer: int)
    requires shorter <= longer
    ensures PruneCutoff(now, longer) <= PruneCutoff(now, shorter)
  {
  }

  /** Pruning twice with one cutoff is pruning once. */
  lemma {:induction false} PruneIdempotent(rows: seq<Row>, cutoff: int)
    ensures Prune(Prune(rows, cutoff), cutoff) == Prune(rows, cutoff)
  {
    var once := Prune(rows, cutoff);
    FilterAll(once, NotBefore(cutoff));
  }

  // ---------------------------------------------------------------------
  // Cached answers (`_decode_cache_row`)

  /** A cache row: its key, its JSON payload text and its creation time. */
  datatype CacheRow = CacheRow(cacheKey: string, payloadJson: string, createdAt: int)

  /** The dictionary `_decode_cache_row` returns. */
  datatype CacheHit<P> = CacheHit(cacheKey: string, payload: P, createdAt: int, ageSeconds: nat)

  /** `_decode_cache_row`: nothing for a missing row, one older than
      `maxAge`, or a payload that is not JSON; otherwise the row with its
      decoded payload and its age, never negative. */
  function DecodeCacheRow<P>(row: Option<CacheRow>, maxAge: int, now: int, parseJson: string -> Option<P>): (r: Option<CacheHit<P>>)
    ensures r.Some? <==> row.Some? && now - row.value.createdAt <= maxAge && parseJson(row.value.payloadJson).Some?
    ensures r.Some? ==> r.value.cacheKey == row.value.cacheKey && r.value.createdAt == row.value.createdAt
                        && parseJson(row.value.payloadJson) == Some(r.value.payload)
    ensures r.Some? ==> r.value.ageSeconds <= Max(0, maxAge)
    ensures r.Some? && row.value.createdAt <= now ==> r.value.ageSeconds == now - row.value.createdAt
  {
    if row.None? then None
    else
      var age := now - row.value.createdAt;
      if age > maxAge then None
      else
        match parseJson(row.value.payloadJson)
        case None => None
        case Some(payload) => Some(CacheHit(row.value.cacheKey, payload, row.value.createdAt, Max(0, age)))
  }

  /** A row that is served at some time is served at every earlier time
      not before its creation, and a row stops being served for good once
      it is too old. */
  lemma DecodeAgesOut<P>(row: CacheRow, maxAge: int, earlier: int, later: int, parseJson: string -> Option<P>)
    requires earlier <= later
    ensures DecodeCacheRow(Some(row), maxAge, later, parseJson).Some? ==> DecodeCacheRow(Some(row), maxAge, earlier, parseJson).Some?
    ensures DecodeCacheRow(Some(row), maxAge, earlier, parseJson).None? && earlier - row.createdAt > maxAge
            ==> DecodeCacheRow(Some(row), maxAge, later, parseJson).None?
  {
  }

  // ---------------------------------------------------------------------
  // Output roots (`list_project_output_roots`)

  predicate NonBlank(s: string) { s != "" }

  /** The roots the query's rows name: trimmed, blanks dropped, repeats
      dropped in first-seen order. */
  function OutputRoots(rows: seq<string>): seq<string> {
    Dedup(Filter(Map(rows, Strip), NonBlank))
  }

  /** `list_project_output_roots` after its query: `rows` are the
      `COALESCE(last_output_root, '')` values in the order SQLite returns
      them. */
  method ListProjectOutputRoots(rows: seq<string>) returns (unique: seq<string>)
    ensures unique == OutputRoots(rows)
  {
    var out := NonBlankRoots(rows);
    unique := Unique(out);
  }

  /** The first loop: each row trimmed, blanks dropped. */
  method NonBlankRoots(rows: seq<string>) returns (out: seq<string>)
    ensures out == Filter(Map(rows, Strip), NonBlank)
  {
    out := [];
    for i := 0 to |rows|
      invariant out == Filter(Map(rows[..i], Strip), NonBlank)
    {
      var value := Strip(rows[i]);
      assert Map(rows[..i + 1], Strip) == Map(rows[..i], Strip) + [value] by {
        MapPrefix(rows, i, Strip);
      }
      assert Filter([value], NonBlank) == if value != "" then [value] else [];
      FilterConcat(Map(rows[..i], Strip), [value], NonBlank);
      if value != "" {
        out := out + [value];
      }
    }
    MapWhole(rows, Strip);
  }

  /** The second loop: repeats dropped through a `seen` set. */
  method Unique(out: seq<string>) returns (unique: seq<string>)
    ensures unique == Dedup(out)
  {
    var seen: set<string> := {};
    unique := [];
    for i := 0 to |out|
      invariant unique == Dedup(out[..i])
      invariant forall x :: x in seen <==> x in unique
    {
      assert out[..i + 1] == out[..i] + [out[i]];
      DedupStep(out[..i], out[i]);
      if out[i] in seen {
        continue;
      }
      seen := seen + {out[i]};
      unique := unique + [out[i]];
    }
    assert out[..|out|] == out;
  }

  /** The roots listed are non-empty, trimmed and distinct, and they are
      exactly the non-blank rows trimmed. */
  lemma OutputRootsShape(rows: seq<string>)
    ensures NoDup(OutputRoots(rows))
    ensures forall x :: x in OutputRoots(rows) ==> x != "" && Strip(x) == x
    ensures forall i :: 0 <= i < |rows| && Strip(rows[i]) != "" ==> Strip(rows[i]) in OutputRoots(rows)
    ensures forall x :: x in OutputRoots(rows) ==> exists i :: 0 <= i < |rows| && Strip(rows[i]) == x
  {
    var mapped := Map(rows, Strip);
    var kept := Filter(mapped, NonBlank);
    forall x | x in OutputRoots(rows)
      ensures x != "" && Strip(x) == x
      ensures exists i :: 0 <= i < |rows| && Strip(rows[i]) == x
    {
      FilterMembership(mapped, NonBlank, x);
      var i :| 0 <= i < |mapped| && mapped[i] == x;
      StripIdempotent(rows[i]);
    }
    forall i | 0 <= i < |rows| && Strip(rows[i]) != ""
      ensures Strip(rows[i]) in OutputRoots(rows)
    {
      FilterMembership(mapped, NonBlank, Strip(rows[i]));
      assert mapped[i] == Strip(rows[i]);
    }
  }

  // ---------------------------------------------------------------------
  // Projects (`upsert_project`, `delete_project`)

  /** A `projects` row: its domain, the five optional `last_*` columns and
      the two timestamps. */
  datatype Project = Project(domain: string, outputRoot: Option<string>, snapshot: Option<string>,
                             siteType: Option<string>, estimatedFiles: Option<int>,
                             estimatedSize: Option<int>, createdAt: int, updatedAt: int)

  /** The optional arguments of `upsert_project`; `None` is an argument not
      passed. */
  datatype ProjectUpdate = ProjectUpdate(outputRoot: Option<string>, snapshot: Option<string>,
                                         siteType: Option<string>, estimatedFiles: Option<int>,
                                         estimatedSize: Option<int>)

  /** SQL's `COALESCE(given, stored)`. */
  function Coalesce<T>(given: Option<T>, stored: Option<T>): (r: Option<T>)
    ensures given.Some? ==> r == given
    ensures given.None? ==> r == stored
  {
    if given.Some? then given else stored
  }

  /** The domain stored: the authority of the normalised target, or the
      target itself when it has none. */
  function DomainOf(key: string): string {
    if Parse(key).netloc != "" then Parse(key).netloc else key
  }

  /** The row after the insert or the update on conflict. */
  function Merged(existing: Option<Project>, domain: string, u: ProjectUpdate, now: int): Project {
    match existing
    case None => Project(domain, u.outputRoot, u.snapshot, u.siteType, u.estimatedFiles, u.estimatedSize, now, now)
    case Some(p) =>
      Project(domain, Coalesce(u.outputRoot, p.outputRoot), Coalesce(u.snapshot, p.snapshot),
              Coalesce(u.siteType, p.siteType), Coalesce(u.estimatedFiles, p.estimatedFiles),
              Coalesce(u.estimatedSize, p.estimatedSize), p.createdAt, now)
  }

  function Stored(projects: map<string, Project>, key: string): (r: Option<Project>)
    ensures r.Some? <==> key in projects
    ensures r.Some? ==> r.value == projects[key]
  {
    if key in projects then Some(projects[key]) else None
  }

  /** An upsert keeps each stored field the update does not give, takes
      each one it gives, keeps the creation time of an existing row and
      stamps the update time. */
  lemma MergedFields(existing: Project, domain: string, u: ProjectUpdate, now: int)
    ensures var r := Merged(Some(existing), domain, u, now);
            && r.domain == domain && r.createdAt == existing.createdAt && r.updatedAt == now
            && (u.outputRoot.None? ==> r.outputRoot == existing.outputRoot)
            && (u.outputRoot.Some? ==> r.outputRoot == u.outputRoot)
            && (u.snapshot.None? ==> r.snapshot == existing.snapshot)
            && (u.snapshot.Some? ==> r.snapshot == u.snapshot)
            && (u.siteType.None? ==> r.siteType == existing.siteType)
            && (u.siteType.Some? ==> r.siteType == u.siteType)
            && (u.estimatedFiles.None? ==> r.estimatedFiles == existing.estimatedFiles)
            && (u.estimatedFiles.Some? ==> r.estimatedFiles == u.estimatedFiles)
            && (u.estimatedSize.None? ==> r.estimatedSize == existing.estimatedSize)
            && (u.estimatedSize.Some? ==> r.estimatedSize == u.estimatedSize)
  {
  }

  /** Repeating an upsert changes only the update time. */
  lemma MergedTwice(existing: Option<Project>, domain: string, u: ProjectUpdate, first: int, second: int)
    ensures Merged(Some(Merged(existing, domain, u, first)), domain, u, second)
            == Merged(existing, domain, u, first).(updatedAt := second)
  {
  }

  /** An update that gives nothing only refreshes the domain and the update
      time. */
  lemma EmptyUpdate(existing: Project, domain: string, now: int)
    ensures Merged(Some(existing), domain, ProjectUpdate(None, None, None, None, None), now)
            == existing.(domain := domain, updatedAt := now)
  {
  }

  /** The projects `delete_project` leaves: all but the target's row and
      the rows of its domain. */
  function Unlisted(projects: map<string, Project>, key: string, domain: string): (r: map<string, Project>)
    ensures forall k :: k in r <==> k in projects && k != key && projects[k].domain != domain
    ensures forall k :: k in r ==> r[k] == projects[k]
  {
    map k | k in projects && k != key && projects[k].domain != domain :: projects[k]
  }

  /** The rows of the four tables `delete_project` and `prune_old_data`
      clean. */
  datatype Related = Related(inspect: seq<Row>, analyze: seq<Row>, sitemap: seq<Row>, jobsHistory: seq<Row>)

  /** How many rows each statement removed. */
  datatype Removed = Removed(inspect: nat, analyze: nat, sitemap: nat, jobsHistory: nat)

  function Purged(t: Related, variants: seq<string>): Related {
    Related(Filter(t.inspect, Outside(variants)), Filter(t.analyze, Outside(variants)),
            Filter(t.sitemap, Outside(variants)), Filter(t.jobsHistory, Outside(variants)))
  }

  function Pruned(t: Related, cacheCutoff: int, jobsCutoff: int): Related {
    Related(Prune(t.inspect, cacheCutoff), Prune(t.analyze, cacheCutoff),
            Prune(t.sitemap, cacheCutoff), Prune(t.jobsHistory, jobsCutoff))
  }

  /** Rows removed going from `before` to `after`, table by table. */
  function Shrinkage(before: Related, after: Related): Removed
    requires |after.inspect| <= |before.inspect| && |after.analyze| <= |before.analyze|
    requires |after.sitemap| <= |before.sitemap| && |after.jobsHistory| <= |before.jobsHistory|
  {
    Removed(|before.inspect| - |after.inspect|, |before.analyze| - |after.analyze|,
            |before.sitemap| - |after.sitemap|, |before.jobsHistory| - |after.jobsHistory|)
  }

  class Database {
    var projects: map<string, Project>
    var related: Related

    constructor ()
      ensures projects == map[] && related == Related([], [], [], [])
    {
      projects := map[];
      related := Related([], [], [], []);
    }

    /** `upsert_project`: the row of the normalised target is inserted, or
        updated with COALESCE; no other row changes. */
    method UpsertProject(target: string, u: ProjectUpdate, now: int)
      modifies this
      ensures var key := NormalizeTargetUrl(target);
              projects == old(projects)[key := Merged(Stored(old(projects), key), DomainOf(key), u, now)]
      ensures related == old(related)
    {
      var key := NormalizeTargetUrl(target);
      var domain := DomainOf(key);
      projects := projects[key := Merged(Stored(projects, key), domain, u, now)];
    }

    /** `delete_project`: removes the target's project rows and, when asked,
        the rows of the four related tables at or below the target's URL
        variants. */
    method DeleteProject(target: string, purgeRelated: bool) returns (projectsRemoved: nat, removed: Removed)
      modifies this
      ensures var key := NormalizeTargetUrl(target);
              projects == Unlisted(old(projects), key, ExtractDomain(key))
      ensures projectsRemoved == |old(projects).Keys - projects.Keys|
      ensures !purgeRelated ==> related == old(related) && removed == Removed(0, 0, 0, 0)
      ensures purgeRelated ==> related == Purged(old(related), TargetUrlVariants(NormalizeTargetUrl(target)))
                               && removed == Shrinkage(old(related), related)
    {
      var key := NormalizeTargetUrl(target);
      var domain := ExtractDomain(key);
      var variants := TargetUrlVariants(key);
      projectsRemoved := DeleteProjectRows(key, domain);
      removed := Removed(0, 0, 0, 0);
      if purgeRelated {
        removed := PurgeRelated(variants);
      }
    }

    /** The `DELETE FROM projects` statement: the target's row and the rows
        of its domain go. */
    method DeleteProjectRows(key: string, domain: string) returns (n: nat)
      modifies this
      ensures projects == Unlisted(old(projects), key, domain)
      ensures n == |old(projects).Keys - projects.Keys|
      ensures related == old(related)
    {
      var before := projects;
      projects := Unlisted(projects, key, domain);
      n := |before.Keys - projects.Keys|;
    }

    /** The four `_delete_by_target` calls. */
    method PurgeRelated(variants: seq<string>) returns (removed: Removed)
      modifies this
      ensures projects == old(projects)
      ensures related == Purged(old(related), variants)
      ensures removed == Shrinkage(old(related), related)
    {
      var inspect, i := DeleteByTarget(related.inspect, variants);
      var analyze, a := DeleteByTarget(related.analyze, variants);
      var sitemap, s := DeleteByTarget(related.sitemap, variants);
      var jobs, j := DeleteByTarget(related.jobsHistory, variants);
      related := Related(inspect, analyze, sitemap, jobs);
      removed := Removed(i, a, s, j);
    }

    /** `prune_old_data`: rows created before the cutoffs go, the project
        rows stay. */
    method PruneOldData(now: int, cacheRetention: int, jobsRetention: int) returns (removed: Removed)
      modifies this
      ensures projects == old(projects)
      ensures related == Pruned(old(related), PruneCutoff(now, cacheRetention), PruneCutoff(now, jobsRetention))
      ensures removed == Shrinkage(old(related), related)
    {
      var cacheCutoff := PruneCutoff(now, cacheRetention);
      var jobsCutoff := PruneCutoff(now, jobsRetention);
      var before := related;
      related := Pruned(related, cacheCutoff, jobsCutoff);
      removed := Shrinkage(before, related);
    }
  }
}
