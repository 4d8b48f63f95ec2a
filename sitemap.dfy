/** `_build_sitemap_from_analysis`: the site's pages, sorted and without
    repeats, grouped by their first path segment, and the groups listed
    largest first with at most 50 pages shown each. */
module Sitemap {
  import opened Common
  import opened Seqs
  import opened Lex

  /** One entry of `groups`: the folder, how many pages it holds, and the
      first 50 of them. */
  datatype Group = Group(folder: string, count: nat, pages: seq<string>)

  /** What the builder returns; `top_folders` is passed through untouched. */
  datatype SiteMap<F> = SiteMap(totalPages: nat, pages: seq<string>, topFolders: F, groups: seq<Group>)

  /** How many pages a group shows. */
  const ShownPages: nat := 50

  /** A page as grouped: with a leading `/` added when it has none. */
  function Clean(page: string): (r: string)
    ensures StartsWith(r, "/")
    ensures StartsWith(page, "/") ==> r == page
  {
    if StartsWith(page, "/") then page else "/" + page
  }

  /** The non-empty `/`-separated segments of a path. */
  function Segments(path: string): seq<string> {
    Filter(SplitOn(path, '/'), NonEmpty)
  }

  /** The group key: `/` for a path without segments, else `/<first>/`. */
  function Folder(clean: string): string {
    var parts := Segments(clean);
    if parts == [] then "/" else "/" + parts[0] + "/"
  }

  /** The key is `/` or one non-empty segment, free of `/`, between slashes. */
  lemma FolderShape(clean: string)
    ensures Folder(clean) == "/"
            || exists seg :: seg != "" && '/' !in seg && Folder(clean) == "/" + seg + "/"
  {
    var parts := Segments(clean);
    if parts != [] {
      var split := SplitOn(clean, '/');
      FilterMembership(split, NonEmpty, parts[0]);
      assert parts[0] in split;
      var k :| 0 <= k < |split| && split[k] == parts[0];
      assert parts[0] != "" && '/' !in parts[0];
    }
  }

  // ---------------------------------------------------------------------
  // Grouping by a key, as the `setdefault`/`append` loop does

  /** The items whose key is `k`. */
  function Under(key: string -> string, k: string): string -> bool {
    (c: string) => key(c) == k
  }

  /** The dict `grouped`: its keys in insertion order and its lists. */
  datatype Grouping = Grouping(order: seq<string>, members: map<string, seq<string>>)

  /** The grouping of a list: the keys in order of first appearance, each
      with its items in list order. */
  function GroupingOf(items: seq<string>, key: string -> string): (g: Grouping)
    ensures NoDup(g.order)
    ensures forall k :: k in g.members <==> k in g.order
  {
    var order := Dedup(Map(items, key));
    Grouping(order, Members(items, key, order))
  }

  function Members(items: seq<string>, key: string -> string, order: seq<string>): (m: map<string, seq<string>>)
    ensures forall k :: k in m <==> k in order
    ensures forall k :: k in m ==> m[k] == Filter(items, Under(key, k))
  {
    map k | k in order :: Filter(items, Under(key, k))
  }

  /** The keys grouped are exactly the keys of the items. */
  lemma GroupingKeys(items: seq<string>, key: string -> string)
    ensures forall c :: c in items ==> key(c) in GroupingOf(items, key).order
    ensures forall k :: k in GroupingOf(items, key).order ==> Filter(items, Under(key, k)) != []
  {
    var order := GroupingOf(items, key).order;
    forall c | c in items ensures key(c) in order {
      var i :| 0 <= i < |items| && items[i] == c;
      assert Map(items, key)[i] == key(c);
    }
    forall k | k in order ensures Filter(items, Under(key, k)) != [] {
      var i :| 0 <= i < |Map(items, key)| && Map(items, key)[i] == k;
      FilterMembership(items, Under(key, k), items[i]);
    }
  }

  /** `grouped.setdefault(key, []).append(item)`. */
  function Add(g: Grouping, item: string, key: string -> string): Grouping {
    var k := key(item);
    if k in g.members then Grouping(g.order, g.members[k := g.members[k] + [item]])
    else Grouping(g.order + [k], g.members[k := [item]])
  }

  /** Adding one item to the grouping of a list gives the grouping of the
      longer list. */
  lemma AddStep(items: seq<string>, item: string, key: string -> string)
    ensures Add(GroupingOf(items, key), item, key) == GroupingOf(items + [item], key)
  {
    var added := Add(GroupingOf(items, key), item, key);
    var after := GroupingOf(items + [item], key);
    AddOrder(items, item, key);
    AddKeys(items, item, key);
    forall k | k in added.members ensures k in after.members && added.members[k] == after.members[k] {
      AddMember(items, item, key, k);
    }
    assert added.members == after.members;
  }

  /** ... the keys first ... */
  lemma AddOrder(items: seq<string>, item: string, key: string -> string)
    ensures Add(GroupingOf(items, key), item, key).order == GroupingOf(items + [item], key).order
  {
    var g := GroupingOf(items, key);
    MapSnoc(items, item, key);
    DedupStep(Map(items, key), key(item));
    assert key(item) in Map(items, key) <==> key(item) in g.order;
  }

  lemma AddKeys(items: seq<string>, item: string, key: string -> string)
    ensures Add(GroupingOf(items, key), item, key).members.Keys == GroupingOf(items + [item], key).members.Keys
  {
    AddOrder(items, item, key);
    var g := GroupingOf(items, key);
    var added := Add(g, item, key);
    assert forall k :: k in added.members <==> k in added.order;
  }

  /** ... one key's list at a time. */
  lemma AddMember(items: seq<string>, item: string, key: string -> string, k: string)
    requires k in Add(GroupingOf(items, key), item, key).members
    ensures k in GroupingOf(items + [item], key).members
    ensures Add(GroupingOf(items, key), item, key).members[k] == Filter(items + [item], Under(key, k))
  {
    var g := GroupingOf(items, key);
    var m := Add(g, item, key).members;
    MapSnoc(items, item, key);
    DedupStep(Map(items, key), key(item));
    FilterConcat(items, [item], Under(key, k));
    FilterSingle(item, Under(key, k));
    if k != key(item) {
      AddOther(g, item, key, k);
    } else if k in g.members {
      assert m[k] == Filter(items, Under(key, k)) + [item];
    } else {
      EmptyGroup(items, key, k);
      assert m[k] == [] + [item];
    }
  }

  /** Adding an item leaves the lists of the other keys as they were. */
  lemma AddOther(g: Grouping, item: string, key: string -> string, k: string)
    requires k != key(item) && k in Add(g, item, key).members
    ensures k in g.members && Add(g, item, key).members[k] == g.members[k]
  {
  }

  lemma FilterSingle(x: string, p: string -> bool)
    ensures Filter([x], p) == if p(x) then [x] else []
  {
    assert [x][1..] == [];
  }

  /** A key not yet grouped has no items. */
  lemma EmptyGroup(items: seq<string>, key: string -> string, k: string)
    requires k !in GroupingOf(items, key).order
    ensures Filter(items, Under(key, k)) == []
  {
    var none := Filter(items, Under(key, k));
    if none != [] {
      FilterMembership(items, Under(key, k), none[0]);
      assert none[0] in none;
      GroupingKeys(items, key);
      assert false;
    }
  }

  /** The sizes of the lists, the sort key of the groups. */
  function SizeIn(members: map<string, seq<string>>): string -> int {
    (k: string) => if k in members then |members[k]| else 0
  }

  /** The entry listed for folder `k`. */
  function GroupFor(members: map<string, seq<string>>, k: string): (g: Group)
    ensures g.folder == k && |g.pages| <= ShownPages
    ensures k in members ==> g.count == |members[k]| && g.pages == Take(members[k], ShownPages)
  {
    var list := if k in members then members[k] else [];
    Group(k, |list|, Take(list, ShownPages))
  }

  function GroupOf(members: map<string, seq<string>>): string -> Group {
    (k: string) => GroupFor(members, k)
  }

  /** The comprehension over `sorted(grouped.items(), key=len, reverse=True)`. */
  function GroupsOf(items: seq<string>, key: string -> string): (r: seq<Group>)
    ensures forall i :: 0 <= i < |r| ==> |r[i].pages| <= ShownPages
  {
    var g := GroupingOf(items, key);
    Map(SortDesc(g.order, SizeIn(g.members)), GroupOf(g.members))
  }

  // ---------------------------------------------------------------------
  // The site map

  /** The value `_build_sitemap_from_analysis` returns. */
  ghost function SiteMapOf<F>(sitePages: seq<string>, topFolders: F): (r: SiteMap<F>)
    ensures StrictlyAscending(r.pages)
    ensures forall p :: p in r.pages <==> p in sitePages
    ensures r.totalPages == |r.pages|
    ensures r.topFolders == topFolders
    ensures forall i :: 0 <= i < |r.groups| ==> |r.groups[i].pages| <= ShownPages
  {
    var pages := SortSet(set p | p in sitePages);
    SiteMap(|pages|, pages, topFolders, GroupsOf(Map(pages, Clean), Folder))
  }

  /** Builds the site map with the same `setdefault`/`append` loop. */
  method BuildSiteMap<F>(sitePages: seq<string>, topFolders: F) returns (r: SiteMap<F>)
    ensures r == SiteMapOf(sitePages, topFolders)
  {
    var pages := SortStrings(set p | p in sitePages);
    ghost var cleans := Map(pages, Clean);
    var g := Grouping([], map[]);
    assert cleans[..0] == [];
    for i := 0 to |pages|
      invariant g == GroupingOf(cleans[..i], Folder)
    {
      var clean := Clean(pages[i]);
      AddStep(cleans[..i], clean, Folder);
      TakeSnoc(cleans, i);
      g := Add(g, clean, Folder);
    }
    assert cleans[..|pages|] == cleans;
    var sorted := SortDesc(g.order, SizeIn(g.members));
    r := SiteMap(|pages|, pages, topFolders, Map(sorted, GroupOf(g.members)));
  }

  // ---------------------------------------------------------------------
  // Counting

  /** The number of items across the keys of `order`. */
  function CountAcross(order: seq<string>, items: seq<string>, key: string -> string): nat {
    if order == [] then 0 else CountWhere(items, Under(key, order[0])) + CountAcross(order[1..], items, key)
  }

  /** How many times `x` occurs in `order`. */
  function Hits(order: seq<string>, x: string): nat {
    if order == [] then 0 else (if order[0] == x then 1 else 0) + Hits(order[1..], x)
  }

  lemma {:induction false} CountAcrossCons(order: seq<string>, c: string, rest: seq<string>, key: string -> string)
    ensures CountAcross(order, [c] + rest, key) == CountAcross(order, rest, key) + Hits(order, key(c))
  {
    if order != [] {
      assert ([c] + rest)[1..] == rest;
      CountAcrossCons(order[1..], c, rest, key);
    }
  }

  lemma {:induction false} HitsOnce(order: seq<string>, x: string)
    requires NoDup(order) && x in order
    ensures Hits(order, x) == 1
  {
    if order[0] == x {
      HitsNone(order[1..], x);
    } else {
      assert NoDup(order[1..]) by {
        forall i, j | 0 <= i < j < |order[1..]| ensures order[1..][i] != order[1..][j] {
          assert order[1..][i] == order[i + 1] && order[1..][j] == order[j + 1];
        }
      }
      HitsOnce(order[1..], x);
    }
  }

  lemma {:induction false} HitsNone(order: seq<string>, x: string)
    requires x !in order
    ensures Hits(order, x) == 0
  {
    if order != [] {
      HitsNone(order[1..], x);
    }
  }

  lemma {:induction false} CountAcrossEmpty(order: seq<string>, key: string -> string)
    ensures CountAcross(order, [], key) == 0
  {
    if order != [] {
      CountAcrossEmpty(order[1..], key);
    }
  }

  /** Each item is counted under exactly one key of a list that names
      every key once. */
  lemma {:induction false} Partition(order: seq<string>, items: seq<string>, key: string -> string)
    requires NoDup(order)
    requires forall c :: c in items ==> key(c) in order
    ensures CountAcross(order, items, key) == |items|
  {
    if items == [] {
      CountAcrossEmpty(order, key);
    } else {
      assert items == [items[0]] + items[1..];
      CountAcrossCons(order, items[0], items[1..], key);
      HitsOnce(order, key(items[0]));
      Partition(order, items[1..], key);
    }
  }

  function SumCounts(groups: seq<Group>): nat {
    if groups == [] then 0 else groups[0].count + SumCounts(groups[1..])
  }

  lemma {:induction false} SumOfGroups(keys: seq<string>, items: seq<string>, key: string -> string, members: map<string, seq<string>>)
    requires forall k :: k in keys ==> k in members && members[k] == Filter(items, Under(key, k))
    ensures SumCounts(Map(keys, GroupOf(members))) == CountAcross(keys, items, key)
  {
    if keys != [] {
      assert Map(keys, GroupOf(members))[1..] == Map(keys[1..], GroupOf(members));
      FilterCount(items, Under(key, keys[0]));
      SumOfGroups(keys[1..], items, key, members);
    }
  }

  lemma NoDupPermutation(xs: seq<string>, ys: seq<string>)
    requires NoDup(xs) && multiset(xs) == multiset(ys)
    ensures NoDup(ys)
  {
    forall i, j | 0 <= i < j < |ys| ensures ys[i] != ys[j] {
      if ys[i] == ys[j] {
        assert ys == ys[..i] + [ys[i]] + ys[i + 1..j] + [ys[j]] + ys[j + 1..];
        assert multiset(ys)[ys[i]] >= 2;
        MultisetAtMostOnce(xs, ys[i]);
        assert false;
      }
    }
  }

  lemma {:induction false} MultisetAtMostOnce(xs: seq<string>, x: string)
    requires NoDup(xs)
    ensures multiset(xs)[x] <= 1
  {
    if xs != [] {
      assert xs == [xs[0]] + xs[1..];
      assert NoDup(xs[1..]) by {
        forall i, j | 0 <= i < j < |xs[1..]| ensures xs[1..][i] != xs[1..][j] {
          assert xs[1..][i] == xs[i + 1] && xs[1..][j] == xs[j + 1];
        }
      }
      MultisetAtMostOnce(xs[1..], x);
      if xs[0] == x {
        assert x !in xs[1..] by {
          forall k | 0 <= k < |xs[1..]| ensures xs[1..][k] != x { assert xs[1..][k] == xs[k + 1]; }
        }
      }
    }
  }

  // ---------------------------------------------------------------------
  // What the grouping promises, for any key

  /** The group counts add up to the number of items. */
  lemma GroupCountsSum(items: seq<string>, key: string -> string)
    ensures SumCounts(GroupsOf(items, key)) == |items|
  {
    var g := GroupingOf(items, key);
    var sorted := SortDesc(g.order, SizeIn(g.members));
    forall k | k in sorted ensures k in g.members && g.members[k] == Filter(items, Under(key, k)) {
      MultisetMembership(sorted, g.order, k);
    }
    SumOfGroups(sorted, items, key, g.members);
    NoDupPermutation(g.order, sorted);
    GroupingKeys(items, key);
    forall c | c in items ensures key(c) in sorted {
      MultisetMembership(sorted, g.order, key(c));
    }
    Partition(sorted, items, key);
  }

  /** The groups are listed largest first; groups of the same size keep
      the order in which their keys first appear. */
  lemma GroupsLargestFirst(items: seq<string>, key: string -> string)
    ensures var r := GroupsOf(items, key);
            forall i, j :: 0 <= i < j < |r| ==> r[i].count >= r[j].count
    ensures var g := GroupingOf(items, key);
            var sorted := SortDesc(g.order, SizeIn(g.members));
            && GroupsOf(items, key) == Map(sorted, GroupOf(g.members))
            && forall n :: WithKey(sorted, SizeIn(g.members), n) == WithKey(g.order, SizeIn(g.members), n)
  {
    var g := GroupingOf(items, key);
    SortDescCorrect(g.order, SizeIn(g.members));
  }

  /** The groups follow the keys sorted by size: one group per key, in the
      sorted order, and the sorted keys are the grouped keys without repeats. */
  lemma GroupsFollowKeys(items: seq<string>, key: string -> string)
    ensures var g := GroupingOf(items, key);
            var sorted := SortDesc(g.order, SizeIn(g.members));
            var r := GroupsOf(items, key);
            && |r| == |sorted| && NoDup(sorted)
            && (forall k :: k in sorted <==> k in g.order)
            && (forall i :: 0 <= i < |r| ==> r[i] == GroupFor(g.members, sorted[i]))
  {
    var g := GroupingOf(items, key);
    var sorted := SortDesc(g.order, SizeIn(g.members));
    NoDupPermutation(g.order, sorted);
    forall k ensures k in sorted <==> k in g.order {
      MultisetMembership(sorted, g.order, k);
    }
  }

  /** The group of a grouped key counts and shows that key's items. */
  lemma GroupForKey(items: seq<string>, key: string -> string, k: string)
    requires k in GroupingOf(items, key).order
    ensures var grp := GroupFor(GroupingOf(items, key).members, k);
            && grp.count == CountWhere(items, Under(key, k))
            && grp.pages == Take(Filter(items, Under(key, k)), ShownPages)
  {
    FilterCount(items, Under(key, k));
  }

  /** Every item sits in the one group named after its key: the keys are
      distinct, each item's key has a group, and a group's count is the
      number of its items, of which it shows the first 50 in order. */
  lemma GroupsHoldTheirItems(items: seq<string>, key: string -> string)
    ensures var r := GroupsOf(items, key);
            && (forall i, j :: 0 <= i < j < |r| ==> r[i].folder != r[j].folder)
            && (forall c :: c in items ==> exists i :: 0 <= i < |r| && r[i].folder == key(c))
            && (forall i :: 0 <= i < |r| ==>
                  r[i].count == CountWhere(items, Under(key, r[i].folder))
                  && r[i].pages == Take(Filter(items, Under(key, r[i].folder)), ShownPages))
  {
    var r := GroupsOf(items, key);
    var g := GroupingOf(items, key);
    var sorted := SortDesc(g.order, SizeIn(g.members));
    GroupsFollowKeys(items, key);
    GroupingKeys(items, key);
    forall c | c in items ensures exists i :: 0 <= i < |r| && r[i].folder == key(c) {
      var i :| 0 <= i < |sorted| && sorted[i] == key(c);
      assert r[i].folder == sorted[i];
    }
    forall i | 0 <= i < |r|
      ensures r[i].count == CountWhere(items, Under(key, r[i].folder))
      ensures r[i].pages == Take(Filter(items, Under(key, r[i].folder)), ShownPages)
    {
      assert sorted[i] in sorted;
      GroupForKey(items, key, sorted[i]);
    }
  }

  // ---------------------------------------------------------------------
  // What the site map promises

  /** The folder groups of a list of cleaned pages: counts adding up to the
      number of pages, largest first, one per folder, and a group for the
      folder of every page. */
  lemma FolderGroups(cleans: seq<string>)
    ensures var groups := GroupsOf(cleans, Folder);
            && SumCounts(groups) == |cleans|
            && (forall i, j :: 0 <= i < j < |groups| ==> groups[i].count >= groups[j].count)
            && (forall i, j :: 0 <= i < j < |groups| ==> groups[i].folder != groups[j].folder)
            && (forall c :: c in cleans ==> exists i :: 0 <= i < |groups| && groups[i].folder == Folder(c))
  {
    GroupCountsSum(cleans, Folder);
    GroupsLargestFirst(cleans, Folder);
    GroupsHoldTheirItems(cleans, Folder);
  }

  /** The pages' groups: counts adding up to `total_pages`, largest first,
      one per folder, each holding exactly the pages under its folder. */
  lemma SiteMapGroups<F>(sitePages: seq<string>, topFolders: F)
    ensures var r := SiteMapOf(sitePages, topFolders);
            var cleans := Map(r.pages, Clean);
            && r.groups == GroupsOf(cleans, Folder)
            && SumCounts(r.groups) == r.totalPages
            && (forall i, j :: 0 <= i < j < |r.groups| ==> r.groups[i].count >= r.groups[j].count)
            && (forall i, j :: 0 <= i < j < |r.groups| ==> r.groups[i].folder != r.groups[j].folder)
            && (forall p :: p in r.pages ==> exists i :: 0 <= i < |r.groups| && r.groups[i].folder == Folder(Clean(p)))
  {
    var r := SiteMapOf(sitePages, topFolders);
    var cleans := Map(r.pages, Clean);
    FolderGroups(cleans);
    forall p | p in r.pages ensures Clean(p) in cleans {
      MapMember(r.pages, Clean, p);
    }
  }
}
