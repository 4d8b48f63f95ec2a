/** The helpers `analyze` uses to describe a site from its inventory: the
    folder of a path, the WordPress slugs and REST routes found in paths,
    the guess of the site's platform from the signals seen, and the
    calendar of snapshots by year, month and day. */
module Analysis {
  import opened Common
  import opened Seqs
  import opened Lex
  import Upstream

  // ---------------------------------------------------------------------
  // _folder_of_path

  /** The folder a path lives in, with its trailing `/`; `/` for a path
      with no folder. */
  function FolderOfPath(path: string): (r: string)
    ensures r != [] && r[|r| - 1] == '/'
  {
    var clean := if path == "" then "/" else path;
    if clean == "/" then "/"
    else if EndsWith(clean, "/") then clean
    else if '/' !in clean[1..] then "/"
    else clean[..LastIndexOf(clean, '/')] + "/"
  }

  /** The folder is `/` exactly when the path names nothing below the root;
      otherwise it is the longest prefix of the path ending in `/`. */
  lemma FolderOfPathShape(path: string)
    ensures FolderOfPath(path) == "/" <==> path == "" || '/' !in path[1..]
    ensures FolderOfPath(path) != "/" ==>
              StartsWith(path, FolderOfPath(path)) && '/' !in path[|FolderOfPath(path)|..]
  {
    var r := FolderOfPath(path);
    if path != "" && path != "/" && !EndsWith(path, "/") && '/' in path[1..] {
      var j := LastIndexOf(path, '/');
      var k :| 0 <= k < |path[1..]| && path[1..][k] == '/';
      assert path[k + 1] == '/';
      assert j >= 1;
      assert r == path[..j + 1];
      var tail := path[j + 1..];
      forall i | 0 <= i < |tail| ensures tail[i] != '/' { assert tail[i] == path[j + 1 + i]; }
    } else if path != "" && path != "/" && EndsWith(path, "/") {
      assert path[|path| - 1] == '/';
      if |path| >= 2 {
        assert path[1..][|path| - 2] == '/';
      }
    }
  }

  /** A folder is its own folder. */
  lemma FolderOfPathIdempotent(path: string)
    ensures FolderOfPath(FolderOfPath(path)) == FolderOfPath(path)
  {
    var r := FolderOfPath(path);
    assert EndsWith(r, "/") by { assert r[|r| - 1..] == "/"; }
  }

  // ---------------------------------------------------------------------
  // _extract_wp_slug and _extract_wp_json_route

  /** The name after the first `marker` in a path, up to the next `/`,
      stripped; none when the marker is absent or the name is empty. The
      markers passed are fixed, non-empty strings such as
      `/wp-content/themes/`. */
  function ExtractWpSlug(path: string, marker: string): (r: Option<string>)
    requires marker != ""
    ensures !Contains(path, marker) ==> r.None?
    ensures r.Some? ==> r.value != "" && '/' !in r.value && !IsSpace(r.value[0]) && !IsSpace(r.value[|r.value| - 1])
  {
    var i := Find(path, marker);
    if i < 0 then None
    else
      var head := SplitFirst(path[i + |marker|..], '/').0;
      StripKeepsAbsent(head, '/');
      var slug := Strip(head);
      if slug == "" then None else Some(slug)
  }

  /** The marker found at the start is the first one. */
  lemma FindAtStart(s: string, marker: string)
    requires StartsWith(s, marker)
    ensures Find(s, marker) == 0
  {
    assert OccursAt(s, marker, 0);
  }

  /** A slug written after the marker, ended by `/` or by the end of the
      path, is the slug read back. */
  lemma ExtractWpSlugRoundTrip(marker: string, slug: string, rest: string)
    requires marker != "" && slug != "" && '/' !in slug
    requires !IsSpace(slug[0]) && !IsSpace(slug[|slug| - 1])
    requires rest == "" || rest[0] == '/'
    ensures ExtractWpSlug(marker + slug + rest, marker) == Some(slug)
  {
    var path := marker + slug + rest;
    assert Find(path, marker) == 0 by { FindAtStart(path, marker); }
    assert path[|marker|..] == slug + rest;
    assert SplitFirst(slug + rest, '/').0 == slug by { FieldBeforeSlash(slug, rest); }
    assert Strip(slug) == slug by { StripWithNoEnds(slug, IsSpace); }
  }

  /** The text before the first `/` of `slug + rest` is `slug`. */
  lemma FieldBeforeSlash(slug: string, rest: string)
    requires '/' !in slug
    requires rest == "" || rest[0] == '/'
    ensures SplitFirst(slug + rest, '/').0 == slug
  {
    var s := slug + rest;
    if rest == "" {
      assert s == slug;
    } else {
      assert s[|slug|] == '/';
      assert IndexOf(s, '/') == |slug| by {
        forall i | 0 <= i < |slug| ensures s[i] != '/' { assert s[i] == slug[i]; }
      }
      assert s[..|slug|] == slug;
    }
  }

  predicate IsSlash(c: char) { c == '/' }

  /** The REST route after the first `/wp-json/`, with its slashes stripped
      from both ends; none when there is no `/wp-json/`. */
  function ExtractWpJsonRoute(path: string): (r: Option<string>)
    ensures r.Some? <==> Contains(path, "/wp-json/")
    ensures r.Some? && r.value != "" ==> r.value[0] != '/' && r.value[|r.value| - 1] != '/'
  {
    var i := Find(path, "/wp-json/");
    if i < 0 then None
    else Some(StripWith(path[i + 9..], IsSlash))
  }

  /** A route written after `/wp-json/` is the route read back. */
  lemma ExtractWpJsonRouteRoundTrip(route: string)
    requires route == "" || (route[0] != '/' && route[|route| - 1] != '/')
    ensures ExtractWpJsonRoute("/wp-json/" + route) == Some(route)
  {
    var path := "/wp-json/" + route;
    FindAtStart(path, "/wp-json/");
    assert path[9..] == route;
    StripWithNoEnds(route, IsSlash);
  }

  // ---------------------------------------------------------------------
  // _guess_site_type

  /** How often a signal was seen. */
  function Tally(signals: seq<string>, x: string): (r: nat)
    ensures r == 0 <==> x !in signals
  {
    if signals == [] then 0 else (if signals[0] == x then 1 else 0) + Tally(signals[1..], x)
  }

  /** The first of `ds` seen most often: the head of a stable sort by
      descending count. */
  function Leading(signals: seq<string>, ds: seq<string>): (r: string)
    requires ds != []
    ensures r in ds
    ensures forall x :: x in ds ==> Tally(signals, x) <= Tally(signals, r)
    ensures forall i :: 0 <= i < |ds| && ds[i] != r && (forall j :: 0 <= j <= i ==> ds[j] != r) ==>
              Tally(signals, ds[i]) < Tally(signals, r)
  {
    if |ds| == 1 then ds[0]
    else
      var b := Leading(signals, ds[1..]);
      assert forall x :: x in ds ==> x == ds[0] || x in ds[1..];
      if Tally(signals, ds[0]) >= Tally(signals, b) then ds[0]
      else
        assert forall i :: 1 <= i < |ds| ==> ds[i] == ds[1..][i - 1];
        b
  }

  /** The label of a signal. */
  function SiteLabel(signal: string): string {
    if signal == "wordpress" then "WordPress"
    else if signal == "wix" then "Wix"
    else if signal == "shopify" then "Shopify"
    else if signal == "php" then "PHP site"
    else if signal == "spa" then "SPA/React-like"
    else "Static/Unknown"
  }

  /** The platform named by the signal seen most often, the earliest first
      seen among equals; `Static/Unknown` when there is no signal. Counting
      into an insertion-ordered dict and taking the head of a stable
      descending sort picks the same signal as scanning the signals for the
      first one with the highest count. */
  function GuessSiteType(signals: seq<string>): (r: string)
    ensures signals == [] ==> r == "Static/Unknown"
  {
    if signals == [] then "Static/Unknown" else SiteLabel(Leading(signals, signals))
  }

  /** The guess follows a signal that occurs; no other signal occurs more
      often, and every signal first seen before it occurs less often. */
  lemma GuessSiteTypeLeads(signals: seq<string>)
    requires signals != []
    ensures exists s :: (&& s in signals && GuessSiteType(signals) == SiteLabel(s)
                         && (forall x :: x in signals ==> Tally(signals, x) <= Tally(signals, s))
                         && (forall i :: 0 <= i < |signals| && (forall j :: 0 <= j <= i ==> signals[j] != s) ==>
                               Tally(signals, signals[i]) < Tally(signals, s)))
  {
    var s := Leading(signals, signals);
    assert GuessSiteType(signals) == SiteLabel(s);
  }

  // ---------------------------------------------------------------------
  // _build_calendar

  /** Year, month and day of a timestamp: its first 4, next 2 and next 2
      characters. */
  type Date = (string, string, string)

  function DateOf(ts: string): Date
    requires |ts| == 14
  {
    (ts[..4], ts[4..6], ts[6..8])
  }

  /** `HH:MM:SS` from the last six characters. */
  function TimeLabel(ts: string): string
    requires |ts| == 14
  {
    ts[8..10] + ":" + ts[10..12] + ":" + ts[12..14]
  }

  datatype Slot = Slot(timestamp: string, clock: string)

  /** A day: how many snapshots, the last of them, and all of them in the
      order given. */
  datatype DayEntry = DayEntry(day: string, count: nat, timestamp: string, times: seq<Slot>)

  datatype MonthEntry = MonthEntry(month: string, monthLabel: string, days: seq<DayEntry>)

  datatype YearEntry = YearEntry(year: string, months: seq<MonthEntry>)

  /** The short English name of a two-digit month; other text stands for
      itself. */
  function MonthName(m: string): string {
    if m == "01" then "Jan" else if m == "02" then "Feb" else if m == "03" then "Mar"
    else if m == "04" then "Apr" else if m == "05" then "May" else if m == "06" then "Jun"
    else if m == "07" then "Jul" else if m == "08" then "Aug" else if m == "09" then "Sep"
    else if m == "10" then "Oct" else if m == "11" then "Nov" else if m == "12" then "Dec"
    else m
  }

  predicate AllTimestamps(snaps: seq<string>) { forall i :: 0 <= i < |snaps| ==> Upstream.IsTimestamp(snaps[i]) }

  function SlotOf(ts: string): Slot {
    if |ts| == 14 then Slot(ts, TimeLabel(ts)) else Slot(ts, "")
  }

  function OnDate(d: Date): string -> bool {
    ts => |ts| == 14 && DateOf(ts) == d
  }

  /** The snapshots taken on a date, in the order given. */
  function DayTimes(snaps: seq<string>, d: Date): seq<string> {
    Filter(snaps, OnDate(d))
  }

  /** The calendar's entry for a date. */
  function DayOf(snaps: seq<string>, d: Date): DayEntry {
    var ts := DayTimes(snaps, d);
    DayEntry(d.2, |ts|, if ts == [] then "" else ts[|ts| - 1], Map(ts, SlotOf))
  }

  /** The dates with a snapshot. */
  function Dates(snaps: seq<string>): set<Date> {
    set i | 0 <= i < |snaps| && |snaps[i]| == 14 :: DateOf(snaps[i])
  }

  /** The years, the months of a year and the days of a month among some
      dates. */
  function YearsIn(ds: set<Date>): set<string>
  {
    set d | d in ds :: d.0
  }

  function MonthsIn(ds: set<Date>, y: string): set<string>
  {
    set d | d in ds && d.0 == y :: d.1
  }

  function DaysIn(ds: set<Date>, y: string, m: string): set<string>
  {
    set d | d in ds && d.0 == y && d.1 == m :: d.2
  }

  function DayFn(snaps: seq<string>, y: string, m: string): string -> DayEntry
  {
    d => DayOf(snaps, (y, m, d))
  }

  ghost function MonthOf(snaps: seq<string>, y: string, m: string): MonthEntry
  {
    MonthEntry(m, MonthName(m), Map(SortSet(DaysIn(Dates(snaps), y, m)), DayFn(snaps, y, m)))
  }

  ghost function MonthFn(snaps: seq<string>, y: string): string -> MonthEntry
  {
    m => MonthOf(snaps, y, m)
  }

  ghost function YearOf(snaps: seq<string>, y: string): YearEntry
  {
    YearEntry(y, Map(SortSetDesc(MonthsIn(Dates(snaps), y)), MonthFn(snaps, y)))
  }

  ghost function YearFn(snaps: seq<string>): string -> YearEntry
  {
    y => YearOf(snaps, y)
  }

  /** The calendar: years newest first, months newest first, days in
      calendar order. */
  ghost function CalendarOf(snaps: seq<string>): seq<YearEntry>
  {
    Map(SortSetDesc(YearsIn(Dates(snaps))), YearFn(snaps))
  }

  /** The dicts of `_build_calendar` after some snapshots, flattened to one
      dict keyed by date: a date is a key exactly when one of the snapshots
      falls on it, and holds that day's entry. */
  ghost predicate Accumulated(acc: map<Date, DayEntry>, snaps: seq<string>) {
    && acc.Keys == Dates(snaps)
    && (forall d | d in acc :: acc[d] == DayOf(snaps, d))
  }

  /** A date with no snapshot has no times. */
  lemma NoTimes(snaps: seq<string>, d: Date)
    requires d !in Dates(snaps)
    ensures DayTimes(snaps, d) == []
  {
    var t := DayTimes(snaps, d);
    if t != [] {
      FilterMembership(snaps, OnDate(d), t[0]);
      assert false;
    }
  }

  /** One more snapshot: its date gains it, every other date keeps its times. */
  lemma DayTimesSnoc(snaps: seq<string>, ts: string, d: Date)
    requires |ts| == 14
    ensures DayTimes(snaps + [ts], d) == DayTimes(snaps, d) + (if DateOf(ts) == d then [ts] else [])
  {
    FilterConcat(snaps, [ts], OnDate(d));
    assert Filter([ts], OnDate(d)) == (if DateOf(ts) == d then [ts] else []) by {
      assert [ts][1..] == [];
    }
  }

  lemma DatesSnoc(snaps: seq<string>, ts: string)
    requires |ts| == 14
    ensures Dates(snaps + [ts]) == Dates(snaps) + {DateOf(ts)}
  {
    var s := snaps + [ts];
    assert s[|snaps|] == ts;
    forall d | d in Dates(s) ensures d in Dates(snaps) + {DateOf(ts)} {
      var i :| 0 <= i < |s| && |s[i]| == 14 && DateOf(s[i]) == d;
      if i < |snaps| { assert s[i] == snaps[i]; }
    }
    forall d | d in Dates(snaps) ensures d in Dates(s) {
      var i :| 0 <= i < |snaps| && |snaps[i]| == 14 && DateOf(snaps[i]) == d;
      assert s[i] == snaps[i];
    }
  }

  /** One round of the loop of `_build_calendar`: the snapshot's day gains
      one to its count, becomes its latest timestamp and gains its time. */
  function Gather(acc: map<Date, DayEntry>, ts: string): map<Date, DayEntry>
    requires |ts| == 14
  {
    var d := DateOf(ts);
    var day := if d in acc then acc[d] else DayEntry(d.2, 0, ts, []);
    acc[d := DayEntry(d.2, day.count + 1, ts, day.times + [SlotOf(ts)])]
  }

  lemma AccumulateStep(acc: map<Date, DayEntry>, snaps: seq<string>, ts: string)
    requires Accumulated(acc, snaps) && |ts| == 14
    ensures Accumulated(Gather(acc, ts), snaps + [ts])
  {
    var acc' := Gather(acc, ts);
    DatesSnoc(snaps, ts);
    assert acc'.Keys == acc.Keys + {DateOf(ts)};
    forall e | e in acc' ensures acc'[e] == DayOf(snaps + [ts], e) {
      if e == DateOf(ts) {
        NewEntry(acc, snaps, ts);
      } else {
        GatherOther(acc, ts, e);
        OtherEntry(snaps, ts, e);
      }
    }
  }

  /** The other dates keep their entries. */
  lemma GatherOther(acc: map<Date, DayEntry>, ts: string, e: Date)
    requires |ts| == 14 && e != DateOf(ts) && e in Gather(acc, ts)
    ensures e in acc && Gather(acc, ts)[e] == acc[e]
  {
  }

  /** The entry for the new snapshot's date. */
  lemma NewEntry(acc: map<Date, DayEntry>, snaps: seq<string>, ts: string)
    requires Accumulated(acc, snaps) && |ts| == 14
    ensures Gather(acc, ts)[DateOf(ts)] == DayOf(snaps + [ts], DateOf(ts))
  {
    var d := DateOf(ts);
    DayTimesSnoc(snaps, ts, d);
    if d !in acc { NoTimes(snaps, d); }
    MapSnoc(DayTimes(snaps, d), ts, SlotOf);
  }

  /** Every other date keeps its entry. */
  lemma OtherEntry(snaps: seq<string>, ts: string, e: Date)
    requires |ts| == 14 && e != DateOf(ts)
    ensures DayOf(snaps + [ts], e) == DayOf(snaps, e)
  {
    DayTimesSnoc(snaps, ts, e);
  }

  /** sorted(s, reverse=True). */
  method SortStringsDesc(s: set<string>) returns (r: seq<string>)
    ensures r == SortSetDesc(s)
  {
    var a := SortStrings(s);
    r := Reverse(a);
  }

  /** `_build_calendar`: the snapshots are gathered by date into the dicts,
      then the years, months and days are listed in order. */
  method BuildCalendar(snaps: seq<string>) returns (out: seq<YearEntry>)
    requires AllTimestamps(snaps)
    ensures out == CalendarOf(snaps)
  {
    var acc: map<Date, DayEntry> := map[];
    for i := 0 to |snaps|
      invariant Accumulated(acc, snaps[..i])
    {
      var ts := snaps[i];
      AccumulateStep(acc, snaps[..i], ts);
      TakeSnoc(snaps, i);
      acc := Gather(acc, ts);
    }
    assert snaps[..|snaps|] == snaps;
    out := EmitYears(acc, snaps);
  }

  /** The outer loop of the listing: one entry per year, newest first. */
  method EmitYears(acc: map<Date, DayEntry>, snaps: seq<string>) returns (out: seq<YearEntry>)
    requires Accumulated(acc, snaps)
    ensures out == CalendarOf(snaps)
  {
    var years := SortStringsDesc(YearsIn(acc.Keys));
    out := [];
    for i := 0 to |years|
      invariant out == Map(years[..i], YearFn(snaps))
    {
      var months := EmitMonths(acc, snaps, years[i]);
      MapPrefix(years, i, YearFn(snaps));
      out := out + [YearEntry(years[i], months)];
    }
    MapWhole(years, YearFn(snaps));
  }

  /** The months of a year, newest first. */
  method EmitMonths(acc: map<Date, DayEntry>, snaps: seq<string>, y: string) returns (months: seq<MonthEntry>)
    requires Accumulated(acc, snaps)
    ensures months == YearOf(snaps, y).months
  {
    var ms := SortStringsDesc(MonthsIn(acc.Keys, y));
    months := [];
    for j := 0 to |ms|
      invariant months == Map(ms[..j], MonthFn(snaps, y))
    {
      var days := EmitDays(acc, snaps, y, ms[j]);
      MapPrefix(ms, j, MonthFn(snaps, y));
      months := months + [MonthEntry(ms[j], MonthName(ms[j]), days)];
    }
    MapWhole(ms, MonthFn(snaps, y));
  }

  /** The days of a month, in calendar order. */
  method EmitDays(acc: map<Date, DayEntry>, snaps: seq<string>, y: string, m: string) returns (days: seq<DayEntry>)
    requires Accumulated(acc, snaps)
    ensures days == MonthOf(snaps, y, m).days
  {
    var ds := SortStrings(DaysIn(acc.Keys, y, m));
    days := [];
    for k := 0 to |ds|
      invariant days == Map(ds[..k], DayFn(snaps, y, m))
    {
      assert ds[k] in DaysIn(acc.Keys, y, m);
      assert (y, m, ds[k]) in acc;
      MapPrefix(ds, k, DayFn(snaps, y, m));
      days := days + [acc[(y, m, ds[k])]];
    }
    MapWhole(ds, DayFn(snaps, y, m));
  }

  // ---------------------------------------------------------------------
  // What the calendar promises

  /** Two-character digit strings compare as `str` exactly as their values
      compare as `int`: the order of `sorted(..., key=int)` on days. */
  lemma TwoDigitOrder(a: string, b: string)
    requires |a| == 2 && |b| == 2 && IsDigits(a) && IsDigits(b)
    ensures Lt(a, b) <==> DigitsValue(a) < DigitsValue(b)
  {
    TwoDigitsValue(a);
    TwoDigitsValue(b);
    assert IsAsciiDigit(a[0]) && IsAsciiDigit(a[1]) && IsAsciiDigit(b[0]) && IsAsciiDigit(b[1]);
    if a[0] == b[0] {
      assert Lt(a, b) == Lt(a[1..], b[1..]);
      assert a[1..][1..] == [] && b[1..][1..] == [];
    }
  }

  lemma TwoDigitsValue(s: string)
    requires |s| == 2
    ensures DigitsValue(s) == 10 * DigitValue(s[0]) + DigitValue(s[1])
  {
    var h := s[..1];
    assert h[..0] == [];
    assert DigitsValue(h) == DigitValue(s[0]);
  }

  /** Years are listed newest first, each once. */
  lemma YearsDescending(snaps: seq<string>)
    ensures var cal := CalendarOf(snaps);
            forall i, j :: 0 <= i < j < |cal| ==> Lt(cal[j].year, cal[i].year)
  {
  }

  /** Within a year, months are listed newest first. */
  lemma MonthsDescending(snaps: seq<string>, y: string)
    ensures var months := YearOf(snaps, y).months;
            forall i, j :: 0 <= i < j < |months| ==> Lt(months[j].month, months[i].month)
  {
  }

  /** Within a month, days are listed in ascending numeric order. */
  lemma DaysAscending(snaps: seq<string>, y: string, m: string)
    requires AllTimestamps(snaps)
    ensures var days := MonthOf(snaps, y, m).days;
            forall i, j :: 0 <= i < j < |days| ==> DigitsValue(days[i].day) < DigitsValue(days[j].day)
  {
    var ds := SortSet(DaysIn(Dates(snaps), y, m));
    var days := MonthOf(snaps, y, m).days;
    forall i, j | 0 <= i < j < |days| ensures DigitsValue(days[i].day) < DigitsValue(days[j].day) {
      assert days[i].day == ds[i] && days[j].day == ds[j];
      DayDigits(snaps, y, m, ds[i]);
      DayDigits(snaps, y, m, ds[j]);
      TwoDigitOrder(ds[i], ds[j]);
    }
  }

  /** Every day of the calendar is two digits. */
  lemma DayDigits(snaps: seq<string>, y: string, m: string, day: string)
    requires AllTimestamps(snaps) && day in DaysIn(Dates(snaps), y, m)
    ensures |day| == 2 && IsDigits(day)
  {
    var d :| d in Dates(snaps) && d.0 == y && d.1 == m && d.2 == day;
    var i :| 0 <= i < |snaps| && |snaps[i]| == 14 && DateOf(snaps[i]) == d;
    assert Upstream.IsTimestamp(snaps[i]);
    assert day == snaps[i][6..8];
    assert forall k :: 0 <= k < 2 ==> day[k] == snaps[i][6 + k];
  }

  /** A listed day: as many snapshots as it has times, at least one, the
      latest of them as its timestamp, every one of them taken on that
      date and labelled with its time of day, in the order given. */
  lemma DayFacts(snaps: seq<string>, d: Date)
    requires d in Dates(snaps)
    ensures var e := DayOf(snaps, d);
            && e.day == d.2
            && e.count == |e.times| >= 1
            && e.timestamp == e.times[|e.times| - 1].timestamp
            && (forall k :: 0 <= k < |e.times| ==>
                  |e.times[k].timestamp| == 14 && DateOf(e.times[k].timestamp) == d
                  && e.times[k].clock == TimeLabel(e.times[k].timestamp))
            && Map(DayTimes(snaps, d), SlotOf) == e.times
  {
    var i :| 0 <= i < |snaps| && |snaps[i]| == 14 && DateOf(snaps[i]) == d;
    var t := DayTimes(snaps, d);
    FilterMembership(snaps, OnDate(d), snaps[i]);
    forall k | 0 <= k < |t| ensures |t[k]| == 14 && DateOf(t[k]) == d {
      FilterMembership(snaps, OnDate(d), t[k]);
    }
  }

  /** The entries of the calendar, of a year and of a month, by position. */
  lemma CalendarAt(snaps: seq<string>, a: nat)
    requires a < |CalendarOf(snaps)|
    ensures var ys := SortSetDesc(YearsIn(Dates(snaps)));
            a < |ys| && CalendarOf(snaps)[a] == YearOf(snaps, ys[a])
  {
  }

  lemma YearAt(snaps: seq<string>, y: string, b: nat)
    requires b < |YearOf(snaps, y).months|
    ensures var ms := SortSetDesc(MonthsIn(Dates(snaps), y));
            b < |ms| && YearOf(snaps, y).months[b] == MonthOf(snaps, y, ms[b])
  {
  }

  lemma MonthAt(snaps: seq<string>, y: string, m: string, c: nat)
    requires c < |MonthOf(snaps, y, m).days|
    ensures var ds := SortSet(DaysIn(Dates(snaps), y, m));
            c < |ds| && MonthOf(snaps, y, m).days[c] == DayOf(snaps, (y, m, ds[c]))
  {
  }

  /** A snapshot's time is among the times of its day. */
  lemma SlotListed(snaps: seq<string>, i: nat)
    requires i < |snaps| && |snaps[i]| == 14
    ensures SlotOf(snaps[i]) in DayOf(snaps, DateOf(snaps[i])).times
  {
    var d := DateOf(snaps[i]);
    var t := DayTimes(snaps, d);
    FilterMembership(snaps, OnDate(d), snaps[i]);
    var k :| 0 <= k < |t| && t[k] == snaps[i];
    assert DayOf(snaps, d).times[k] == SlotOf(snaps[i]);
  }

  /** Where a year, a month of it and a day of that are listed. */
  lemma YearIndex(snaps: seq<string>, y: string) returns (a: nat)
    requires y in YearsIn(Dates(snaps))
    ensures a < |CalendarOf(snaps)| && CalendarOf(snaps)[a] == YearOf(snaps, y)
  {
    var ys := SortSetDesc(YearsIn(Dates(snaps)));
    var k :| 0 <= k < |ys| && ys[k] == y;
    a := k;
  }

  lemma MonthIndex(snaps: seq<string>, y: string, m: string) returns (b: nat)
    requires m in MonthsIn(Dates(snaps), y)
    ensures b < |YearOf(snaps, y).months| && YearOf(snaps, y).months[b] == MonthOf(snaps, y, m)
  {
    var ms := SortSetDesc(MonthsIn(Dates(snaps), y));
    var k :| 0 <= k < |ms| && ms[k] == m;
    b := k;
  }

  lemma DayIndex(snaps: seq<string>, y: string, m: string, day: string) returns (c: nat)
    requires day in DaysIn(Dates(snaps), y, m)
    ensures c < |MonthOf(snaps, y, m).days| && MonthOf(snaps, y, m).days[c] == DayOf(snaps, (y, m, day))
  {
    var ds := SortSet(DaysIn(Dates(snaps), y, m));
    var k :| 0 <= k < |ds| && ds[k] == day;
    c := k;
  }

  /** Every snapshot is listed: under its year, its month and its day, with
      its time among that day's times. */
  lemma CalendarCovers(snaps: seq<string>, i: nat)
    requires i < |snaps| && |snaps[i]| == 14
    ensures var cal := CalendarOf(snaps);
            var d := DateOf(snaps[i]);
            exists a, b, c :: 0 <= a < |cal| && 0 <= b < |cal[a].months| && 0 <= c < |cal[a].months[b].days|
              && cal[a].year == d.0 && cal[a].months[b].month == d.1
              && cal[a].months[b].days[c] == DayOf(snaps, d)
              && SlotOf(snaps[i]) in DayOf(snaps, d).times
  {
    var d := DateOf(snaps[i]);
    assert d in Dates(snaps);
    assert d.0 in YearsIn(Dates(snaps)) && d.1 in MonthsIn(Dates(snaps), d.0) && d.2 in DaysIn(Dates(snaps), d.0, d.1);
    var a := YearIndex(snaps, d.0);
    var b := MonthIndex(snaps, d.0, d.1);
    var c := DayIndex(snaps, d.0, d.1, d.2);
    SlotListed(snaps, i);
  }

  /** Every listed day is the date of some snapshot. */
  lemma CalendarSound(snaps: seq<string>, a: nat, b: nat, c: nat)
    requires var cal := CalendarOf(snaps);
             a < |cal| && b < |cal[a].months| && c < |cal[a].months[b].days|
    ensures var cal := CalendarOf(snaps);
            var d := (cal[a].year, cal[a].months[b].month, cal[a].months[b].days[c].day);
            d in Dates(snaps) && cal[a].months[b].days[c] == DayOf(snaps, d)
  {
    var y := SortSetDesc(YearsIn(Dates(snaps)))[a];
    CalendarAt(snaps, a);
    var m := SortSetDesc(MonthsIn(Dates(snaps), y))[b];
    YearAt(snaps, y, b);
    var day := SortSet(DaysIn(Dates(snaps), y, m))[c];
    MonthAt(snaps, y, m, c);
    assert day in DaysIn(Dates(snaps), y, m);
  }
}
