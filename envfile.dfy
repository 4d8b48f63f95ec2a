/** The launcher's `.env` reader, `load_env_file`: each `KEY=value` line
    sets a variable the environment does not have yet. The file's lines
    are given as already split (`splitlines`); a missing file is `None`. */
module EnvFile {
  import opened Common
  import opened Seqs

  /** The variable a line sets: none for a blank line, a `#` comment or a
      line without `=`; otherwise the text before the first `=`, trimmed,
      and the text after it, trimmed and then cleared of surrounding double
      and then single quotes. */
  function ParseLine(raw: string): (r: Option<(string, string)>)
    ensures r.None? <==> Strip(raw) == "" || StartsWith(Strip(raw), "#") || '=' !in Strip(raw)
    ensures r.Some? ==> '=' !in r.value.0
  {
    ParseTrimmed(Strip(raw))
  }

  /** The same reading of a line already trimmed. */
  function ParseTrimmed(line: string): (r: Option<(string, string)>)
    ensures r.None? <==> line == "" || StartsWith(line, "#") || '=' !in line
    ensures r.Some? ==> '=' !in r.value.0
  {
    if line == "" || StartsWith(line, "#") || '=' !in line then None
    else
      var (key, rest) := SplitFirst(line, '=');
      StripKeepsAbsent(key, '=');
      Some((Strip(key), Unquote(Strip(rest.value))))
  }

  /** `.strip('"').strip("'")`. */
  function Unquote(v: string): string {
    StripWith(StripWith(v, IsQuote2), IsQuote1)
  }

  /** A line read: the variable it names and the value, if it sets one. */
  type Entry = Option<(string, string)>

  /** One line's effect on the environment: only a non-empty key not
      already set is written. */
  function Apply(env: map<string, string>, entry: Entry): (r: map<string, string>)
    ensures forall k :: k in env ==> k in r && r[k] == env[k]
    ensures forall k :: k in r && k !in env ==> entry.Some? && k == entry.value.0 && k != ""
  {
    if entry.Some? && entry.value.0 != "" && entry.value.0 !in env then env[entry.value.0 := entry.value.1]
    else env
  }

  /** The environment after reading lines, given as what each one reads as. */
  function Loaded(env: map<string, string>, entries: seq<Entry>): map<string, string> {
    if entries == [] then env else Apply(Loaded(env, entries[..|entries| - 1]), entries[|entries| - 1])
  }

  /** The process environment (`os.environ`). */
  class Environment {
    var vars: map<string, string>

    constructor (vars: map<string, string>)
      ensures this.vars == vars
    {
      this.vars := vars;
    }

    /** `load_env_file`: a missing file changes nothing; otherwise the
        lines are read in order. */
    method LoadEnvFile(file: Option<seq<string>>)
      modifies this
      ensures file.None? ==> vars == old(vars)
      ensures file.Some? ==> vars == Loaded(old(vars), Map(file.value, ParseLine))
    {
      if file.None? {
        return;
      }
      var lines := file.value;
      ghost var entries := Map(lines, ParseLine);
      for i := 0 to |lines|
        invariant vars == Loaded(old(vars), entries[..i])
      {
        var entry := ParseLine(lines[i]);
        assert entry == entries[i];
        LoadedSnoc(old(vars), entries, i);
        ghost var before := vars;
        var key := if entry.Some? then entry.value.0 else "";
        if entry.Some? && key != "" && key !in vars {
          vars := vars[key := entry.value.1];
        }
        assert vars == Apply(before, entry);
      }
      assert entries[..|lines|] == entries;
    }
  }

  lemma LoadedSnoc(env: map<string, string>, entries: seq<Entry>, i: nat)
    requires i < |entries|
    ensures Loaded(env, entries[..i + 1]) == Apply(Loaded(env, entries[..i]), entries[i])
  {
    assert entries[..i + 1][..i] == entries[..i];
  }

  // ---------------------------------------------------------------------
  // Reading a line

  /** A line in the written form `KEY=value` reads back as that pair when
      the key is trimmed, non-empty, free of `=` and not a comment, and the
      value has no white space or quote at either end (it may hold `=`). */
  lemma ParseLineRoundTrip(key: string, value: string)
    requires key != "" && !IsSpace(key[0]) && !IsSpace(key[|key| - 1]) && '=' !in key && key[0] != '#'
    requires value == [] || (!IsSpace(value[0]) && !IsSpace(value[|value| - 1]))
    requires value == [] || (!IsQuote2(value[0]) && !IsQuote2(value[|value| - 1]))
    requires value == [] || (!IsQuote1(value[0]) && !IsQuote1(value[|value| - 1]))
    ensures ParseLine(key + ['='] + value) == Some((key, value))
  {
    TrimmedRoundTrip(key, value);
    LineShape(key, value);
  }

  /** The same for the line already trimmed. */
  lemma TrimmedRoundTrip(key: string, value: string)
    requires key != "" && !IsSpace(key[0]) && !IsSpace(key[|key| - 1]) && '=' !in key && key[0] != '#'
    requires value == [] || (!IsSpace(value[0]) && !IsSpace(value[|value| - 1]))
    requires value == [] || (!IsQuote2(value[0]) && !IsQuote2(value[|value| - 1]))
    requires value == [] || (!IsQuote1(value[0]) && !IsQuote1(value[|value| - 1]))
    ensures ParseTrimmed(key + ['='] + value) == Some((key, value))
  {
    var line := key + ['='] + value;
    assert !StartsWith(line, "#") by { assert line[0] == key[0]; }
    FirstSplit(key, value);
    ParseSetting(line, key, value);
  }

  lemma ValueClean(value: string)
    requires value == [] || (!IsSpace(value[0]) && !IsSpace(value[|value| - 1]))
    requires value == [] || (!IsQuote2(value[0]) && !IsQuote2(value[|value| - 1]))
    requires value == [] || (!IsQuote1(value[0]) && !IsQuote1(value[|value| - 1]))
    ensures Unquote(Strip(value)) == value
  {
    StripWithNoEnds(value, IsSpace);
    StripWithNoEnds(value, IsQuote2);
    StripWithNoEnds(value, IsQuote1);
  }

  /** A trimmed line that is no comment and holds `=` sets a variable. */
  lemma ParseSetting(line: string, key: string, value: string)
    requires line != "" && !StartsWith(line, "#")
    requires SplitFirst(line, '=') == (key, Some(value))
    requires key != "" && !IsSpace(key[0]) && !IsSpace(key[|key| - 1])
    requires value == [] || (!IsSpace(value[0]) && !IsSpace(value[|value| - 1]))
    requires value == [] || (!IsQuote2(value[0]) && !IsQuote2(value[|value| - 1]))
    requires value == [] || (!IsQuote1(value[0]) && !IsQuote1(value[|value| - 1]))
    ensures ParseTrimmed(line) == Some((key, value))
  {
    StripWithNoEnds(key, IsSpace);
    ValueClean(value);
  }

  /** Such a line is already trimmed, is no comment and holds `=`. */
  lemma LineShape(key: string, value: string)
    requires key != "" && !IsSpace(key[0]) && !IsSpace(key[|key| - 1])
    requires value == [] || (!IsSpace(value[0]) && !IsSpace(value[|value| - 1]))
    ensures var line := key + ['='] + value; Strip(line) == line
  {
    var line := key + ['='] + value;
    assert line[0] == key[0];
    assert line[|line| - 1] == if value == [] then '=' else value[|value| - 1];
    StripWithNoEnds(line, IsSpace);
  }

  /** Splitting `key=value` at its first `=` finds `key` when `key` has
      no `=`. */
  lemma FirstSplit(key: string, value: string)
    requires '=' !in key
    ensures SplitFirst(key + ['='] + value, '=') == (key, Some(value))
  {
    var line := key + ['='] + value;
    assert line[|key|] == '=';
    assert forall i :: 0 <= i < |key| ==> line[i] == key[i];
    assert IndexOf(line, '=') == |key|;
    assert line[..|key|] == key && line[|key| + 1..] == value;
  }

  /** A value wrapped in single quotes loses them. Double quotes are
      cleared first, so double quotes inside single quotes stay: `v` may
      itself start and end with `"`. */
  lemma UnquoteSingle(v: string)
    requires v != [] && !IsQuote1(v[0]) && !IsQuote1(v[|v| - 1])
    ensures Unquote(['\''] + v + ['\'']) == v
  {
    var a := ['\''] + v + ['\''];
    assert a[0] == '\'' && a[|a| - 1] == '\'';
    StripWithNoEnds(a, IsQuote2);
    SingleQuotesOff(v);
  }

  /** Stripping single quotes from `'v'` gives `v` when `v` has none at
      its ends. */
  lemma SingleQuotesOff(v: string)
    requires v != [] && !IsQuote1(v[0]) && !IsQuote1(v[|v| - 1])
    ensures StripWith(['\''] + v + ['\''], IsQuote1) == v
  {
    LeadingQuoteOff(v);
    TrailingQuoteOff(v);
  }

  lemma LeadingQuoteOff(v: string)
    requires v != [] && !IsQuote1(v[0])
    ensures LStripWith(['\''] + v + ['\''], IsQuote1) == v + ['\'']
  {
    var a := ['\''] + v + ['\''];
    assert a[1..] == v + ['\''];
    LStripWithNoHead(v + ['\''], IsQuote1);
  }

  lemma TrailingQuoteOff(v: string)
    requires v != [] && !IsQuote1(v[|v| - 1])
    ensures RStripWith(v + ['\''], IsQuote1) == v
  {
    assert (v + ['\''])[..|v|] == v;
  }

  // ---------------------------------------------------------------------
  // What loading promises

  /** Loading never overwrites a variable that is already set. */
  lemma {:induction false} LoadedKeeps(env: map<string, string>, entries: seq<Entry>)
    ensures forall k :: k in env ==> k in Loaded(env, entries) && Loaded(env, entries)[k] == env[k]
  {
    if entries != [] {
      LoadedKeeps(env, entries[..|entries| - 1]);
    }
  }

  /** Every variable loading adds has a non-empty key that some line sets. */
  lemma {:induction false} LoadedFromLines(env: map<string, string>, entries: seq<Entry>)
    ensures forall k :: k in Loaded(env, entries) && k !in env ==>
              k != "" && exists i :: 0 <= i < |entries| && entries[i].Some? && entries[i].value.0 == k
  {
    if entries != [] {
      var init := entries[..|entries| - 1];
      LoadedFromLines(env, init);
      forall k | k in Loaded(env, entries) && k !in env
        ensures k != "" && exists i :: 0 <= i < |entries| && entries[i].Some? && entries[i].value.0 == k
      {
        if k in Loaded(env, init) {
          var i :| 0 <= i < |init| && init[i].Some? && init[i].value.0 == k;
          assert entries[i] == init[i];
        } else {
          assert entries[|entries| - 1].Some? && entries[|entries| - 1].value.0 == k;
        }
      }
    }
  }

  /** Lines that set nothing (blank, comments, no `=`) leave the
      environment as it was. */
  lemma IgnoredLine(env: map<string, string>, raw: string)
    requires Strip(raw) == "" || StartsWith(Strip(raw), "#") || '=' !in Strip(raw)
    ensures Apply(env, ParseLine(raw)) == env
  {
  }

  /** When several lines set the same new variable, the first one wins. */
  lemma {:induction false} FirstLineWins(env: map<string, string>, entries: seq<Entry>, i: nat, key: string, value: string)
    requires i < |entries| && key != "" && key !in env
    requires entries[i] == Some((key, value))
    requires forall j :: 0 <= j < i ==> entries[j].None? || entries[j].value.0 != key
    ensures key in Loaded(env, entries) && Loaded(env, entries)[key] == value
  {
    var init := entries[..|entries| - 1];
    if i == |entries| - 1 {
      forall j | 0 <= j < |init| ensures init[j].None? || init[j].value.0 != key {
        assert init[j] == entries[j];
      }
      NotYetSet(env, init, key);
    } else {
      assert init[i] == entries[i];
      forall j | 0 <= j < i ensures init[j].None? || init[j].value.0 != key {
        assert init[j] == entries[j];
      }
      FirstLineWins(env, init, i, key, value);
      LoadedKeeps(Loaded(env, init), [entries[|entries| - 1]]);
      assert Loaded(env, entries) == Apply(Loaded(env, init), entries[|entries| - 1]);
    }
  }

  /** A key no line sets is not set by loading them. */
  lemma {:induction false} NotYetSet(env: map<string, string>, entries: seq<Entry>, key: string)
    requires key !in env
    requires forall j :: 0 <= j < |entries| ==> entries[j].None? || entries[j].value.0 != key
    ensures key !in Loaded(env, entries)
  {
    if entries != [] {
      var init := entries[..|entries| - 1];
      forall j | 0 <= j < |init| ensures init[j].None? || init[j].value.0 != key {
        assert init[j] == entries[j];
      }
      NotYetSet(env, init, key);
    }
  }
}
