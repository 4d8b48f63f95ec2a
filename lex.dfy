/** Python's ordering of `str` values (code point by code point, a proper
    prefix first) and `sorted(set_of_strings)`: the engine compares
    14-digit capture timestamps and output-directory names this way. */
module Lex {
  import opened Seqs

  predicate Lt(a: string, b: string) {
    if |a| == 0 then |b| > 0
    else if |b| == 0 then false
    else if a[0] != b[0] then a[0] < b[0]
    else Lt(a[1..], b[1..])
  }

  predicate Le(a: string, b: string) { a == b || Lt(a, b) }

  lemma {:induction false} LtIrreflexive(a: string)
    ensures !Lt(a, a)
  {
    if |a| > 0 { LtIrreflexive(a[1..]); }
  }

  lemma {:induction false} LtTransitive(a: string, b: string, c: string)
    requires Lt(a, b) && Lt(b, c)
    ensures Lt(a, c)
  {
    if |a| > 0 && |b| > 0 && |c| > 0 && a[0] == b[0] && b[0] == c[0] {
      LtTransitive(a[1..], b[1..], c[1..]);
    }
  }

  lemma {:induction false} LtTotal(a: string, b: string)
    requires a != b
    ensures Lt(a, b) || Lt(b, a)
  {
    if |a| > 0 && |b| > 0 && a[0] == b[0] {
      assert a == [a[0]] + a[1..] && b == [b[0]] + b[1..];
      LtTotal(a[1..], b[1..]);
    }
  }

  lemma LtAsymmetric(a: string, b: string)
    requires Lt(a, b)
    ensures !Lt(b, a)
  {
    if Lt(b, a) { LtTransitive(a, b, a); LtIrreflexive(a); }
  }

  predicate StrictlyAscending(xs: seq<string>) {
    forall i, j :: 0 <= i < j < |xs| ==> Lt(xs[i], xs[j])
  }

  /** Inserts `x` into an ascending list, leaving it unchanged when `x` is
      already there. */
  function InsertAsc(x: string, r: seq<string>): (t: seq<string>)
    ensures forall y :: y in t <==> y == x || y in r
  {
    if r == [] then [x]
    else if x == r[0] then r
    else if Lt(x, r[0]) then [x] + r
    else
      var t := [r[0]] + InsertAsc(x, r[1..]);
      assert forall y :: y in r <==> y == r[0] || y in r[1..];
      t
  }

  lemma {:induction false} InsertAscSorted(x: string, r: seq<string>)
    requires StrictlyAscending(r)
    ensures StrictlyAscending(InsertAsc(x, r))
  {
    if r == [] || x == r[0] {
    } else if Lt(x, r[0]) {
      forall j | 1 <= j < |r| ensures Lt(x, r[j]) { LtTransitive(x, r[0], r[j]); }
    } else {
      LtTotal(x, r[0]);
      InsertAscSorted(x, r[1..]);
      var t := InsertAsc(x, r[1..]);
      forall j | 0 <= j < |t| ensures Lt(r[0], t[j]) {
        assert t[j] in t;
        if t[j] != x {
          var i :| 0 <= i < |r[1..]| && r[1..][i] == t[j];
          assert r[i + 1] == t[j];
        }
      }
    }
  }

  /** sorted(s) for a set of strings: its elements in ascending order. */
  ghost function SortSet(s: set<string>): (r: seq<string>)
    ensures forall x :: x in r <==> x in s
    ensures StrictlyAscending(r)
    decreases |s|
  {
    if s == {} then []
    else
      var x :| x in s;
      var rest := SortSet(s - {x});
      InsertAscSorted(x, rest);
      InsertAsc(x, rest)
  }

  lemma {:induction false} StrictlyAscendingUnique(a: seq<string>, b: seq<string>)
    requires StrictlyAscending(a) && StrictlyAscending(b)
    requires forall x :: x in a <==> x in b
    ensures a == b
  {
    if a != [] { assert a[0] in b; }
    if b != [] { assert b[0] in a; }
    if a != [] && b != [] {
      // Both heads are the least element of the common set.
      if a[0] != b[0] {
        assert b[0] in a;
        var i :| 0 <= i < |a| && a[i] == b[0];
        assert a[0] in b;
        var j :| 0 <= j < |b| && b[j] == a[0];
        assert Lt(a[0], b[0]) by { if i == 0 { } }
        assert Lt(b[0], a[0]) by { if j == 0 { } }
        LtAsymmetric(a[0], b[0]);
      }
      forall x ensures x in a[1..] <==> x in b[1..] {
        if x in a[1..] {
          var i :| 0 <= i < |a[1..]| && a[1..][i] == x;
          assert Lt(a[0], a[i + 1]);
          LtIrreflexive(x);
          assert a[i + 1] == x && x in a;
          var j :| 0 <= j < |b| && b[j] == x;
          assert j != 0;
          assert b[1..][j - 1] == x;
        }
        if x in b[1..] {
          var j :| 0 <= j < |b[1..]| && b[1..][j] == x;
          assert Lt(b[0], b[j + 1]);
          LtIrreflexive(x);
          assert b[j + 1] == x && x in b;
          var i :| 0 <= i < |a| && a[i] == x;
          assert i != 0;
          assert a[1..][i - 1] == x;
        }
      }
      StrictlyAscendingUnique(a[1..], b[1..]);
    }
  }

  /** sorted(xs) of a set given as a list: the same as sorting its set. */
  lemma SortSetCanonical(xs: seq<string>, s: set<string>)
    requires StrictlyAscending(xs)
    requires forall x :: x in xs <==> x in s
    ensures xs == SortSet(s)
  {
    StrictlyAscendingUnique(xs, SortSet(s));
  }

  /** sorted(s, reverse=True). */
  ghost function SortSetDesc(s: set<string>): (r: seq<string>)
    ensures forall x :: x in r <==> x in s
    ensures forall i, j :: 0 <= i < j < |r| ==> Lt(r[j], r[i])
  {
    var a := SortSet(s);
    var r := Reverse(a);
    assert forall x :: x in r <==> x in a by {
      forall x ensures x in r <==> x in a {
        if x in a { var i :| 0 <= i < |a| && a[i] == x; assert r[|a| - 1 - i] == x; }
      }
    }
    r
  }

  /** Computes sorted(s) by repeated insertion. */
  method SortStrings(s: set<string>) returns (r: seq<string>)
    ensures r == SortSet(s)
  {
    var remaining := s;
    r := [];
    while remaining != {}
      invariant StrictlyAscending(r)
      invariant forall x :: x in r <==> x in s && x !in remaining
      invariant remaining <= s
      decreases |remaining|
    {
      var x :| x in remaining;
      InsertAscSorted(x, r);
      r := InsertAsc(x, r);
      remaining := remaining - {x};
    }
    StrictlyAscendingUnique(r, SortSet(s));
  }
}
