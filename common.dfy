/** Values shared by every module of the model: optional values, results
    carrying the engine's error conditions, bytes, and the handful of Python
    string operations (str.strip, str.lower, startswith, find, split, join)
    that the engine's code leans on. */
module Common {

  datatype Option<T> = None | Some(value: T)

  datatype Result<T, E> = Ok(value: T) | Err(error: E)

  type byte = b: int | 0 <= b < 256

  /** The RuntimeError messages the engine raises, as one error type. */
  datatype Failure =
    | UrlRequired              // "URL is required"
    | InvalidUrl               // "Invalid URL"
    | ArchiveUnavailable       // "Archive.org is temporarily unavailable (503) ..."
    | ListingTimedOut          // "Wayback API timed out while listing snapshots ..."
    | WaybackNoResponse        // "Wayback did not respond in time ..."
    | NoArchivedSnapshots      // "No archived snapshots found for this URL"
    | ManifestNotFound(dir: seq<string>)
    | WriteFailed(localPath: string)

  function Max(a: int, b: int): int { if a >= b then a else b }

  function Min(a: int, b: int): int { if a <= b then a else b }

  // ---------------------------------------------------------------------
  // Characters

  /** Python's str.isspace, code point by code point. */
  predicate IsSpace(c: char) {
    var n := c as int;
    (9 <= n <= 13) || (28 <= n <= 32) || n == 0x85 || n == 0xA0 || n == 0x1680
    || (0x2000 <= n <= 0x200A) || n == 0x2028 || n == 0x2029 || n == 0x202F
    || n == 0x205F || n == 0x3000
  }

  predicate IsAsciiDigit(c: char) { '0' <= c <= '9' }

  predicate IsAsciiAlpha(c: char) { 'a' <= c <= 'z' || 'A' <= c <= 'Z' }

  predicate IsAsciiUpper(c: char) { 'A' <= c <= 'Z' }

  /** Python's str.isdigit restricted to ASCII: non-empty and all digits. */
  predicate IsDigits(s: string) {
    |s| > 0 && forall i :: 0 <= i < |s| ==> IsAsciiDigit(s[i])
  }

  function LowerChar(c: char): (r: char)
    ensures !IsAsciiUpper(r)
    ensures IsAsciiUpper(c) || r == c
  {
    if IsAsciiUpper(c) then (c as int + 32) as char else c
  }

  /** str.lower() on the ASCII letters. */
  function Lower(s: string): (r: string)
    ensures |r| == |s|
    ensures forall i :: 0 <= i < |r| ==> !IsAsciiUpper(r[i])
    ensures forall i :: 0 <= i < |r| ==> (r[i] == s[i] <==> !IsAsciiUpper(s[i]))
  {
    seq(|s|, i requires 0 <= i < |s| => LowerChar(s[i]))
  }

  lemma LowerIdempotent(s: string)
    ensures Lower(Lower(s)) == Lower(s)
  {
  }

  lemma LowerOfLower(s: string)
    requires forall i :: 0 <= i < |s| ==> !IsAsciiUpper(s[i])
    ensures Lower(s) == s
  {
  }

  /** Lower-casing introduces no character other than a letter. */
  lemma LowerNoChar(s: string, c: char)
    requires !IsAsciiAlpha(c) && c !in s
    ensures c !in Lower(s)
  {
    forall i | 0 <= i < |s| ensures Lower(s)[i] != c {
      if IsAsciiUpper(s[i]) { assert 'a' <= Lower(s)[i] <= 'z'; }
    }
  }

  /** Lower-casing turns no character into white space or out of it. */
  lemma LowerKeepsSpace(s: string, i: nat)
    requires i < |s|
    ensures IsSpace(Lower(s)[i]) <==> IsSpace(s[i])
  {
  }

  /** No white space at either end. */
  predicate Trimmed(x: string) { x == [] || (!IsSpace(x[0]) && !IsSpace(x[|x| - 1])) }

  lemma LowerTrimmed(x: string)
    requires Trimmed(x)
    ensures Trimmed(Lower(x))
  {
    if x != [] {
      LowerKeepsSpace(x, 0);
      LowerKeepsSpace(x, |x| - 1);
    }
  }

  lemma LowerConcat(a: string, b: string)
    ensures Lower(a + b) == Lower(a) + Lower(b)
  {
  }

  // ---------------------------------------------------------------------
  // Prefixes, suffixes, searching

  /** A string with at least one character. */
  predicate NonEmpty(s: string) { s != "" }

  predicate StartsWith(s: string, p: string) { |p| <= |s| && s[..|p|] == p }

  predicate EndsWith(s: string, p: string) { |p| <= |s| && s[|s| - |p|..] == p }

  predicate OccursAt(s: string, sub: string, i: int) {
    0 <= i && i + |sub| <= |s| && s[i..i + |sub|] == sub
  }

  /** The first index at or after `from` where `sub` occurs, or -1 (str.find). */
  function FindFrom(s: string, sub: string, from: nat): (r: int)
    requires from <= |s|
    ensures r == -1 || (from <= r && OccursAt(s, sub, r))
    ensures forall i :: from <= i && (r == -1 || i < r) ==> !OccursAt(s, sub, i)
    decreases |s| - from
  {
    if from + |sub| > |s| then -1
    else if s[from..from + |sub|] == sub then from
    else FindFrom(s, sub, from + 1)
  }

  function Find(s: string, sub: string): (r: int)
    ensures r == -1 || OccursAt(s, sub, r)
    ensures forall i :: 0 <= i && (r == -1 || i < r) ==> !OccursAt(s, sub, i)
  {
    FindFrom(s, sub, 0)
  }

  /** Python's `sub in s`. */
  predicate Contains(s: string, sub: string) { Find(s, sub) >= 0 }

  /** The index of the first character satisfying `p`, or |s| when there is none. */
  function IndexWhere(s: string, p: char -> bool): (r: nat)
    ensures r <= |s|
    ensures r < |s| ==> p(s[r])
    ensures forall i :: 0 <= i < r ==> !p(s[i])
  {
    if s == [] then 0 else if p(s[0]) then 0 else 1 + IndexWhere(s[1..], p)
  }

  /** The index of the first `c` in `s`, or |s| when `c` does not occur. */
  function IndexOf(s: string, c: char): (r: nat)
    ensures r <= |s|
    ensures r < |s| ==> s[r] == c
    ensures forall i :: 0 <= i < r ==> s[i] != c
    ensures r == |s| <==> c !in s
  {
    if s == [] then 0 else if s[0] == c then 0 else 1 + IndexOf(s[1..], c)
  }

  /** The index of the last `c` in `s`, or -1 (str.rfind). */
  function LastIndexOf(s: string, c: char): (r: int)
    ensures -1 <= r < |s|
    ensures r >= 0 ==> s[r] == c
    ensures forall i :: r < i < |s| ==> s[i] != c
    ensures r == -1 <==> c !in s
  {
    if s == [] then -1
    else if s[|s| - 1] == c then |s| - 1
    else LastIndexOf(s[..|s| - 1], c)
  }

  /** str.count for one character. */
  function CountChar(s: string, c: char): (r: nat)
    ensures r <= |s|
    ensures r == 0 <==> c !in s
  {
    if s == [] then 0 else (if s[0] == c then 1 else 0) + CountChar(s[1..], c)
  }

  // ---------------------------------------------------------------------
  // Stripping

  /** str.lstrip with a character class. */
  function LStripWith(s: string, p: char -> bool): (r: string)
    ensures |r| <= |s| && r == s[|s| - |r|..]
    ensures r == [] || !p(r[0])
    ensures forall i :: 0 <= i < |s| - |r| ==> p(s[i])
  {
    if s != [] && p(s[0]) then LStripWith(s[1..], p) else s
  }

  /** str.rstrip with a character class. */
  function RStripWith(s: string, p: char -> bool): (r: string)
    ensures |r| <= |s| && r == s[..|r|]
    ensures r == [] || !p(r[|r| - 1])
    ensures forall i :: |r| <= i < |s| ==> p(s[i])
  {
    if s != [] && p(s[|s| - 1]) then RStripWith(s[..|s| - 1], p) else s
  }

  /** str.strip with a character class: what remains is a slice of `s`
      that neither starts nor ends with a stripped character. */
  function StripWith(s: string, p: char -> bool): (r: string)
    ensures |r| <= |s|
    ensures exists i :: OccursAt(s, r, i)
    ensures r == [] || (!p(r[0]) && !p(r[|r| - 1]))
  {
    var l := LStripWith(s, p);
    var r := RStripWith(l, p);
    assert OccursAt(s, r, |s| - |l|);
    r
  }

  /** Stripping keeps a property every character has. */
  lemma StripWithKeeps(s: string, p: char -> bool, q: char -> bool)
    requires forall i :: 0 <= i < |s| ==> q(s[i])
    ensures forall i :: 0 <= i < |StripWith(s, p)| ==> q(StripWith(s, p)[i])
  {
    var r := StripWith(s, p);
    var k :| OccursAt(s, r, k);
    OccursAtChars(s, r, k);
  }

  lemma OccursAtChars(s: string, sub: string, k: int)
    requires OccursAt(s, sub, k)
    ensures forall i :: 0 <= i < |sub| ==> sub[i] == s[k + i]
  {
    forall i | 0 <= i < |sub| ensures sub[i] == s[k + i] {
      assert sub[i] == s[k..k + |sub|][i];
    }
  }

  lemma StripWithNoEnds(s: string, p: char -> bool)
    requires s == [] || (!p(s[0]) && !p(s[|s| - 1]))
    ensures StripWith(s, p) == s
  {
  }

  lemma LStripWithNoHead(s: string, p: char -> bool)
    requires s == [] || !p(s[0])
    ensures LStripWith(s, p) == s
  {
  }

  /** str.strip() with no argument. */
  function Strip(s: string): (r: string)
    ensures |r| <= |s|
    ensures r == [] || (!IsSpace(r[0]) && !IsSpace(r[|r| - 1]))
  {
    StripWith(s, IsSpace)
  }

  /** Stripping introduces no character. */
  lemma StripKeepsAbsent(s: string, c: char)
    requires c !in s
    ensures c !in Strip(s)
  {
    var r := Strip(s);
    var i :| OccursAt(s, r, i);
    OccursAtChars(s, r, i);
    forall k | 0 <= k < |r| ensures r[k] != c {
      assert r[k] == s[i + k];
    }
  }

  lemma StripIdempotent(s: string)
    ensures Strip(Strip(s)) == Strip(s)
  {
    StripWithNoEnds(Strip(s), IsSpace);
  }

  predicate IsQuote2(c: char) { c == '"' }
  predicate IsQuote1(c: char) { c == '\'' }

  // ---------------------------------------------------------------------
  // Splitting and joining

  /** sep.join(parts). */
  function Join(parts: seq<string>, sep: string): string
  {
    if |parts| == 0 then ""
    else if |parts| == 1 then parts[0]
    else parts[0] + sep + Join(parts[1..], sep)
  }

  /** str.split(c): every field, empty ones included; joining the fields
      with `c` gives back `s`. */
  function SplitOn(s: string, c: char): (r: seq<string>)
    ensures |r| >= 1
    ensures forall k :: 0 <= k < |r| ==> c !in r[k]
    ensures Join(r, [c]) == s
    decreases |s|
  {
    var i := IndexOf(s, c);
    if i == |s| then [s]
    else
      var rest := SplitOn(s[i + 1..], c);
      assert s == s[..i] + [c] + s[i + 1..];
      [s[..i]] + rest
  }

  lemma {:induction false} SplitOnJoin(parts: seq<string>, c: char)
    requires |parts| >= 1
    requires forall k :: 0 <= k < |parts| ==> c !in parts[k]
    ensures SplitOn(Join(parts, [c]), c) == parts
  {
    if |parts| > 1 {
      var tail := Join(parts[1..], [c]);
      assert Join(parts, [c]) == parts[0] + [c] + tail;
      assert c !in parts[0];
      SplitOnCons(parts[0], tail, c);
      SplitOnJoin(parts[1..], c);
      assert parts == [parts[0]] + parts[1..];
    }
  }

  /** Splitting a field free of `c`, then `c`, then the rest. */
  lemma SplitOnCons(head: string, tail: string, c: char)
    requires c !in head
    ensures SplitOn(head + [c] + tail, c) == [head] + SplitOn(tail, c)
  {
    var s := head + [c] + tail;
    assert s[|head|] == c;
    assert forall i :: 0 <= i < |head| ==> s[i] == head[i];
    assert IndexOf(s, c) == |head|;
    assert s[..|head|] == head;
    assert s[|head| + 1..] == tail;
  }

  /** str.split(c, 1): the text before the first `c` and, when `c` occurs,
      the text after it. */
  function SplitFirst(s: string, c: char): (r: (string, Option<string>))
    ensures r.1.None? <==> c !in s
    ensures c !in r.0
    ensures r.1.Some? ==> s == r.0 + [c] + r.1.value
    ensures r.1.None? ==> r.0 == s
  {
    var i := IndexOf(s, c);
    if i == |s| then (s, None)
    else
      assert s == s[..i] + [c] + s[i + 1..];
      (s[..i], Some(s[i + 1..]))
  }

  // ---------------------------------------------------------------------
  // Integers written in decimal

  function DigitValue(c: char): nat { if IsAsciiDigit(c) then c as int - '0' as int else 0 }

  /** The value of a string of decimal digits; other characters count as 0. */
  function DigitsValue(s: string): nat {
    if s == [] then 0 else 10 * DigitsValue(s[..|s| - 1]) + DigitValue(s[|s| - 1])
  }

  /** str(n) for a natural number. */
  function ShowNat(n: nat): (r: string)
    ensures IsDigits(r)
  {
    if n < 10 then [('0' as int + n) as char]
    else ShowNat(n / 10) + [('0' as int + n % 10) as char]
  }

  /** Reading back the decimal form of a number gives the number. */
  lemma {:induction false} ShowNatRoundTrip(n: nat)
    ensures DigitsValue(ShowNat(n)) == n
  {
    if n >= 10 {
      var s := ShowNat(n);
      assert s[..|s| - 1] == ShowNat(n / 10);
      ShowNatRoundTrip(n / 10);
    }
  }

  /** The digits int() accepts after the sign: ASCII digits, with single
      underscores between two digits. */
  predicate IsDigitGroups(s: string) {
    |s| > 0 && forall i :: 0 <= i < |s| ==> GroupCharAt(s, i)
  }

  /** Position `i` holds a digit, or an underscore between two digits. */
  predicate GroupCharAt(s: string, i: int)
    requires 0 <= i < |s|
  {
    IsAsciiDigit(s[i]) || (s[i] == '_' && 0 < i < |s| - 1 && IsAsciiDigit(s[i - 1]) && IsAsciiDigit(s[i + 1]))
  }

  function WithoutUnderscores(s: string): (r: string)
    ensures |r| <= |s|
  {
    if s == [] then [] else (if s[0] == '_' then [] else [s[0]]) + WithoutUnderscores(s[1..])
  }

  /** int(s) on a str: surrounding whitespace is ignored, one sign may come
      first; None stands for the ValueError. */
  function PyInt(s: string): (r: Option<int>)
    ensures r.Some? ==> Strip(s) != ""
  {
    SignedDigits(Strip(s))
  }

  /** An optional sign followed by digit groups. */
  function SignedDigits(t: string): Option<int> {
    var neg := |t| > 0 && t[0] == '-';
    var body := if |t| > 0 && (t[0] == '-' || t[0] == '+') then t[1..] else t;
    if !IsDigitGroups(body) then None
    else
      var v: int := DigitsValue(WithoutUnderscores(body));
      Some(if neg then -v else v)
  }

  lemma NoUnderscores(s: string)
    requires IsDigits(s)
    ensures WithoutUnderscores(s) == s
  {
    if s != [] {
      assert IsDigits(s[1..]) || s[1..] == [];
      if s[1..] != [] {
        NoUnderscores(s[1..]);
      }
    }
  }

  lemma DigitsNotSpace(s: string)
    requires IsDigits(s)
    ensures Strip(s) == s
  {
    StripWithNoEnds(s, IsSpace);
  }

  /** int(str(n)) == n for a number without sign. */
  lemma PyIntShow(n: nat)
    ensures PyInt(ShowNat(n)) == Some(n)
  {
    var d := ShowNat(n);
    ShowNatRoundTrip(n);
    NoUnderscores(d);
    DigitsNotSpace(d);
    assert d[0] != '-' && d[0] != '+';
  }

  /** int('-' + digits) is minus their value. */
  lemma PyIntNegative(d: string)
    requires IsDigits(d)
    ensures PyInt(['-'] + d) == Some(-(DigitsValue(d) as int))
  {
    var t := ['-'] + d;
    assert t[|t| - 1] == d[|d| - 1];
    StripWithNoEnds(t, IsSpace);
    NegativeDigits(d);
  }

  lemma NegativeDigits(d: string)
    requires IsDigits(d)
    ensures SignedDigits(['-'] + d) == Some(-(DigitsValue(d) as int))
  {
    var t := ['-'] + d;
    assert t[1..] == d;
    NoUnderscores(d);
    assert IsDigitGroups(d);
  }
}
