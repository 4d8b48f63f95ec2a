/** The web application's readers of form fields and progress payloads:
    `_parse_max_files`, `_parse_missing_limit`, `_parse_bool`, `_parse_int`
    and `_normalize_progress`. A form field that may be missing is an
    `Option<string>`; Python's `value or "400"` treats the empty string as
    missing too. */
module AppInput {
  import opened Common

  /** `max(lo, min(n, hi))`. */
  function Clamp(lo: int, hi: int, n: int): (r: int)
    ensures lo <= hi ==> lo <= r <= hi
    ensures lo <= n <= hi ==> r == n
    ensures r >= lo
  {
    Max(lo, Min(n, hi))
  }

  /** `value or fallback`. */
  function OrElse(value: Option<string>, fallback: string): (r: string)
    ensures value.Some? && value.value != "" ==> r == value.value
    ensures (value.None? || value.value == "") ==> r == fallback
  {
    if value.Some? && value.value != "" then value.value else fallback
  }

  /** `int(raw)` after `strip()`, or `fallback` on a ValueError. */
  function IntOr(raw: string, fallback: int): (r: int)
    ensures PyInt(Strip(raw)).None? ==> r == fallback
  {
    match PyInt(Strip(raw))
    case Some(n) => n
    case None => fallback
  }

  /** `_parse_max_files`: the crawl's file budget, 400 unless a number is
      given, always within [50, 5000]. */
  function ParseMaxFiles(value: Option<string>): (r: int)
    ensures 50 <= r <= 5000
    ensures PyInt(Strip(OrElse(value, "400"))).None? ==> r == 400
  {
    Clamp(50, 5000, IntOr(OrElse(value, "400"), 400))
  }

  /** `_parse_missing_limit`: how many missing files to fetch, 300 unless a
      number is given, always within [1, 5000]. */
  function ParseMissingLimit(value: Option<string>): (r: int)
    ensures 1 <= r <= 5000
    ensures PyInt(Strip(OrElse(value, "300"))).None? ==> r == 300
  {
    Clamp(1, 5000, IntOr(OrElse(value, "300"), 300))
  }

  /** `_parse_int`: a bounded integer field, `default` when it is not a
      number; with crossed bounds the lower one wins, as in Python. */
  function ParseInt(value: Option<string>, default: int, lo: int, hi: int): (r: int)
    ensures lo <= hi ==> lo <= r <= hi
    ensures r >= lo
  {
    Clamp(lo, hi, IntOr(OrElse(value, ""), default))
  }

  /** A field that is not a number gives the clamped default. */
  lemma ParseIntDefault(value: Option<string>, default: int, lo: int, hi: int)
    requires PyInt(Strip(OrElse(value, ""))).None?
    ensures ParseInt(value, default, lo, hi) == Clamp(lo, hi, default)
  {
    assert IntOr(OrElse(value, ""), default) == default;
  }

  /** The words `_parse_bool` reads as true. */
  predicate IsTrueWord(w: string) { w == "1" || w == "true" || w == "yes" || w == "on" }

  /** `_parse_bool`: a missing field gives the default; a present one is
      true exactly when, trimmed and lower-cased, it is 1, true, yes or on. */
  function ParseBool(value: Option<string>, default: bool): (r: bool)
    ensures value.None? ==> r == default
    ensures value.Some? ==> (r <==> IsTrueWord(Lower(Strip(value.value))))
  {
    if value.None? then default else IsTrueWord(Lower(Strip(value.value)))
  }

  // ---------------------------------------------------------------------
  // Round trips

  /** A string of digits is read as its value. */
  lemma IntOrDigits(d: string, fallback: int)
    requires IsDigits(d)
    ensures IntOr(d, fallback) == DigitsValue(d)
  {
    DigitsNotSpace(d);
    NoUnderscores(d);
    assert d[0] != '-' && d[0] != '+';
  }

  /** A number written in digits within the bounds is read as itself. */
  lemma ParseIntDigits(d: string, default: int, lo: int, hi: int)
    requires IsDigits(d) && lo <= DigitsValue(d) <= hi
    ensures ParseInt(Some(d), default, lo, hi) == DigitsValue(d)
  {
    IntOrDigits(d, default);
  }

  lemma ParseMaxFilesDigits(d: string)
    requires IsDigits(d) && 50 <= DigitsValue(d) <= 5000
    ensures ParseMaxFiles(Some(d)) == DigitsValue(d)
  {
    IntOrDigits(d, 400);
  }

  lemma ParseMissingLimitDigits(d: string)
    requires IsDigits(d) && 1 <= DigitsValue(d) <= 5000
    ensures ParseMissingLimit(Some(d)) == DigitsValue(d)
  {
    IntOrDigits(d, 300);
  }

  lemma Digits400()
    ensures IsDigits("400") && DigitsValue("400") == 400
  {
    assert "400"[..2] == "40" && "40"[..1] == "4" && "4"[..0] == "";
  }

  lemma Digits300()
    ensures IsDigits("300") && DigitsValue("300") == 300
  {
    assert "300"[..2] == "30" && "30"[..1] == "3" && "3"[..0] == "";
  }

  /** A missing or empty field gives the documented defaults. */
  lemma ParseMaxFilesDefault(value: Option<string>)
    requires value.None? || value.value == ""
    ensures ParseMaxFiles(value) == 400
  {
    Digits400();
    IntOrDigits("400", 400);
  }

  lemma ParseMissingLimitDefault(value: Option<string>)
    requires value.None? || value.value == ""
    ensures ParseMissingLimit(value) == 300
  {
    Digits300();
    IntOrDigits("300", 300);
  }

  /** Reading a flag ignores case and surrounding white space: the field
      as given and the field already trimmed and lower-cased read alike. */
  lemma ParseBoolNormalized(s: string, default: bool)
    ensures ParseBool(Some(s), default) == ParseBool(Some(Lower(Strip(s))), default)
  {
    var t := Strip(s);
    var l := Lower(t);
    if l != [] {
      LowerKeepsSpace(t, 0);
      LowerKeepsSpace(t, |t| - 1);
    }
    StripWithNoEnds(l, IsSpace);
    LowerIdempotent(t);
  }

  // ---------------------------------------------------------------------
  // _normalize_progress

  /** The `percent` entry of a progress payload: missing, a number
      (`int(float(x))` already taken), or something `float` rejects. */
  datatype PercentField = Missing | Number(n: int) | Unreadable

  /** A progress payload: its text entries (an empty string stands for a
      missing or false entry) and its percent entry. */
  datatype Payload = Payload(text: map<string, string>, percent: PercentField)

  /** What `_normalize_progress` returns. */
  datatype Progress = Progress(text: map<string, string>, percent: int, elapsedSeconds: nat)

  function Get(m: map<string, string>, k: string): string {
    if k in m then m[k] else ""
  }

  /** The entries `current_item` falls back on, in order. */
  const FallbackKeys: seq<string> := ["current_url", "current_variant", "current_snapshot", "label", "snapshot"]

  /** The first non-empty entry among `keys`, or "". */
  function FirstNonEmpty(m: map<string, string>, keys: seq<string>): (r: string)
    ensures r == "" <==> forall i :: 0 <= i < |keys| ==> Get(m, keys[i]) == ""
    ensures r != "" ==> exists i :: 0 <= i < |keys| && r == Get(m, keys[i])
                                   && forall j :: 0 <= j < i ==> Get(m, keys[j]) == ""
  {
    if keys == [] then ""
    else if Get(m, keys[0]) != "" then Get(m, keys[0])
    else
      var r := FirstNonEmpty(m, keys[1..]);
      assert forall i :: 1 <= i < |keys| ==> keys[i] == keys[1..][i - 1];
      if r != "" then
        var i :| 0 <= i < |keys[1..]| && r == Get(m, keys[1..][i])
                 && forall j :: 0 <= j < i ==> Get(m, keys[1..][j]) == "";
        assert r == Get(m, keys[i + 1]);
        r
      else r
  }

  /** The percent shown: the number clamped into [0, 100], 0 when missing
      or unreadable. */
  function PercentOf(p: PercentField): (r: int)
    ensures 0 <= r <= 100
    ensures p.Number? && 0 <= p.n <= 100 ==> r == p.n
    ensures !p.Number? ==> r == 0
  {
    Clamp(0, 100, if p.Number? then p.n else 0)
  }

  /** `_normalize_progress`: the payload (none counts as empty) with its
      stage, message, percent and current item filled in and the seconds
      since `startedAt` (0 when there is no start time) added. */
  function NormalizeProgress(payload: Option<Payload>, startedAt: int, now: int,
                             stage: string, message: string, currentItem: string): (r: Progress)
    ensures 0 <= r.percent <= 100
    ensures payload.Some? && payload.value.percent.Number? && 0 <= payload.value.percent.n <= 100
            ==> r.percent == payload.value.percent.n
    ensures (payload.None? || !payload.value.percent.Number?) ==> r.percent == 0
    ensures r.text.Keys == (if payload.Some? then payload.value.text.Keys else {})
                           + {"stage", "message", "current_item"}
    ensures forall k :: k in r.text && k !in {"stage", "message", "current_item"} ==> r.text[k] == payload.value.text[k]
    ensures startedAt == 0 || now <= startedAt ==> r.elapsedSeconds == 0
    ensures startedAt != 0 && startedAt <= now ==> r.elapsedSeconds == now - startedAt
  {
    var raw := if payload.Some? then payload.value else Payload(map[], Missing);
    var current := if Get(raw.text, "current_item") != "" then Get(raw.text, "current_item") else currentItem;
    var current' := if current != "" then current else FirstNonEmpty(raw.text, FallbackKeys);
    var text := raw.text["stage" := OrElse(Some(Get(raw.text, "stage")), stage)]
                        ["message" := OrElse(Some(Get(raw.text, "message")), message)]
                        ["current_item" := current'];
    Progress(text, PercentOf(raw.percent), if startedAt == 0 then 0 else Max(0, now - startedAt))
  }

  /** The current item is the payload's own when it has one, else the
      caller's, else the first of current_url, current_variant,
      current_snapshot, label and snapshot that is set; it is empty only
      when all of these are. */
  lemma CurrentItemFallback(payload: Payload, startedAt: int, now: int, stage: string, message: string, currentItem: string)
    ensures var r := NormalizeProgress(Some(payload), startedAt, now, stage, message, currentItem);
            var item := r.text["current_item"];
            && (Get(payload.text, "current_item") != "" ==> item == payload.text["current_item"])
            && (Get(payload.text, "current_item") == "" && currentItem != "" ==> item == currentItem)
            && (Get(payload.text, "current_item") == "" && currentItem == "" ==>
                  (item == "" <==> forall i :: 0 <= i < |FallbackKeys| ==> Get(payload.text, FallbackKeys[i]) == ""))
            && (Get(payload.text, "current_item") == "" && currentItem == "" && item != "" ==>
                  exists i :: 0 <= i < |FallbackKeys| && item == Get(payload.text, FallbackKeys[i])
                              && forall j :: 0 <= j < i ==> Get(payload.text, FallbackKeys[j]) == "")
  {
    var item := NormalizeProgress(Some(payload), startedAt, now, stage, message, currentItem).text["current_item"];
    if Get(payload.text, "current_item") == "" && currentItem == "" && item != "" {
      var i :| 0 <= i < |FallbackKeys| && item == Get(payload.text, FallbackKeys[i])
               && forall j :: 0 <= j < i ==> Get(payload.text, FallbackKeys[j]) == "";
      assert FallbackKeys[i] in payload.text;
    }
  }

  /** The stage and message kept are the payload's when set, the caller's
      otherwise. */
  lemma StageAndMessage(payload: Payload, startedAt: int, now: int, stage: string, message: string, currentItem: string)
    ensures var r := NormalizeProgress(Some(payload), startedAt, now, stage, message, currentItem);
            && r.text["stage"] == (if Get(payload.text, "stage") != "" then payload.text["stage"] else stage)
            && r.text["message"] == (if Get(payload.text, "message") != "" then payload.text["message"] else message)
  {
  }
}
