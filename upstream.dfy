/** What the archive answers. The engine talks to three endpoints of the
    Wayback Machine: the capture index (CDX API) for a URL's timestamps,
    the capture index for a host's inventory rows, and the raw-capture
    endpoint `/web/<timestamp>id_/<url>`. The model receives their answers
    as fixed functions, so that every operation is deterministic given
    them; a failed request carries the HTTP status when there was one. */
module Upstream {
  import opened Common
  import opened Lex
  import opened Urls

  /** A capture-index answer: the decoded JSON rows (the first row is the
      header), or a failed request. */
  datatype CdxReply = Rows(rows: seq<seq<string>>) | Failed(status: Option<int>)

  /** A raw-capture answer: a successful response with its body and its
      Content-Type header, or a failed request. */
  datatype RawReply = Response(body: seq<byte>, contentType: Option<string>) | RawFailed(status: Option<int>)

  datatype Archive = Archive(
    /** `_list_snapshots`: the timestamps of one URL, all or only status 200, with a row cap. */
    listing: (Url, bool, int) -> CdxReply,
    /** `_collect_cdx_rows`: inventory rows of a wildcard pattern up to a timestamp, with a row cap. */
    index: (string, string, int) -> CdxReply,
    /** `_timestamps_for_url`: the status-200 timestamps of one URL, no cap. */
    captures: Url -> CdxReply,
    /** `_download_at_timestamp`: the raw capture of a URL at a timestamp. */
    raw: (string, Url) -> RawReply)

  /** The status the client treats as "archive temporarily unavailable". */
  const Unavailable := 503

  predicate Is503(status: Option<int>) { status == Some(Unavailable) }

  predicate IsTimestamp(s: string) { |s| == 14 && IsDigits(s) }

  /** The timestamps found in the data rows of a reply: the first field of
      every non-empty row after the header that is a 14-digit string. */
  function RowTimestamps(rows: seq<seq<string>>): (r: set<string>)
    ensures forall t :: t in r ==> IsTimestamp(t)
  {
    set i | 1 <= i < |rows| && rows[i] != [] && IsTimestamp(rows[i][0]) :: rows[i][0]
  }

  /** A downloaded capture: body, normalised MIME type and the timestamp used. */
  datatype Capture = Capture(body: seq<byte>, mime: string, timestamp: string)

  /** The Content-Type header reduced to its media type: text before `;`,
      trimmed and lower-cased, `application/octet-stream` when absent. */
  function NormalizeMime(contentType: Option<string>): (r: string)
    ensures forall i :: 0 <= i < |r| ==> !IsAsciiUpper(r[i]) && r[i] != ';'
    ensures Trimmed(r)
  {
    var header := if contentType.Some? then contentType.value else "application/octet-stream";
    var before := SplitFirst(header, ';').0;
    MediaTypeShape(before);
    Lower(Strip(before))
  }

  /** Text without `;`, trimmed and lower-cased, still has no `;` and no
      white space at either end. */
  lemma MediaTypeShape(s: string)
    requires ';' !in s
    ensures var r := Lower(Strip(s));
      && (forall i :: 0 <= i < |r| ==> !IsAsciiUpper(r[i]) && r[i] != ';')
      && Trimmed(r)
  {
    var m := Strip(s);
    StripKeepsAbsent(s, ';');
    LowerNoChar(m, ';');
    assert Trimmed(m);
    LowerTrimmed(m);
  }

  /** `_download_at_timestamp` on the answer it gets: nothing for a failed
      request or an empty body. */
  function CaptureOf(reply: RawReply, timestamp: string): (r: Option<Capture>)
    ensures r.Some? <==> reply.Response? && reply.body != []
    ensures r.Some? ==> r.value.timestamp == timestamp && r.value.body == reply.body
  {
    match reply
    case RawFailed(_) => None
    case Response(body, contentType) =>
      if body == [] then None else Some(Capture(body, NormalizeMime(contentType), timestamp))
  }

  /** What a caller does with a 14-digit selection: keep it when it is one
      of the available snapshots, else take the newest (`chosen` in
      `analyze`, `audit` and `download_missing`). */
  function ChooseSnapshot(selected: Option<string>, snapshots: seq<string>): (r: string)
    requires snapshots != []
    ensures r in snapshots
    ensures selected.Some? && selected.value != "" && Strip(selected.value) in snapshots ==> r == Strip(selected.value)
    ensures selected.Some? && selected.value != "" && Strip(selected.value) !in snapshots ==> r == snapshots[|snapshots| - 1]
    ensures (selected.None? || selected.value == "") ==> r == snapshots[|snapshots| - 1]
  {
    var chosen := if selected.Some? && selected.value != "" then Strip(selected.value) else snapshots[|snapshots| - 1];
    if chosen in snapshots then chosen else snapshots[|snapshots| - 1]
  }

  /** `run`: the newest status-200 snapshot unless a 14-digit snapshot was asked for. */
  function LatestForRun(ok: seq<string>, preferred: Option<string>): (r: string)
    requires ok != []
    ensures preferred.Some? && IsTimestamp(preferred.value) ==> r == preferred.value
    ensures !(preferred.Some? && IsTimestamp(preferred.value)) ==> r == ok[|ok| - 1]
  {
    if preferred.Some? && IsTimestamp(preferred.value) then preferred.value else ok[|ok| - 1]
  }
}
