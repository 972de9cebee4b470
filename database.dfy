/**
 * The log store: one SQLite table `logs`, written by InsertLog and read a
 * page of FetchLimit rows at a time by GetLogs, plus the page-count
 * arithmetic of GetPaginationInfo.
 *
 * The table is the sequence `rows` in primary-key order; the schema's
 * AUTOINCREMENT counter is `nextId`; the CHECK on `level` and the key's
 * ordering are the invariant `Schema`.
 */
module Database {
  import opened Wrappers
  import opened Json

  /** An instant as read from the datastore's clock (CURRENT_TIMESTAMP). */
  type Timestamp = int

  /** Rows per page, FETCH_LIMIT. */
  const FetchLimit: nat := 100

  /** The largest value of a Go int / SQLite INTEGER (64-bit signed). */
  const MaxInt64: int := 0x7FFF_FFFF_FFFF_FFFF

  /** The levels the table's CHECK constraint admits, compared exactly. */
  const Levels: set<string> := {"TRACE", "DEBUG", "INFO", "WARN", "ERROR", "FATAL"}

  /** A log record as the Go code handles it (struct LogEntry). */
  datatype LogEntry = LogEntry(
    id: int,
    timestamp: Timestamp,
    level: string,
    message: string,
    source: string,
    hostname: string,
    environment: string,
    metadata: Metadata)

  /** A row as the table stores it: the metadata is serialised text. */
  datatype Row = Row(
    id: int,
    timestamp: Timestamp,
    level: string,
    message: string,
    source: string,
    hostname: string,
    environment: string,
    metadata: string)

  /** Why an insert fails: json.Marshal failed, the rowid space is used up, or the CHECK on `level` failed. */
  datatype Error = EncodeError | Full | CheckViolation

  /** The struct PaginationInfo. */
  datatype PaginationInfo = PaginationInfo(totalLogs: nat, totalPages: nat, logsPerPage: nat)

  function Min(a: int, b: int): int { if a <= b then a else b }

  predicate ValidLevel(level: string) { level in Levels }

  /**
   * What the schema guarantees of the table: ids are below the
   * AUTOINCREMENT counter and strictly increasing in scan order, and every
   * stored level passed the CHECK constraint. The counter is at least 1
   * because SQLite's sequence for the table starts at 0.
   */
  ghost predicate Schema(rows: seq<Row>, nextId: int) {
    && 1 <= nextId <= MaxInt64 + 1
    && (forall i :: 0 <= i < |rows| ==> rows[i].id < nextId && ValidLevel(rows[i].level))
    && (forall i, j :: 0 <= i < j < |rows| ==> rows[i].id < rows[j].id)
  }

  /**
   * The outcome of `INSERT` for the given level and metadata when the
   * counter stands at `nextId`: None is success.
   */
  function InsertError(codec: Codec, level: string, metadata: Metadata, nextId: int): (e: Option<Error>)
    ensures e.None? <==> codec.encode(metadata).Some? && nextId <= MaxInt64 && ValidLevel(level)
    ensures codec.encode(metadata).None? ==> e == Some(EncodeError)
    ensures codec.encode(metadata).Some? && nextId <= MaxInt64 && !ValidLevel(level) ==> e == Some(CheckViolation)
  {
    if codec.encode(metadata).None? then Some(EncodeError)
    else if nextId > MaxInt64 then Some(Full)
    else if !ValidLevel(level) then Some(CheckViolation)
    else None
  }

  /**
   * The metadata of a row as read back: empty text and text that does not
   * decode both give the empty map.
   */
  function DecodeMetadata(codec: Codec, text: string): (m: Metadata)
    ensures text != "" && codec.decode(text).Some? ==> m == codec.decode(text).value
    ensures m != map[] ==> text != "" && codec.decode(text) == Some(m)
  {
    if text == "" then map[]
    else match codec.decode(text)
      case Some(decoded) => decoded
      case None => map[]
  }

  /** The entry GetLogs builds from one scanned row. */
  function EntryOf(codec: Codec, row: Row): LogEntry {
    LogEntry(row.id, row.timestamp, row.level, row.message, row.source, row.hostname,
             row.environment, DecodeMetadata(codec, row.metadata))
  }

  /** Every row of a sequence, read back. */
  function Entries(codec: Codec, rows: seq<Row>): (es: seq<LogEntry>)
    ensures |es| == |rows|
    ensures forall i :: 0 <= i < |rows| ==> es[i] == EntryOf(codec, rows[i])
  {
    seq(|rows|, i requires 0 <= i < |rows| => EntryOf(codec, rows[i]))
  }

  /**
   * `LIMIT FetchLimit OFFSET n * FetchLimit` over the table in key order,
   * each row read back: the rows at positions n*FetchLimit up to but not
   * including min(n*FetchLimit + FetchLimit, |rows|).
   */
  function PageOf(codec: Codec, rows: seq<Row>, n: nat): (page: seq<LogEntry>)
    ensures |page| <= FetchLimit
    ensures |page| == 0 <==> n * FetchLimit >= |rows|
    ensures n * FetchLimit < |rows| ==> |page| == Min(FetchLimit, |rows| - n * FetchLimit)
    ensures forall k :: 0 <= k < |page| ==> n * FetchLimit + k < |rows| && page[k] == EntryOf(codec, rows[n * FetchLimit + k])
  {
    var lo := Min(n * FetchLimit, |rows|);
    var hi := Min(n * FetchLimit + FetchLimit, |rows|);
    Entries(codec, rows[lo..hi])
  }

  /**
   * The page number GetLogs reads for its variadic `page ...int`
   * argument: the first value given, or 0 when none is.
   */
  function PageNumber(page: seq<nat>): nat {
    if |page| > 0 then page[0] else 0
  }

  /** totalPages: the number of pages needed for `total` rows, rounding up. */
  function TotalPages(total: nat): (p: nat)
    ensures p * FetchLimit >= total
    ensures p == 0 || (p - 1) * FetchLimit < total
  {
    total / FetchLimit + (if total % FetchLimit != 0 then 1 else 0)
  }

  class LogStore {
    /** json.Marshal / json.Unmarshal as the store uses them. */
    const codec: Codec
    /** The table, in primary-key order. */
    var rows: seq<Row>
    /** The id AUTOINCREMENT assigns next. */
    var nextId: int

    ghost predicate Valid()
      reads this
    {
      Schema(rows, nextId)
    }

    /**
     * The store over an existing table (`CREATE TABLE IF NOT EXISTS` keeps
     * it); an empty database is `stored == []` with `nextId == 1`.
     */
    constructor Open(codec: Codec, stored: seq<Row>, nextId: int)
      requires Schema(stored, nextId)
      ensures Valid()
      ensures this.codec == codec && rows == stored && this.nextId == nextId
    {
      this.codec := codec;
      rows := stored;
      this.nextId := nextId;
    }

    /**
     * InsertLog: serialise the metadata, failing before any write if that
     * fails; otherwise insert one row with the next id and the clock's `now`.
     */
    method InsertLog(level: string, message: string, source: string, hostname: string,
                     environment: string, metadata: Metadata, now: Timestamp)
      returns (err: Option<Error>)
      requires Valid()
      modifies this
      ensures Valid()
      ensures err == InsertError(codec, level, metadata, old(nextId))
      ensures err.Some? ==> rows == old(rows) && nextId == old(nextId)
      ensures err.None? ==>
        && rows == old(rows) + [Row(old(nextId), now, level, message, source, hostname, environment,
                                    codec.encode(metadata).value)]
        && nextId == old(nextId) + 1
      ensures err.None? ==> forall i :: 0 <= i < |old(rows)| ==> old(rows)[i].id < rows[|rows| - 1].id
    {
      var metadataJson := codec.encode(metadata);
      if metadataJson.None? {
        return Some(EncodeError);
      }
      if nextId > MaxInt64 {
        return Some(Full);
      }
      if !ValidLevel(level) {
        return Some(CheckViolation);
      }
      rows := rows + [Row(nextId, now, level, message, source, hostname, environment, metadataJson.value)];
      nextId := nextId + 1;
      err := None;
    }

    /**
     * GetLogs: scan one page of rows and decode each row's metadata,
     * substituting the empty map when it is empty or malformed.
     */
    method GetLogs(page: seq<nat>) returns (logs: seq<LogEntry>)
      requires PageNumber(page) <= MaxInt64 / FetchLimit
      ensures logs == PageOf(codec, rows, PageNumber(page))
    {
      var pageNum := 0;
      if |page| > 0 {
        pageNum := page[0];
      }
      var offset := pageNum * FetchLimit;
      var lo := Min(offset, |rows|);
      var hi := Min(offset + FetchLimit, |rows|);
      logs := [];
      var i := lo;
      while i < hi
        invariant lo <= i <= hi
        invariant |logs| == i - lo
        invariant forall k :: 0 <= k < |logs| ==> logs[k] == EntryOf(codec, rows[lo + k])
      {
        var row := rows[i];
        var entry := LogEntry(row.id, row.timestamp, row.level, row.message, row.source,
                              row.hostname, row.environment, map[]);
        if row.metadata != "" {
          var decoded := codec.decode(row.metadata);
          if decoded.Some? {
            entry := entry.(metadata := decoded.value);
          } else {
            entry := entry.(metadata := map[]);
          }
        } else {
          entry := entry.(metadata := map[]);
        }
        logs := logs + [entry];
        i := i + 1;
      }
    }

    /** GetPaginationInfo: the row count, the number of pages and the page size. */
    function GetPaginationInfo(): (info: PaginationInfo)
      reads this
      ensures info.totalLogs == |rows| && info.logsPerPage == FetchLimit
      ensures info.totalPages * FetchLimit >= |rows|
      ensures info.totalPages == 0 || (info.totalPages - 1) * FetchLimit < |rows|
    {
      PaginationInfo(|rows|, TotalPages(|rows|), FetchLimit)
    }
  }

  // ---------------------------------------------------------------------
  // Properties of the read path
  // ---------------------------------------------------------------------

  /** The ceiling division agrees with the page reads: page n has rows exactly when n < TotalPages. */
  lemma PageNonEmptyIff(codec: Codec, rows: seq<Row>, n: nat)
    ensures |PageOf(codec, rows, n)| > 0 <==> n < TotalPages(|rows|)
  {
  }

  /** Pages 0 .. k-1 read one after another. */
  ghost function Pages(codec: Codec, rows: seq<Row>, k: nat): seq<LogEntry> {
    if k == 0 then [] else Pages(codec, rows, k - 1) + PageOf(codec, rows, k - 1)
  }

  /** Reading the first k pages in turn yields the first k*FetchLimit rows, in key order. */
  lemma {:induction false} PagesPrefix(codec: Codec, rows: seq<Row>, k: nat)
    ensures Pages(codec, rows, k) == Entries(codec, rows[..Min(k * FetchLimit, |rows|)])
  {
    if k > 0 {
      PagesPrefix(codec, rows, k - 1);
      var lo := Min((k - 1) * FetchLimit, |rows|);
      var hi := Min(k * FetchLimit, |rows|);
      var prev := Entries(codec, rows[..lo]);
      var page := PageOf(codec, rows, k - 1);
      assert |page| == hi - lo;
      assert Pages(codec, rows, k) == prev + page;
      assert prev + page == Entries(codec, rows[..hi]);
    }
  }

  /** Reading pages 0 .. TotalPages-1 in turn yields the whole table, each row once, in key order. */
  lemma PagesCoverTable(codec: Codec, rows: seq<Row>)
    ensures Pages(codec, rows, TotalPages(|rows|)) == Entries(codec, rows)
  {
    PagesPrefix(codec, rows, TotalPages(|rows|));
    assert rows[..|rows|] == rows;
  }

  /** A page lists its rows in strictly increasing id order. */
  lemma PageInKeyOrder(codec: Codec, rows: seq<Row>, nextId: int, n: nat)
    requires Schema(rows, nextId)
    ensures var page := PageOf(codec, rows, n);
      forall j, k :: 0 <= j < k < |page| ==> page[j].id < page[k].id
  {
  }

  /**
   * Decode failures are isolated per row: replacing one row's stored
   * metadata with empty or undecodable text empties that entry's metadata
   * and leaves every other entry of every page as it was.
   */
  lemma CorruptMetadataIsLocal(codec: Codec, rows: seq<Row>, i: nat, text: string, n: nat)
    requires i < |rows|
    requires text == "" || codec.decode(text).None?
    ensures var corrupted := rows[i := rows[i].(metadata := text)];
      var before := PageOf(codec, rows, n);
      var after := PageOf(codec, corrupted, n);
      && |after| == |before|
      && (forall k :: 0 <= k < |after| && n * FetchLimit + k != i ==> after[k] == before[k])
      && (forall k :: 0 <= k < |after| && n * FetchLimit + k == i ==> after[k] == before[k].(metadata := map[]))
  {
  }

  /** Metadata that encodes is read back unchanged. */
  lemma MetadataRoundTrip(codec: Codec, metadata: Metadata)
    requires codec.RoundTrips()
    requires codec.encode(metadata).Some?
    ensures DecodeMetadata(codec, codec.encode(metadata).value) == metadata
  {
  }

  /**
   * Append-then-read: the row a successful InsertLog adds is the last entry
   * of page |rows| / FetchLimit, with the fields it was given and its
   * metadata intact, and its id exceeds every earlier id.
   */
  lemma AppendThenRead(codec: Codec, rows: seq<Row>, nextId: int, now: Timestamp,
                       level: string, message: string, source: string, hostname: string,
                       environment: string, metadata: Metadata)
    requires codec.RoundTrips()
    requires Schema(rows, nextId)
    requires InsertError(codec, level, metadata, nextId).None?
    ensures var added := rows + [Row(nextId, now, level, message, source, hostname, environment,
                                     codec.encode(metadata).value)];
      var page := PageOf(codec, added, |rows| / FetchLimit);
      && |page| == |rows| % FetchLimit + 1
      && page[|page| - 1] == LogEntry(nextId, now, level, message, source, hostname, environment, metadata)
      && (forall j :: 0 <= j < |page| - 1 ==> page[j].id < nextId)
  {
  }
}
