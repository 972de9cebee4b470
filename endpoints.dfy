/**
 * The body of the POST /api/logs handler: fill in defaults for empty
 * fields, reject an empty message, and hand the entry to InsertLog.
 */
module Endpoints {
  import opened Wrappers
  import opened Json
  import opened Database

  const DefaultLevel := "info"
  const DefaultSource := "unknown"
  const DefaultHostname := "unknown"
  const DefaultEnvironment := "development"
  const MessageRequired := "message is required"

  /** How the handler answers: saved (201), rejected (400) or failed to save (500). */
  datatype Outcome = Saved | Rejected(reason: string) | SaveFailed(err: Error)

  /** Every field the handler defaults is filled in. */
  predicate Populated(e: LogEntry) {
    e.level != "" && e.source != "" && e.hostname != "" && e.environment != ""
  }

  /** `field` if it is set, `default` otherwise. */
  function OrDefault(field: string, default: string): string {
    if field == "" then default else field
  }

  /** The validation and fallback step of the handler, as a value. */
  function Normalize(body: LogEntry): (r: Result<LogEntry, string>)
    ensures r.Failure? <==> body.message == ""
    ensures r.Failure? ==> r.error == MessageRequired
    ensures r.Success? ==> Populated(r.value)
    ensures r.Success? ==> r.value.message == body.message && r.value.metadata == body.metadata
  {
    if body.message == "" then Failure(MessageRequired)
    else Success(body.(level := OrDefault(body.level, DefaultLevel),
                       source := OrDefault(body.source, DefaultSource),
                       hostname := OrDefault(body.hostname, DefaultHostname),
                       environment := OrDefault(body.environment, DefaultEnvironment)))
  }

  /** Each empty field gets its default, each set field is kept. */
  lemma NormalizeFields(body: LogEntry)
    requires body.message != ""
    ensures var e := Normalize(body).value;
      && (body.level == "" ==> e.level == "info") && (body.level != "" ==> e.level == body.level)
      && (body.source == "" ==> e.source == "unknown") && (body.source != "" ==> e.source == body.source)
      && (body.hostname == "" ==> e.hostname == "unknown") && (body.hostname != "" ==> e.hostname == body.hostname)
      && (body.environment == "" ==> e.environment == "development")
      && (body.environment != "" ==> e.environment == body.environment)
      && e.message == body.message && e.metadata == body.metadata
  {
  }

  /** Normalising a normalised entry changes nothing. */
  lemma NormalizeIdempotent(body: LogEntry)
    requires Normalize(body).Success?
    ensures Normalize(Normalize(body).value) == Normalize(body)
  {
  }

  /**
   * The default level is lower-case, so the table's exact CHECK rejects it:
   * an entry posted without a level is never stored.
   */
  lemma DefaultLevelRejected(codec: Codec, body: LogEntry, nextId: int)
    requires body.message != "" && body.level == ""
    ensures var e := Normalize(body).value;
      InsertError(codec, e.level, e.metadata, nextId).Some?
  {
  }

  /**
   * The POST /api/logs handler after body parsing: the outcome and the
   * store's new state follow Normalize and InsertError.
   */
  method PostLog(store: LogStore, body: LogEntry, now: Timestamp) returns (outcome: Outcome)
    requires store.Valid()
    modifies store
    ensures store.Valid()
    ensures body.message == "" ==>
      && outcome == Rejected(MessageRequired)
      && store.rows == old(store.rows) && store.nextId == old(store.nextId)
    ensures body.message != "" ==>
      var e := Normalize(body).value;
      var err := InsertError(store.codec, e.level, e.metadata, old(store.nextId));
      && (err.Some? ==>
            outcome == SaveFailed(err.value) && store.rows == old(store.rows) && store.nextId == old(store.nextId))
      && (err.None? ==>
            && outcome == Saved
            && store.rows == old(store.rows) + [Row(old(store.nextId), now, e.level, e.message, e.source,
                                                    e.hostname, e.environment, store.codec.encode(e.metadata).value)]
            && store.nextId == old(store.nextId) + 1)
    ensures body.level == "" ==> outcome != Saved && store.rows == old(store.rows)
  {
    var log := body;
    if log.level == "" {
      log := log.(level := DefaultLevel);
    }
    if log.message == "" {
      return Rejected(MessageRequired);
    }
    if log.source == "" {
      log := log.(source := DefaultSource);
    }
    if log.hostname == "" {
      log := log.(hostname := DefaultHostname);
    }
    if log.environment == "" {
      log := log.(environment := DefaultEnvironment);
    }
    var err := store.InsertLog(log.level, log.message, log.source, log.hostname, log.environment, log.metadata, now);
    if err.Some? {
      return SaveFailed(err.value);
    }
    outcome := Saved;
  }
}
