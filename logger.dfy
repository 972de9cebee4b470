/** The in-memory Logger: a level fixed at creation and an append-only list of messages. */
module Logging {

  class Logger {
    var level: string
    var logs: seq<string>

    /** NewLogger: a logger at `level` with nothing logged yet. */
    constructor NewLogger(level: string)
      ensures this.level == level && logs == []
    {
      this.level := level;
      logs := [];
    }

    /** Log: `message` goes at the end; the level and every earlier message stay. */
    method Log(message: string)
      modifies this
      ensures logs == old(logs) + [message]
      ensures level == old(level)
    {
      logs := logs + [message];
    }

    /** GetLogs: the messages in the order they were logged. */
    method GetLogs() returns (messages: seq<string>)
      ensures messages == logs
    {
      messages := logs;
    }
  }
}
