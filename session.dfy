/** What the core knows about one transcript file (cc_context/core/session.py).
    The file itself is given by its physical lines. */
module Session {
  /** `SessionInfo`. Only `message_count` is assigned after construction,
      so the other fields are constants. `modifiedTime` is the text of the
      file's modification time. */
  class SessionInfo {
    const sessionId: string
    const lines: seq<string>
    const modifiedTime: string
    const fileHash: string
    var messageCount: int

    constructor (sessionId: string, lines: seq<string>, modifiedTime: string, fileHash: string)
      ensures this.sessionId == sessionId && this.lines == lines
      ensures this.modifiedTime == modifiedTime && this.fileHash == fileHash
      ensures messageCount == 0
    {
      this.sessionId := sessionId;
      this.lines := lines;
      this.modifiedTime := modifiedTime;
      this.fileHash := fileHash;
      messageCount := 0;
    }
  }

  /** The ids of `sessions`, in order. */
  function Ids(sessions: seq<SessionInfo>): (r: seq<string>)
    ensures |r| == |sessions|
    ensures forall k :: 0 <= k < |sessions| ==> r[k] == sessions[k].sessionId
  {
    seq(|sessions|, k requires 0 <= k < |sessions| => sessions[k].sessionId)
  }
}
