/** The metadata written for each capture, the snapshot index and the local
    state file (cc_context/core/metadata.py). The random uuid and the clock
    are parameters; `now` is the ISO text of the current UTC time. */
module Metadata {
  import opened Wrappers
  import opened Text
  import opened Session
  import opened Continuity

  /** `generate_context_id`, given the text of a fresh uuid. */
  function GenerateContextId(uuid: string): (r: string)
    ensures IsPrefix("ctx-", r)
    ensures IsPrefix(r[4..], uuid)
    ensures |r| == 4 + (if |uuid| < 8 then |uuid| else 8)
  {
    "ctx-" + (if |uuid| < 8 then uuid else uuid[..8])
  }

  /** One entry of the metadata's `sessions` list. */
  datatype SessionEntry = SessionEntry(sessionId: string, messageCount: int, newMessages: int,
                                       continuedFromParent: bool, fileHash: string)

  /** The metadata `create_metadata` builds for a commit. */
  datatype SnapshotMetadata = SnapshotMetadata(commitSha: string, parentCommit: Option<string>, timestamp: string,
                                               author: string, contextId: string, sessions: seq<SessionEntry>,
                                               totalMessages: int, newMessagesSinceParent: int)

  /** The entry for a session and its continuity report: id and hash from
      the session, counts from the report. */
  function EntryOf(s: SessionInfo, c: ContinuityInfo): SessionEntry {
    SessionEntry(s.sessionId, c.messageCount, c.newMessages, c.continuedFromParent, s.fileHash)
  }

  function SumMessages(es: seq<SessionEntry>): int
    decreases |es|
  {
    if es == [] then 0 else SumMessages(es[..|es| - 1]) + es[|es| - 1].messageCount
  }

  function SumNew(es: seq<SessionEntry>): int
    decreases |es|
  {
    if es == [] then 0 else SumNew(es[..|es| - 1]) + es[|es| - 1].newMessages
  }

  function Min(a: int, b: int): int {
    if a < b then a else b
  }

  /** `author or "unknown"`. */
  function AuthorOf(author: Option<string>): (r: string)
    ensures r == "unknown" <==> author.None? || author.value == "" || author.value == "unknown"
    ensures r != ""
  {
    if author.None? || author.value == "" then "unknown" else author.value
  }

  /** `create_metadata`: one entry per pair of session and report (as many
      as the shorter list), with the totals summed over the entries. */
  method CreateMetadata(commitSha: string, parentCommit: Option<string>, contextId: string,
                        sessions: seq<SessionInfo>, continuity: seq<ContinuityInfo>, author: Option<string>,
                        now: string) returns (m: SnapshotMetadata)
    ensures |m.sessions| == Min(|sessions|, |continuity|)
    ensures forall k :: 0 <= k < |m.sessions| ==> m.sessions[k] == EntryOf(sessions[k], continuity[k])
    ensures m.totalMessages == SumMessages(m.sessions)
    ensures m.newMessagesSinceParent == SumNew(m.sessions)
    ensures m.author == AuthorOf(author)
    ensures m.commitSha == commitSha && m.parentCommit == parentCommit && m.contextId == contextId
    ensures m.timestamp == now + "Z"
  {
    var entries: seq<SessionEntry> := [];
    var totalMessages := 0;
    var totalNewMessages := 0;
    var n := Min(|sessions|, |continuity|);
    for i := 0 to n
      invariant |entries| == i
      invariant forall k :: 0 <= k < i ==> entries[k] == EntryOf(sessions[k], continuity[k])
      invariant totalMessages == SumMessages(entries) && totalNewMessages == SumNew(entries)
    {
      var session := sessions[i];
      var cont := continuity[i];
      var entry := SessionEntry(session.sessionId, cont.messageCount, cont.newMessages, cont.continuedFromParent,
                                session.fileHash);
      assert (entries + [entry])[..i] == entries;
      entries := entries + [entry];
      totalMessages := totalMessages + cont.messageCount;
      totalNewMessages := totalNewMessages + cont.newMessages;
    }
    m := SnapshotMetadata(commitSha, parentCommit, now + "Z", AuthorOf(author), contextId, entries,
                          totalMessages, totalNewMessages);
  }

  lemma {:induction false} SumsConcat(a: seq<SessionEntry>, b: seq<SessionEntry>)
    ensures SumMessages(a + b) == SumMessages(a) + SumMessages(b)
    ensures SumNew(a + b) == SumNew(a) + SumNew(b)
    decreases |b|
  {
    if b == [] {
      assert a + b == a;
    } else {
      var b' := b[..|b| - 1];
      assert (a + b)[..|a + b| - 1] == a + b';
      SumsConcat(a, b');
    }
  }

  /** New messages never exceed the total when every report's new count is
      at most its count. */
  lemma {:induction false} NewWithinTotal(es: seq<SessionEntry>)
    requires forall k :: 0 <= k < |es| ==> es[k].newMessages <= es[k].messageCount
    ensures SumNew(es) <= SumMessages(es)
    decreases |es|
  {
    if es != [] {
      NewWithinTotal(es[..|es| - 1]);
    }
  }

  // ---------------------------------------------------------------------
  // Reading a capture back as the next capture's parent

  /** The metadata as the next capture reads it back from its file. */
  function AsParent(m: SnapshotMetadata): (p: ParentMetadata)
    ensures p.sessions.Some? && |p.sessions.value| == |m.sessions|
  {
    ParentMetadata(Some(seq(|m.sessions|, k requires 0 <= k < |m.sessions| =>
      ParentSession(m.sessions[k].sessionId, Some(m.sessions[k].fileHash), Some(m.sessions[k].messageCount)))))
  }

  /** At the next capture, a session recorded here (with its id listed once)
      is continued from it, sees its recorded hash, and counts as new what
      it gained since, or all of its messages when its file is unchanged. */
  lemma NextCaptureContinues(m: SnapshotMetadata, k: nat, c: ContinuityInfo, count: int, hash: string)
    requires k < |m.sessions|
    requires forall i, j :: 0 <= i < j < |m.sessions| ==> m.sessions[i].sessionId != m.sessions[j].sessionId
    requires Describes(c, m.sessions[k].sessionId, count, hash, Some(AsParent(m)))
    ensures c.continuedFromParent
    ensures c.previousHash == Some(m.sessions[k].fileHash)
    ensures c.newMessages == if hash == m.sessions[k].fileHash then count else count - m.sessions[k].messageCount
  {
    var entries := AsParent(m).sessions.value;
    assert entries == ParentEntries(Some(AsParent(m)));
    assert DistinctEntryIds(entries) by {
      forall i, j | 0 <= i < j < |entries| ensures entries[i].sessionId != entries[j].sessionId {
        assert entries[i].sessionId == m.sessions[i].sessionId && entries[j].sessionId == m.sessions[j].sessionId;
      }
    }
    LastEntryDistinct(entries, k);
    assert entries[k].sessionId == m.sessions[k].sessionId;
  }

  // ---------------------------------------------------------------------
  // The snapshot index

  /** One commit's entry of `index.json`. */
  datatype IndexEntry = IndexEntry(hasContext: bool, contextId: string, messageCount: int, sessionCount: nat,
                                   timestamp: string)

  function IndexEntryOf(m: SnapshotMetadata): IndexEntry {
    IndexEntry(true, m.contextId, m.totalMessages, |m.sessions|, m.timestamp)
  }

  /** The index after recording `m` for `sha`: that entry inserted or
      replaced, every other one as it was. */
  function IndexAfter(commits: map<string, IndexEntry>, sha: string, m: SnapshotMetadata): (r: map<string, IndexEntry>)
    ensures r.Keys == commits.Keys + {sha}
    ensures r[sha].hasContext && r[sha].contextId == m.contextId
    ensures r[sha].messageCount == m.totalMessages && r[sha].sessionCount == |m.sessions|
    ensures r[sha].timestamp == m.timestamp
    ensures forall c :: c in commits && c != sha ==> r[c] == commits[c]
  {
    commits[sha := IndexEntryOf(m)]
  }

  /** Recording the same commit again keeps only the newer entry. */
  lemma IndexLastWriteWins(commits: map<string, IndexEntry>, sha: string, m1: SnapshotMetadata, m2: SnapshotMetadata)
    ensures IndexAfter(IndexAfter(commits, sha, m1), sha, m2) == IndexAfter(commits, sha, m2)
  {
  }

  /** Recording different commits commutes. */
  lemma IndexUpdatesCommute(commits: map<string, IndexEntry>, a: string, ma: SnapshotMetadata,
                            b: string, mb: SnapshotMetadata)
    requires a != b
    ensures IndexAfter(IndexAfter(commits, a, ma), b, mb) == IndexAfter(IndexAfter(commits, b, mb), a, ma)
  {
  }

  /** `index.json`, loaded (or empty when the file does not exist) and
      updated in place. */
  class SnapshotIndex {
    var commits: map<string, IndexEntry>

    constructor (stored: Option<map<string, IndexEntry>>)
      ensures commits == if stored.Some? then stored.value else map[]
    {
      commits := if stored.Some? then stored.value else map[];
    }

    /** `update_index`. */
    method UpdateIndex(commitSha: string, m: SnapshotMetadata)
      modifies this
      ensures commits == IndexAfter(old(commits), commitSha, m)
    {
      commits := commits[commitSha := IndexEntry(true, m.contextId, m.totalMessages, |m.sessions|, m.timestamp)];
    }
  }

  // ---------------------------------------------------------------------
  // The local state file

  datatype Capture = Capture(commit: string, contextId: string, timestamp: string)

  /** One session's entry of `session_history`. */
  datatype History = History(firstSeenCommit: string, lastCapturedCommit: string, captureCount: int)

  /** Records one capture of session `id` at commit `sha`. */
  function Record(history: map<string, History>, sha: string, id: string): map<string, History> {
    if id !in history then history[id := History(sha, sha, 1)]
    else history[id := history[id].(lastCapturedCommit := sha, captureCount := history[id].captureCount + 1)]
  }

  /** The history after capturing the sessions with these ids, in order, at
      commit `sha`. */
  function HistoryAfter(history: map<string, History>, sha: string, ids: seq<string>): map<string, History>
    decreases |ids|
  {
    if ids == [] then history
    else Record(HistoryAfter(history, sha, ids[..|ids| - 1]), sha, ids[|ids| - 1])
  }

  lemma HistoryAfterSnoc(history: map<string, History>, sha: string, ids: seq<string>, i: nat)
    requires i < |ids|
    ensures HistoryAfter(history, sha, ids[..i + 1]) == Record(HistoryAfter(history, sha, ids[..i]), sha, ids[i])
  {
    assert ids[..i + 1][..i] == ids[..i];
  }

  /** What capturing does to the history: other ids untouched; each
      captured id last captured at `sha`, first seen where it was first seen
      before (or at `sha`), and counted once more per time it occurs. */
  lemma {:induction false} HistoryAfterSpec(history: map<string, History>, sha: string, ids: seq<string>)
    ensures forall id :: id in HistoryAfter(history, sha, ids) <==> id in history || id in ids
    ensures forall id :: id in history && id !in ids ==> HistoryAfter(history, sha, ids)[id] == history[id]
    ensures forall id :: id in ids ==> HistoryAfter(history, sha, ids)[id].lastCapturedCommit == sha
    ensures forall id :: id in ids ==>
      HistoryAfter(history, sha, ids)[id].firstSeenCommit == if id in history then history[id].firstSeenCommit else sha
    ensures forall id :: id in ids ==>
      HistoryAfter(history, sha, ids)[id].captureCount
        == (if id in history then history[id].captureCount else 0) + multiset(ids)[id]
    decreases |ids|
  {
    if ids != [] {
      var init := ids[..|ids| - 1];
      var x := ids[|ids| - 1];
      assert ids == init + [x];
      HistoryAfterSpec(history, sha, init);
      var h := HistoryAfter(history, sha, init);
      assert HistoryAfter(history, sha, ids) == Record(h, sha, x);
      forall id | id in ids
        ensures Record(h, sha, x)[id].captureCount
                == (if id in history then history[id].captureCount else 0) + multiset(ids)[id]
      {
        RecordCount(h, history, sha, init, x, id);
      }
    }
  }

  lemma RecordCount(h: map<string, History>, history: map<string, History>, sha: string, init: seq<string>,
                    x: string, id: string)
    requires id in init + [x]
    requires forall y :: y in h <==> y in history || y in init
    requires forall y :: y in init ==>
      h[y].captureCount == (if y in history then history[y].captureCount else 0) + multiset(init)[y]
    requires forall y :: y in history && y !in init ==> h[y] == history[y]
    ensures Record(h, sha, x)[id].captureCount
            == (if id in history then history[id].captureCount else 0) + multiset(init + [x])[id]
  {
    assert multiset(init + [x])[id] == multiset(init)[id] + (if id == x then 1 else 0);
    if id == x && id !in init {
      assert multiset(init)[id] == 0;
    }
  }

  /** `state.json`, loaded (or empty when the file does not exist) and
      updated in place. */
  class LocalState {
    var lastCapture: Option<Capture>
    var history: map<string, History>

    constructor (stored: Option<(Option<Capture>, map<string, History>)>)
      ensures stored.Some? ==> lastCapture == stored.value.0 && history == stored.value.1
      ensures stored.None? ==> lastCapture == None && history == map[]
    {
      if stored.Some? {
        lastCapture := stored.value.0;
        history := stored.value.1;
      } else {
        lastCapture := None;
        history := map[];
      }
    }

    /** `update_local_state`. */
    method UpdateLocalState(commitSha: string, contextId: string, sessions: seq<SessionInfo>, now: string)
      modifies this
      ensures lastCapture == Some(Capture(commitSha, contextId, now + "Z"))
      ensures history == HistoryAfter(old(history), commitSha, Ids(sessions))
    {
      lastCapture := Some(Capture(commitSha, contextId, now + "Z"));
      ghost var ids := Ids(sessions);
      for i := 0 to |sessions|
        invariant history == HistoryAfter(old(history), commitSha, ids[..i])
        invariant lastCapture == Some(Capture(commitSha, contextId, now + "Z"))
      {
        var id := sessions[i].sessionId;
        HistoryAfterSnoc(old(history), commitSha, ids, i);
        if id !in history {
          history := history[id := History(commitSha, commitSha, 1)];
        } else {
          history := history[id := history[id].(lastCapturedCommit := commitSha,
                                                captureCount := history[id].captureCount + 1)];
        }
      }
      assert ids[..|sessions|] == ids;
    }
  }

  /** Capturing a session once more moves its last capture and bumps its
      count, but never its first sighting. */
  lemma RecaptureKeepsFirstSeen(history: map<string, History>, sha: string, id: string)
    requires id in history
    ensures HistoryAfter(history, sha, [id])[id]
         == History(history[id].firstSeenCommit, sha, history[id].captureCount + 1)
  {
    HistoryAfterSpec(history, sha, [id]);
    assert multiset([id])[id] == 1;
  }
}
