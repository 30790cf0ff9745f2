/** How each captured session relates to the parent commit's capture
    (cc_context/core/continuity.py). The snapshot directory is given as a
    map from commit sha to the metadata stored for it. */
module Continuity {
  import opened Wrappers
  import opened Session

  /** One entry of the parent's `sessions` list as read back; an absent key
      is `None`. */
  datatype ParentSession = ParentSession(sessionId: string, fileHash: Option<string>, messageCount: Option<int>)

  /** The parent's metadata; `sessions` is `None` when the key is absent. */
  datatype ParentMetadata = ParentMetadata(sessions: Option<seq<ParentSession>>)

  /** `SessionContinuityInfo`. */
  datatype ContinuityInfo = ContinuityInfo(sessionId: string, continuedFromParent: bool, messageCount: int,
                                           newMessages: int, previousHash: Option<string>)

  /** `load_parent_metadata`. */
  function LoadParentMetadata(snapshots: map<string, ParentMetadata>, sha: string): Option<ParentMetadata> {
    if sha in snapshots then Some(snapshots[sha]) else None
  }

  /** The parent metadata `analyze_continuity` works with: none without a
      (non-empty) parent sha. */
  function ParentOf(parentCommitSha: Option<string>, snapshots: map<string, ParentMetadata>): Option<ParentMetadata> {
    if parentCommitSha.Some? && parentCommitSha.value != "" then LoadParentMetadata(snapshots, parentCommitSha.value)
    else None
  }

  /** The parent's session entries; none when there is no metadata or it has
      no `sessions` key. */
  function ParentEntries(parent: Option<ParentMetadata>): seq<ParentSession> {
    if parent.Some? && parent.value.sessions.Some? then parent.value.sessions.value else []
  }

  /** `get_parent_session_ids`. */
  function GetParentSessionIds(parent: Option<ParentMetadata>): (r: set<string>)
    ensures parent.None? || parent.value.sessions.None? ==> r == {}
    ensures forall id :: id in r <==> exists k :: 0 <= k < |ParentEntries(parent)| && ParentEntries(parent)[k].sessionId == id
  {
    var entries := ParentEntries(parent);
    set e | e in entries :: e.sessionId
  }

  /** The entry `parent_session_map` keeps for `id`: the last one with that id. */
  function LastEntry(entries: seq<ParentSession>, id: string): (r: Option<ParentSession>)
    ensures r.Some? <==> exists k :: 0 <= k < |entries| && entries[k].sessionId == id
    ensures r.Some? ==> r.value.sessionId == id
    ensures r.Some? ==> exists k :: 0 <= k < |entries| && entries[k] == r.value
                                    && forall j :: k < j < |entries| ==> entries[j].sessionId != id
    decreases |entries|
  {
    if entries == [] then None
    else if entries[|entries| - 1].sessionId == id then Some(entries[|entries| - 1])
    else LastEntry(entries[..|entries| - 1], id)
  }

  /** Building `parent_session_map`: each id maps to its last entry. */
  method ParentSessionMap(entries: seq<ParentSession>) returns (m: map<string, ParentSession>)
    ensures forall id :: id in m <==> LastEntry(entries, id).Some?
    ensures forall id :: id in m ==> LastEntry(entries, id) == Some(m[id])
  {
    m := map[];
    for i := 0 to |entries|
      invariant forall id :: id in m <==> LastEntry(entries[..i], id).Some?
      invariant forall id :: id in m ==> LastEntry(entries[..i], id) == Some(m[id])
    {
      assert entries[..i + 1][..i] == entries[..i];
      m := m[entries[i].sessionId := entries[i]];
    }
    assert entries[..|entries|] == entries;
  }

  /** `c` is what `analyze_continuity` reports for a session with this id,
      message count and file hash: the id and count copied; continued
      exactly when the parent lists the id; the previous hash that of the
      parent's entry when continued; and the new messages the count, less
      the parent's count (0 when absent) when continued with a different
      file hash. */
  predicate Describes(c: ContinuityInfo, id: string, count: int, hash: string, parent: Option<ParentMetadata>) {
    var entry := LastEntry(ParentEntries(parent), id);
    && c.sessionId == id && c.messageCount == count
    && (c.continuedFromParent <==> id in GetParentSessionIds(parent))
    && c.previousHash == (if c.continuedFromParent then entry.value.fileHash else None)
    && c.newMessages == (if c.continuedFromParent && c.previousHash != Some(hash)
                         then count - entry.value.messageCount.GetOr(0) else count)
  }

  /** `analyze_continuity`: one report per session, in order. */
  method AnalyzeContinuity(sessions: seq<SessionInfo>, parentCommitSha: Option<string>,
                           snapshots: map<string, ParentMetadata>) returns (info: seq<ContinuityInfo>)
    ensures |info| == |sessions|
    ensures forall k :: 0 <= k < |sessions| ==>
      Describes(info[k], sessions[k].sessionId, sessions[k].messageCount, sessions[k].fileHash,
                ParentOf(parentCommitSha, snapshots))
  {
    var parentMetadata: Option<ParentMetadata> := None;
    if parentCommitSha.Some? && parentCommitSha.value != "" {
      parentMetadata := LoadParentMetadata(snapshots, parentCommitSha.value);
    }
    var parentSessionIds := GetParentSessionIds(parentMetadata);
    var parentSessionMap: map<string, ParentSession> := map[];
    if parentMetadata.Some? && parentMetadata.value.sessions.Some? {
      parentSessionMap := ParentSessionMap(parentMetadata.value.sessions.value);
    }
    ghost var entries := ParentEntries(parentMetadata);
    assert forall id :: id in parentSessionMap ==> LastEntry(entries, id) == Some(parentSessionMap[id]);
    info := [];
    for i := 0 to |sessions|
      invariant |info| == i
      invariant forall k :: 0 <= k < i ==>
        Describes(info[k], sessions[k].sessionId, sessions[k].messageCount, sessions[k].fileHash, parentMetadata)
    {
      var session := sessions[i];
      var isContinued := session.sessionId in parentSessionIds;
      var previousHash: Option<string> := None;
      var newMessages := session.messageCount;
      if isContinued && session.sessionId in parentSessionMap {
        var parentSession := parentSessionMap[session.sessionId];
        previousHash := parentSession.fileHash;
        if previousHash != Some(session.fileHash) {
          var previousCount := parentSession.messageCount.GetOr(0);
          newMessages := session.messageCount - previousCount;
        }
      }
      if isContinued {
        assert LastEntry(entries, session.sessionId).Some?;
      }
      info := info + [ContinuityInfo(session.sessionId, isContinued, session.messageCount, newMessages, previousHash)];
    }
  }

  // ---------------------------------------------------------------------
  // Properties

  /** The report is determined by the session and the parent. */
  lemma DescribesUnique(c: ContinuityInfo, d: ContinuityInfo, id: string, count: int, hash: string,
                        parent: Option<ParentMetadata>)
    requires Describes(c, id, count, hash, parent) && Describes(d, id, count, hash, parent)
    ensures c == d
  {
  }

  /** Without a parent nothing is continued and every message is new. */
  lemma NoParentNothingContinued(c: ContinuityInfo, id: string, count: int, hash: string)
    requires Describes(c, id, count, hash, None)
    ensures c == ContinuityInfo(id, false, count, count, None)
  {
  }

  /** A parent metadata file without a `sessions` key continues nothing either. */
  lemma NoSessionsNothingContinued(c: ContinuityInfo, id: string, count: int, hash: string)
    requires Describes(c, id, count, hash, Some(ParentMetadata(None)))
    ensures c == ContinuityInfo(id, false, count, count, None)
  {
  }

  /** A continued session whose file is unchanged reports all of its
      messages as new, not none: the subtraction happens only when the hash
      differs. */
  lemma UnchangedFileCountsAll(c: ContinuityInfo, id: string, count: int, hash: string, parent: Option<ParentMetadata>)
    requires Describes(c, id, count, hash, parent)
    requires c.continuedFromParent && c.previousHash == Some(hash)
    ensures c.newMessages == count
  {
  }

  /** The new-message count can be negative: a changed file with fewer
      messages than the parent recorded. */
  lemma NewMessagesMayBeNegative()
    ensures var parent := Some(ParentMetadata(Some([ParentSession("s", Some("h1"), Some(5))])));
      forall c :: Describes(c, "s", 2, "h2", parent) ==> c.newMessages == -3
  {
    var entries := [ParentSession("s", Some("h1"), Some(5))];
    assert entries[0].sessionId == "s";
    assert LastEntry(entries, "s") == Some(entries[0]);
  }

  predicate DistinctEntryIds(entries: seq<ParentSession>) {
    forall i, j :: 0 <= i < j < |entries| ==> entries[i].sessionId != entries[j].sessionId
  }

  /** With distinct ids, an id's entry is the one listing it. */
  lemma LastEntryDistinct(entries: seq<ParentSession>, k: nat)
    requires DistinctEntryIds(entries) && k < |entries|
    ensures LastEntry(entries, entries[k].sessionId) == Some(entries[k])
  {
    var id := entries[k].sessionId;
    var r := LastEntry(entries, id);
    assert r.Some?;
    var k' :| 0 <= k' < |entries| && entries[k'] == r.value
              && forall j :: k' < j < |entries| ==> entries[j].sessionId != id;
    assert k' == k;
  }
}
