/** Merging a repository's sessions into one transcript
    (cc_context/core/merger.py). Sessions are taken in the order given; a
    boundary marker separates a session from the output before it, and
    every message is re-linked to the one before it. */
module Merger {
  import opened Wrappers
  import opened Parser
  import opened Session

  /** A message of the merged transcript before linking, and whether it is
      a session boundary. */
  datatype Piece = Piece(msg: Message, boundary: bool)

  function BoundaryContent(id: string): string {
    "--- USER STARTED NEW SESSION (" + id + ") ---"
  }

  function BoundaryUuid(id: string): string {
    "boundary-" + id
  }

  /** The marker put before session `s`, not yet linked. */
  function BoundaryMessage(s: SessionInfo, timestamp: string): Message {
    Message("system", BoundaryContent(s.sessionId), timestamp, BoundaryUuid(s.sessionId), None)
  }

  /** `m` is the marker of session `s`. */
  predicate IsBoundaryFor(m: Message, s: SessionInfo) {
    m.kind == "system" && m.uuid == BoundaryUuid(s.sessionId) && m.content == BoundaryContent(s.sessionId)
  }

  function Plain(ms: seq<Message>): (r: seq<Piece>)
    ensures |r| == |ms|
    ensures forall k :: 0 <= k < |ms| ==> r[k] == Piece(ms[k], false)
  {
    seq(|ms|, k requires 0 <= k < |ms| => Piece(ms[k], false))
  }

  /** What session `s` adds: a marker when output precedes it (stamped with
      its first message's time, or the file's modification time when it has
      none), then its messages. */
  function Block(s: SessionInfo, decode: Decoder, afterOutput: bool): seq<Piece> {
    var ms := Parsed(s.lines, decode);
    var stamp := if ms != [] then ms[0].timestamp else s.modifiedTime;
    (if afterOutput then [Piece(BoundaryMessage(s, stamp), true)] else []) + Plain(ms)
  }

  /** The merged transcript of `ss` before linking. */
  function Pieces(ss: seq<SessionInfo>, decode: Decoder): seq<Piece>
    decreases |ss|
  {
    if ss == [] then []
    else
      var p := Pieces(ss[..|ss| - 1], decode);
      p + Block(ss[|ss| - 1], decode, p != [])
  }

  /** The parent given to piece `k`: the uuid before it, except that a
      message (not a marker) after an empty uuid gets none. */
  function ParentAt(p: seq<Piece>, k: nat): Option<string>
    requires k < |p|
  {
    if k == 0 then None
    else if p[k].boundary || p[k - 1].msg.uuid != "" then Some(p[k - 1].msg.uuid)
    else None
  }

  /** The pieces' messages, each linked to the one before it. */
  function Relink(p: seq<Piece>): (r: seq<Message>)
    ensures |r| == |p|
  {
    seq(|p|, k requires 0 <= k < |p| => p[k].msg.(parentUuid := ParentAt(p, k)))
  }

  /** Linking changes nothing but the parents, and makes a chain: the first
      message has no parent, and every later one has the uuid before it,
      except a message (not a marker) after an empty uuid, which has none. */
  lemma RelinkChain(p: seq<Piece>)
    ensures forall k :: 0 <= k < |p| ==> Relink(p)[k] == p[k].msg.(parentUuid := Relink(p)[k].parentUuid)
    ensures p != [] ==> Relink(p)[0].parentUuid == None
    ensures forall k :: 0 < k < |p| && (p[k].boundary || Relink(p)[k - 1].uuid != "") ==>
                          Relink(p)[k].parentUuid == Some(Relink(p)[k - 1].uuid)
    ensures forall k :: 0 < k < |p| && !p[k].boundary && Relink(p)[k - 1].uuid == "" ==>
                          Relink(p)[k].parentUuid == None
  {
  }

  /** `merge_sessions` as a function. */
  function Merged(ss: seq<SessionInfo>, decode: Decoder): seq<Message> {
    Relink(Pieces(ss, decode))
  }

  function LastUuid(p: seq<Piece>): Option<string> {
    if p == [] then None else Some(p[|p| - 1].msg.uuid)
  }

  lemma RelinkSnoc(p: seq<Piece>, x: Piece)
    ensures Relink(p + [x]) == Relink(p) + [x.msg.(parentUuid := ParentAt(p + [x], |p|))]
  {
    var q := p + [x];
    assert forall k :: 0 <= k < |p| ==> ParentAt(q, k) == ParentAt(p, k);
  }

  lemma PiecesSnoc(ss: seq<SessionInfo>, i: nat, decode: Decoder)
    requires i < |ss|
    ensures Pieces(ss[..i + 1], decode)
         == Pieces(ss[..i], decode) + Block(ss[i], decode, Pieces(ss[..i], decode) != [])
  {
    assert ss[..i + 1][..i] == ss[..i];
  }

  lemma PlainSnoc(ms: seq<Message>, j: nat)
    requires j < |ms|
    ensures Plain(ms[..j + 1]) == Plain(ms[..j]) + [Piece(ms[j], false)]
  {
  }

  lemma BlockIs(s: SessionInfo, decode: Decoder, afterOutput: bool, marker: seq<Piece>)
    requires var ms := Parsed(s.lines, decode);
      marker == if afterOutput then [Piece(BoundaryMessage(s, if ms != [] then ms[0].timestamp else s.modifiedTime), true)] else []
    ensures Block(s, decode, afterOutput) == marker + Plain(Parsed(s.lines, decode))
  {
  }

  /** The first `n` sessions hold their parsed message counts. */
  predicate CountsRecorded(sessions: seq<SessionInfo>, n: nat, decode: Decoder)
    requires n <= |sessions|
    reads sessions
  {
    forall k :: 0 <= k < n ==> sessions[k].messageCount == |Parsed(sessions[k].lines, decode)|
  }

  /** One pass of `merge_sessions`' loop once the session's messages are
      parsed: a marker linked to the output so far when there is output,
      then each message linked to the one before it. */
  method AppendSession(merged0: seq<Message>, prevUuid0: Option<string>, ghost start: seq<Piece>,
                       session: SessionInfo, messages: seq<Message>, decode: Decoder)
    returns (merged: seq<Message>, prevUuid: Option<string>)
    requires merged0 == Relink(start) && prevUuid0 == LastUuid(start)
    requires messages == Parsed(session.lines, decode)
    ensures merged == Relink(start + Block(session, decode, start != []))
    ensures prevUuid == LastUuid(start + Block(session, decode, start != []))
  {
    merged, prevUuid := merged0, prevUuid0;
    ghost var pieces := start;
    ghost var marker: seq<Piece> := [];
    if |merged| > 0 {
      var stamp := if |messages| > 0 then messages[0].timestamp else session.modifiedTime;
      var boundary := Message("system", BoundaryContent(session.sessionId), stamp,
                              BoundaryUuid(session.sessionId), prevUuid);
      marker := [Piece(BoundaryMessage(session, stamp), true)];
      RelinkSnoc(pieces, marker[0]);
      merged := merged + [boundary];
      pieces := pieces + marker;
      prevUuid := Some(boundary.uuid);
    }
    ghost var base := pieces;
    assert base == start + marker;
    for j := 0 to |messages|
      invariant pieces == base + Plain(messages[..j])
      invariant merged == Relink(pieces)
      invariant prevUuid == LastUuid(pieces)
    {
      var msg := messages[j];
      var relinked := Message(msg.kind, msg.content, msg.timestamp, msg.uuid,
                              if prevUuid.Some? && prevUuid.value != "" then prevUuid else None);
      RelinkSnoc(pieces, Piece(msg, false));
      PlainSnoc(messages, j);
      ConcatAssoc(base, Plain(messages[..j]), [Piece(msg, false)]);
      merged := merged + [relinked];
      pieces := pieces + [Piece(msg, false)];
      prevUuid := Some(relinked.uuid);
    }
    assert messages[..|messages|] == messages;
    BlockIs(session, decode, start != [], marker);
    ConcatAssoc(start, marker, Plain(messages));
  }

  /** `merge_sessions`: returns the merged transcript and records each
      session's parsed message count in it. */
  method MergeSessions(sessions: seq<SessionInfo>, decode: Decoder) returns (merged: seq<Message>)
    modifies sessions
    ensures merged == Merged(sessions, decode)
    ensures forall k :: 0 <= k < |sessions| ==> sessions[k].messageCount == |Parsed(sessions[k].lines, decode)|
  {
    merged := [];
    var prevUuid: Option<string> := None;
    ghost var pieces: seq<Piece> := [];
    for i := 0 to |sessions|
      invariant pieces == Pieces(sessions[..i], decode)
      invariant merged == Relink(pieces)
      invariant prevUuid == LastUuid(pieces)
      invariant CountsRecorded(sessions, i, decode)
    {
      var session := sessions[i];
      var messages := ParseJsonl(session.lines, decode);
      session.messageCount := |messages|;
      assert CountsRecorded(sessions, i + 1, decode) by {
        forall k | 0 <= k < i + 1
          ensures sessions[k].messageCount == |Parsed(sessions[k].lines, decode)|
        {
          if sessions[k] == session {
            assert sessions[k].lines == session.lines;
          }
        }
      }
      merged, prevUuid := AppendSession(merged, prevUuid, pieces, session, messages, decode);
      PiecesSnoc(sessions, i, decode);
      pieces := pieces + Block(session, decode, pieces != []);
    }
    assert sessions[..|sessions|] == sessions;
  }

  // ---------------------------------------------------------------------
  // Properties

  /** The messages of the pieces that are not markers. */
  function Originals(p: seq<Piece>): (r: seq<Message>)
    ensures |r| <= |p|
    decreases |p|
  {
    if p == [] then [] else (if p[0].boundary then [] else [p[0].msg]) + Originals(p[1..])
  }

  function CountBoundaries(p: seq<Piece>): nat
    decreases |p|
  {
    if p == [] then 0 else (if p[0].boundary then 1 else 0) + CountBoundaries(p[1..])
  }

  /** Every session's messages, in order. */
  function AllParsed(ss: seq<SessionInfo>, decode: Decoder): seq<Message>
    decreases |ss|
  {
    if ss == [] then [] else AllParsed(ss[..|ss| - 1], decode) + Parsed(ss[|ss| - 1].lines, decode)
  }

  lemma {:induction false} OriginalsConcat(a: seq<Piece>, b: seq<Piece>)
    ensures Originals(a + b) == Originals(a) + Originals(b)
    ensures CountBoundaries(a + b) == CountBoundaries(a) + CountBoundaries(b)
    decreases |a|
  {
    if a != [] {
      assert (a + b)[1..] == a[1..] + b;
      OriginalsConcat(a[1..], b);
    } else {
      assert a + b == b;
    }
  }

  lemma {:induction false} OriginalsPlain(ms: seq<Message>)
    ensures Originals(Plain(ms)) == ms
    ensures CountBoundaries(Plain(ms)) == 0
    decreases |ms|
  {
    if ms != [] {
      assert Plain(ms)[1..] == Plain(ms[1..]);
      OriginalsPlain(ms[1..]);
      assert ms == [ms[0]] + ms[1..];
    }
  }

  lemma {:induction false} PiecesCount(p: seq<Piece>)
    ensures |p| == |Originals(p)| + CountBoundaries(p)
    decreases |p|
  {
    if p != [] {
      PiecesCount(p[1..]);
    }
  }

  lemma BlockParts(s: SessionInfo, decode: Decoder, afterOutput: bool)
    ensures Originals(Block(s, decode, afterOutput)) == Parsed(s.lines, decode)
    ensures CountBoundaries(Block(s, decode, afterOutput)) == if afterOutput then 1 else 0
  {
    var ms := Parsed(s.lines, decode);
    var stamp := if ms != [] then ms[0].timestamp else s.modifiedTime;
    var marker := if afterOutput then [Piece(BoundaryMessage(s, stamp), true)] else [];
    OriginalsConcat(marker, Plain(ms));
    OriginalsPlain(ms);
    if afterOutput {
      assert marker[1..] == [];
    }
  }

  /** Merging keeps every session's messages, in session order and in file
      order: take away the markers and what is left is their concatenation. */
  lemma {:induction false} MergeKeepsMessages(ss: seq<SessionInfo>, decode: Decoder)
    ensures Originals(Pieces(ss, decode)) == AllParsed(ss, decode)
    decreases |ss|
  {
    if ss != [] {
      var init := ss[..|ss| - 1];
      var p := Pieces(init, decode);
      MergeKeepsMessages(init, decode);
      OriginalsConcat(p, Block(ss[|ss| - 1], decode, p != []));
      BlockParts(ss[|ss| - 1], decode, p != []);
    }
  }

  /** There is at most one marker per session after the first. */
  lemma {:induction false} BoundariesBounded(ss: seq<SessionInfo>, decode: Decoder)
    requires ss != []
    ensures CountBoundaries(Pieces(ss, decode)) <= |ss| - 1
    decreases |ss|
  {
    var init := ss[..|ss| - 1];
    var p := Pieces(init, decode);
    OriginalsConcat(p, Block(ss[|ss| - 1], decode, p != []));
    BlockParts(ss[|ss| - 1], decode, p != []);
    if p != [] {
      assert init != [];
      BoundariesBounded(init, decode);
    }
  }

  /** The merged transcript holds every parsed message and the markers, and
      nothing else. */
  lemma MergedLength(ss: seq<SessionInfo>, decode: Decoder)
    ensures |Merged(ss, decode)| == |AllParsed(ss, decode)| + CountBoundaries(Pieces(ss, decode))
    ensures ss != [] ==> |Merged(ss, decode)| <= |AllParsed(ss, decode)| + |ss| - 1
  {
    PiecesCount(Pieces(ss, decode));
    MergeKeepsMessages(ss, decode);
    if ss != [] {
      BoundariesBounded(ss, decode);
    }
  }

  lemma BlockMarker(s: SessionInfo, decode: Decoder, afterOutput: bool, k: nat)
    requires k < |Block(s, decode, afterOutput)| && Block(s, decode, afterOutput)[k].boundary
    ensures afterOutput && k == 0 && IsBoundaryFor(Block(s, decode, afterOutput)[k].msg, s)
  {
  }

  /** Every marker stands after some output and names one of the sessions. */
  lemma {:induction false} MarkersNameSessions(ss: seq<SessionInfo>, decode: Decoder, k: nat)
    requires k < |Pieces(ss, decode)| && Pieces(ss, decode)[k].boundary
    ensures k > 0
    ensures exists i :: 0 <= i < |ss| && IsBoundaryFor(Pieces(ss, decode)[k].msg, ss[i])
    decreases |ss|
  {
    var init := ss[..|ss| - 1];
    var p := Pieces(init, decode);
    var b := Block(ss[|ss| - 1], decode, p != []);
    assert Pieces(ss, decode) == p + b;
    if k < |p| {
      assert p[k] == Pieces(ss, decode)[k];
      MarkersNameSessions(init, decode, k);
      var i :| 0 <= i < |init| && IsBoundaryFor(p[k].msg, init[i]);
      assert init[i] == ss[i];
    } else {
      assert b[k - |p|] == Pieces(ss, decode)[k];
      BlockMarker(ss[|ss| - 1], decode, p != [], k - |p|);
      assert IsBoundaryFor(Pieces(ss, decode)[k].msg, ss[|ss| - 1]);
    }
  }

  /** A single session gets no marker: its transcript is its own messages,
      relinked. */
  lemma SingleSession(s: SessionInfo, decode: Decoder)
    ensures Pieces([s], decode) == Plain(Parsed(s.lines, decode))
    ensures CountBoundaries(Pieces([s], decode)) == 0
  {
    assert [s][..0] == [];
    OriginalsPlain(Parsed(s.lines, decode));
  }

  /** A session that comes out empty adds nothing, not even a marker before
      the session after it. */
  lemma EmptySessionAddsNothing(ss: seq<SessionInfo>, e: SessionInfo, decode: Decoder)
    requires Parsed(e.lines, decode) == [] && Pieces(ss, decode) == []
    ensures Pieces(ss + [e], decode) == []
  {
    assert (ss + [e])[..|ss|] == ss;
  }

  // ---------------------------------------------------------------------
  // get_message_stats

  datatype MessageStats = MessageStats(total: nat, user: nat, assistant: nat, system: nat)

  /** The number of messages of type `kind`. */
  function CountKind(ms: seq<Message>, kind: string): (n: nat)
    ensures n <= |ms|
    decreases |ms|
  {
    if ms == [] then 0 else (if ms[0].kind == kind then 1 else 0) + CountKind(ms[1..], kind)
  }

  lemma {:induction false} KindsBounded(ms: seq<Message>)
    ensures CountKind(ms, "user") + CountKind(ms, "assistant") + CountKind(ms, "system") <= |ms|
    decreases |ms|
  {
    if ms != [] {
      KindsBounded(ms[1..]);
    }
  }

  /** `get_message_stats`: the total is the length, and the three kinds
      together are no more than the total. */
  function GetMessageStats(ms: seq<Message>): (r: MessageStats)
    ensures r.total == |ms|
    ensures r.user + r.assistant + r.system <= r.total
  {
    KindsBounded(ms);
    MessageStats(|ms|, CountKind(ms, "user"), CountKind(ms, "assistant"), CountKind(ms, "system"))
  }

  lemma {:induction false} CountKindConcat(a: seq<Message>, b: seq<Message>, kind: string)
    ensures CountKind(a + b, kind) == CountKind(a, kind) + CountKind(b, kind)
    decreases |a|
  {
    if a != [] {
      assert (a + b)[1..] == a[1..] + b;
      CountKindConcat(a[1..], b, kind);
    } else {
      assert a + b == b;
    }
  }

  /** Counting is by type only: the counts of a transcript are the sums of
      the counts of its parts. */
  lemma StatsOfConcat(a: seq<Message>, b: seq<Message>)
    ensures GetMessageStats(a + b).user == GetMessageStats(a).user + GetMessageStats(b).user
    ensures GetMessageStats(a + b).assistant == GetMessageStats(a).assistant + GetMessageStats(b).assistant
    ensures GetMessageStats(a + b).system == GetMessageStats(a).system + GetMessageStats(b).system
  {
    CountKindConcat(a, b, "user");
    CountKindConcat(a, b, "assistant");
    CountKindConcat(a, b, "system");
  }
}
