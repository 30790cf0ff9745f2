/** Session transcripts, one JSON object per line (cc_context/core/parser.py).
    JSON itself is abstracted: `decode` stands for `json.loads` on one line
    and `dump` for `json.dumps` of one object. */
module Parser {
  import opened Wrappers
  import opened Text

  /** A decoded JSON object as far as transcripts use it: each key maps to a
      string, or to `None` for JSON `null`. */
  type JsonObject = map<string, Option<string>>

  /** `json.loads` on one stripped line; `None` when the line is not a JSON object. */
  type Decoder = string -> Option<JsonObject>

  /** `json.dumps` of one object. */
  type Dumper = JsonObject -> string

  /** `Message`; `kind` is the transcript's `type` field. */
  datatype Message = Message(kind: string, content: string, timestamp: string, uuid: string,
                             parentUuid: Option<string>)

  /** The keys `to_dict` writes. */
  const DictKeys: set<string> := {"type", "content", "timestamp", "uuid", "parentUuid"}

  /** `Message.to_dict`: exactly the five keys, the parent under `parentUuid`. */
  function ToDict(m: Message): (d: JsonObject)
    ensures d.Keys == DictKeys
  {
    map["type" := Some(m.kind), "content" := Some(m.content), "timestamp" := Some(m.timestamp),
        "uuid" := Some(m.uuid), "parentUuid" := m.parentUuid]
  }

  /** `data.get(key, default)` for a text field. */
  function TextField(d: JsonObject, key: string, default: string): string {
    if key in d && d[key].Some? then d[key].value else default
  }

  /** The uuid given to a line that has none: `missing-<n>` for physical line `n`. */
  function MissingUuid(n: nat): string {
    "missing-" + NatToString(n)
  }

  /** The message built from the object decoded from physical line `n`. */
  function MessageOf(d: JsonObject, n: nat): Message {
    Message(TextField(d, "type", "unknown"), TextField(d, "content", ""), TextField(d, "timestamp", ""),
            TextField(d, "uuid", MissingUuid(n)), if "parentUuid" in d then d["parentUuid"] else None)
  }

  /** What physical line `n` contributes: nothing when it is blank or does not
      decode, else one message. */
  function LineMessages(line: string, n: nat, decode: Decoder): (r: seq<Message>)
    ensures |r| <= 1
  {
    var t := Strip(line);
    if t == [] then []
    else match decode(t)
      case None => []
      case Some(d) => [MessageOf(d, n)]
  }

  /** What `f` makes of each element of `xs`, concatenated in order; the
      first element is numbered `first`, the next `first + 1`, and so on. */
  function ConcatMap<A, B>(xs: seq<A>, first: nat, f: (A, nat) -> seq<B>): seq<B>
    decreases |xs|
  {
    if xs == [] then [] else f(xs[0], first) + ConcatMap(xs[1..], first + 1, f)
  }

  lemma {:induction false} ConcatMapConcat<A, B>(a: seq<A>, b: seq<A>, first: nat, f: (A, nat) -> seq<B>)
    ensures ConcatMap(a + b, first, f) == ConcatMap(a, first, f) + ConcatMap(b, first + |a|, f)
    decreases |a|
  {
    if a == [] {
      assert a + b == b;
    } else {
      assert (a + b)[1..] == a[1..] + b;
      ConcatMapConcat(a[1..], b, first + 1, f);
    }
  }

  /** `y` is among what `f` makes of element `k` of `xs`. */
  ghost predicate MadeFrom<A, B>(xs: seq<A>, first: nat, f: (A, nat) -> seq<B>, k: int, y: B) {
    0 <= k < |xs| && y in f(xs[k], first + k)
  }

  /** Every element of the result comes from one element of `xs`. */
  lemma {:induction false} ConcatMapFrom<A, B>(xs: seq<A>, first: nat, f: (A, nat) -> seq<B>, i: nat)
    requires i < |ConcatMap(xs, first, f)|
    ensures exists k :: MadeFrom(xs, first, f, k, ConcatMap(xs, first, f)[i])
    decreases |xs|
  {
    var head := f(xs[0], first);
    var tail := ConcatMap(xs[1..], first + 1, f);
    assert ConcatMap(xs, first, f) == head + tail;
    if i < |head| {
      assert MadeFrom(xs, first, f, 0, ConcatMap(xs, first, f)[i]);
    } else {
      ConcatMapFrom(xs[1..], first + 1, f, i - |head|);
      var k :| MadeFrom(xs[1..], first + 1, f, k, tail[i - |head|]);
      assert xs[1..][k] == xs[k + 1] && first + 1 + k == first + (k + 1);
      assert MadeFrom(xs, first, f, k + 1, ConcatMap(xs, first, f)[i]);
    }
  }

  /** The loop body of `parse_jsonl_file` as a function of a line and its number. */
  function LineParser(decode: Decoder): (string, nat) -> seq<Message> {
    (line: string, n: nat) => LineMessages(line, n, decode)
  }

  /** The messages of `lines`, the first of which is physical line `first`. */
  function ParsedFrom(lines: seq<string>, first: nat, decode: Decoder): seq<Message> {
    ConcatMap(lines, first, LineParser(decode))
  }

  /** `parse_jsonl_file` on a file with these physical lines. */
  function Parsed(lines: seq<string>, decode: Decoder): seq<Message> {
    ParsedFrom(lines, 1, decode)
  }

  /** `parse_jsonl_file`. */
  method ParseJsonl(lines: seq<string>, decode: Decoder) returns (messages: seq<Message>)
    ensures messages == Parsed(lines, decode)
    ensures |messages| <= |lines|
  {
    messages := [];
    var i := 0;
    while i < |lines|
      invariant 0 <= i <= |lines|
      invariant messages == Parsed(lines[..i], decode)
    {
      ParsedSnoc(lines, i, decode);
      ghost var added := LineMessages(lines[i], i + 1, decode);
      var line := Strip(lines[i]);
      if line != [] {
        var data := decode(line);
        if data.Some? {
          assert added == [MessageOf(data.value, i + 1)];
          messages := messages + [MessageOf(data.value, i + 1)];
        } else {
          assert added == [];
        }
      } else {
        assert added == [];
      }
      i := i + 1;
    }
    assert lines[..i] == lines;
    ParsedLength(lines, 1, decode);
  }

  /** All uuids are pairwise distinct. */
  predicate DistinctUuids(ms: seq<Message>) {
    forall i, j :: 0 <= i < j < |ms| ==> ms[i].uuid != ms[j].uuid
  }

  /** No timestamp is smaller, as a string, than the one before it. */
  predicate NonDecreasing(ms: seq<Message>) {
    forall i :: 0 < i < |ms| ==> !LexLess(ms[i].timestamp, ms[i - 1].timestamp)
  }

  /** `validate_messages`. */
  method ValidateMessages(ms: seq<Message>) returns (ok: bool)
    ensures ok <==> DistinctUuids(ms) && NonDecreasing(ms)
  {
    if |ms| == 0 {
      return true;
    }
    var seen: set<string> := {};
    for i := 0 to |ms|
      invariant seen == set k | 0 <= k < i :: ms[k].uuid
      invariant DistinctUuids(ms[..i])
    {
      if ms[i].uuid in seen {
        var k :| 0 <= k < i && ms[k].uuid == ms[i].uuid;
        assert ms[k].uuid == ms[i].uuid;
        return false;
      }
      seen := seen + {ms[i].uuid};
      assert forall a, b :: 0 <= a < b < i + 1 ==> ms[..i + 1][a] == ms[a] && ms[..i + 1][b] == ms[b];
    }
    assert ms[..|ms|] == ms;
    for i := 1 to |ms|
      invariant forall k :: 0 < k < i ==> !LexLess(ms[k].timestamp, ms[k - 1].timestamp)
    {
      if LexLess(ms[i].timestamp, ms[i - 1].timestamp) {
        return false;
      }
    }
    return true;
  }

  /** The lines `messages_to_jsonl` writes, one per message. */
  function JsonLines(ms: seq<Message>, dump: Dumper): (r: seq<string>)
    ensures |r| == |ms|
  {
    seq(|ms|, k requires 0 <= k < |ms| => dump(ToDict(ms[k])))
  }

  /** `messages_to_jsonl`: the lines joined by newlines, with none at the end. */
  method MessagesToJsonl(ms: seq<Message>, dump: Dumper) returns (r: string)
    ensures r == Join(JsonLines(ms, dump), "\n")
    ensures ms == [] ==> r == ""
  {
    var lines: seq<string> := [];
    for i := 0 to |ms|
      invariant lines == JsonLines(ms[..i], dump)
    {
      lines := lines + [dump(ToDict(ms[i]))];
    }
    assert ms[..|ms|] == ms;
    r := Join(lines, "\n");
  }

  // ---------------------------------------------------------------------
  // Properties

  /** Reading back what `to_dict` wrote gives the message, on any line. */
  lemma ToDictRoundTrip(m: Message, n: nat)
    ensures MessageOf(ToDict(m), n) == m
  {
    var d := ToDict(m);
    assert d["type"] == Some(m.kind) && d["uuid"] == Some(m.uuid) && d["parentUuid"] == m.parentUuid;
  }

  /** An object without any of the fields gets every default. */
  lemma EmptyObjectDefaults(n: nat)
    ensures MessageOf(map[], n) == Message("unknown", "", "", "missing-" + NatToString(n), None)
  {
  }

  /** The uuids made up for different lines differ. */
  lemma MissingUuidsDiffer(n: nat, m: nat)
    requires n != m
    ensures MissingUuid(n) != MissingUuid(m)
  {
    if MissingUuid(n) == MissingUuid(m) {
      assert MissingUuid(n)[8..] == NatToString(n);
      assert MissingUuid(m)[8..] == NatToString(m);
      ParseNatToString(n);
      ParseNatToString(m);
    }
  }

  /** Parsing follows line order: the messages of two runs of lines are those
      of the first run followed by those of the second, numbered on. */
  lemma ParsedConcat(a: seq<string>, b: seq<string>, first: nat, decode: Decoder)
    ensures ParsedFrom(a + b, first, decode) == ParsedFrom(a, first, decode) + ParsedFrom(b, first + |a|, decode)
  {
    ConcatMapConcat(a, b, first, LineParser(decode));
  }

  /** A run of lines has no more messages than lines. */
  lemma {:induction false} ParsedLength(lines: seq<string>, first: nat, decode: Decoder)
    ensures |ParsedFrom(lines, first, decode)| <= |lines|
    decreases |lines|
  {
    if lines != [] {
      assert ParsedFrom(lines, first, decode)
          == LineMessages(lines[0], first, decode) + ParsedFrom(lines[1..], first + 1, decode);
      ParsedLength(lines[1..], first + 1, decode);
    }
  }

  /** One line gives what that line contributes. */
  lemma ParsedSingle(line: string, n: nat, decode: Decoder)
    ensures ParsedFrom([line], n, decode) == LineMessages(line, n, decode)
  {
    assert [line][1..] == [];
    assert ParsedFrom([line], n, decode) == LineMessages(line, n, decode) + ParsedFrom([], n + 1, decode);
  }

  /** Physical line `k + 1` contributes exactly its own message, if any, at
      its place: a blank or undecodable line is skipped, yet still counted. */
  lemma ParsedAt(lines: seq<string>, k: nat, decode: Decoder)
    requires k < |lines|
    ensures Parsed(lines, decode)
         == Parsed(lines[..k], decode) + LineMessages(lines[k], k + 1, decode) + ParsedFrom(lines[k + 1..], k + 2, decode)
  {
    assert lines == lines[..k] + lines[k..];
    ParsedConcat(lines[..k], lines[k..], 1, decode);
    assert lines[k..][1..] == lines[k + 1..];
  }

  /** One more line appends what that line contributes. */
  lemma ParsedSnoc(lines: seq<string>, i: nat, decode: Decoder)
    requires i < |lines|
    ensures Parsed(lines[..i + 1], decode) == Parsed(lines[..i], decode) + LineMessages(lines[i], i + 1, decode)
  {
    assert lines[..i + 1] == lines[..i] + [lines[i]];
    ParsedConcat(lines[..i], [lines[i]], 1, decode);
    ParsedSingle(lines[i], i + 1, decode);
  }

  /** Message `m` is the one built from line `k` of `lines`, numbered from `first`. */
  predicate FromLine(lines: seq<string>, first: nat, decode: Decoder, k: int, m: Message) {
    0 <= k < |lines| && Strip(lines[k]) != [] && decode(Strip(lines[k])).Some?
    && m == MessageOf(decode(Strip(lines[k])).value, first + k)
  }

  /** Every message comes from a line that is not blank and decodes. */
  lemma {:induction false} ParsedFromDecoded(lines: seq<string>, first: nat, decode: Decoder, i: nat)
    requires i < |ParsedFrom(lines, first, decode)|
    ensures exists k :: FromLine(lines, first, decode, k, ParsedFrom(lines, first, decode)[i])
  {
    var f := LineParser(decode);
    ConcatMapFrom(lines, first, f, i);
    var k :| MadeFrom(lines, first, f, k, ConcatMap(lines, first, f)[i]);
    FromLineOf(lines, first, decode, k, ParsedFrom(lines, first, decode)[i]);
  }

  lemma FromLineOf(lines: seq<string>, first: nat, decode: Decoder, k: int, m: Message)
    requires MadeFrom(lines, first, LineParser(decode), k, m)
    ensures FromLine(lines, first, decode, k, m)
  {
    assert m in LineMessages(lines[k], first + k, decode);
    LineMessage(lines[k], first + k, decode);
  }

  lemma ParsedUnfold(lines: seq<string>, first: nat, decode: Decoder)
    requires lines != []
    ensures ParsedFrom(lines, first, decode)
         == LineMessages(lines[0], first, decode) + ParsedFrom(lines[1..], first + 1, decode)
  {
  }

  lemma LineMessage(line: string, n: nat, decode: Decoder)
    requires LineMessages(line, n, decode) != []
    ensures Strip(line) != [] && decode(Strip(line)).Some?
    ensures LineMessages(line, n, decode) == [MessageOf(decode(Strip(line)).value, n)]
  {
  }

  /** A serialisation `dump` that `decode` reads back: one line, no white
      space at its ends, decoding to the object. */
  predicate ReadsBack(dump: Dumper, decode: Decoder, o: JsonObject) {
    var line := dump(o);
    line != [] && HasNo(line, '\n') && Strip(line) == line && decode(line) == Some(o)
  }

  lemma DumpedLine(m: Message, dump: Dumper, decode: Decoder, n: nat)
    requires ReadsBack(dump, decode, ToDict(m))
    ensures LineMessages(dump(ToDict(m)), n, decode) == [m]
  {
    ToDictRoundTrip(m, n);
  }

  lemma {:induction false} ParsedDumps(ms: seq<Message>, dump: Dumper, decode: Decoder, first: nat)
    requires forall k :: 0 <= k < |ms| ==> ReadsBack(dump, decode, ToDict(ms[k]))
    ensures ParsedFrom(JsonLines(ms, dump), first, decode) == ms
    decreases |ms|
  {
    if ms != [] {
      var lines := JsonLines(ms, dump);
      assert lines[1..] == JsonLines(ms[1..], dump);
      DumpedLine(ms[0], dump, decode, first);
      ParsedDumps(ms[1..], dump, decode, first + 1);
      assert ParsedFrom(lines, first, decode)
          == LineMessages(lines[0], first, decode) + ParsedFrom(lines[1..], first + 1, decode);
      assert ms == [ms[0]] + ms[1..];
    }
  }

  /** Reading back a serialised transcript, split at its newlines, gives the
      messages again, for any JSON serialisation that reads back. */
  lemma JsonlRoundTrip(ms: seq<Message>, dump: Dumper, decode: Decoder)
    requires forall k :: 0 <= k < |ms| ==> ReadsBack(dump, decode, ToDict(ms[k]))
    ensures Parsed(Split(Join(JsonLines(ms, dump), "\n"), '\n'), decode) == ms
  {
    var lines := JsonLines(ms, dump);
    if ms == [] {
      assert Split("", '\n') == [""];
      ParsedSingle("", 1, decode);
      assert Strip("") == "";
    } else {
      assert forall k :: 0 <= k < |lines| ==> HasNo(lines[k], '\n') by {
        forall k | 0 <= k < |lines| ensures HasNo(lines[k], '\n') {
          assert ReadsBack(dump, decode, ToDict(ms[k]));
        }
      }
      assert "\n" == ['\n'];
      SplitJoin(lines, '\n');
      ParsedDumps(ms, dump, decode, 1);
    }
  }

  /** Adjacent order is enough: in a valid transcript no timestamp is smaller
      than any earlier one. */
  lemma {:induction false} NonDecreasingOrdered(ms: seq<Message>, i: nat, j: nat)
    requires NonDecreasing(ms)
    requires i <= j < |ms|
    ensures !LexLess(ms[j].timestamp, ms[i].timestamp)
    decreases j - i
  {
    if i == j {
      LexIrreflexive(ms[i].timestamp);
    } else {
      NonDecreasingOrdered(ms, i, j - 1);
      NotLessTrans(ms[i].timestamp, ms[j - 1].timestamp, ms[j].timestamp);
    }
  }
}
