/** The few pieces of Python string behaviour the core relies on: `in`,
    `split`, `strip`, `rstrip`, `replace`, `join`, `<` and `str(n)`. */
module Text {
  import opened Wrappers

  /** Python's `str.isspace()` restricted to ASCII. */
  predicate IsSpace(c: char) {
    c == ' ' || c == '\t' || c == '\n' || c == '\r' || c == '\U{B}' || c == '\U{C}'
    || c == '\U{1C}' || c == '\U{1D}' || c == '\U{1E}' || c == '\U{1F}'
  }

  predicate HasNoSpace(s: string) {
    forall i :: 0 <= i < |s| ==> !IsSpace(s[i])
  }

  predicate HasNo(s: string, c: char) {
    forall i :: 0 <= i < |s| ==> s[i] != c
  }

  predicate IsPrefix(p: string, s: string) {
    |p| <= |s| && s[..|p|] == p
  }

  predicate EndsWith(s: string, suffix: string) {
    |suffix| <= |s| && s[|s| - |suffix|..] == suffix
  }

  /** Python's `pat in s`. */
  predicate Contains(s: string, pat: string)
    decreases |s|
  {
    IsPrefix(pat, s) || (|s| > 0 && Contains(s[1..], pat))
  }

  lemma {:induction false} ContainsInfix(a: string, pat: string, b: string)
    ensures Contains(a + pat + b, pat)
    decreases |a|
  {
    if a == [] {
      assert a + pat + b == pat + b;
      assert (pat + b)[..|pat|] == pat;
    } else {
      assert (a + pat + b)[1..] == a[1..] + pat + b;
      ContainsInfix(a[1..], pat, b);
    }
  }

  /** A text containing `pat` still does with more text in front. */
  lemma {:induction false} ContainsAfter(a: string, x: string, pat: string)
    requires Contains(x, pat)
    ensures Contains(a + x, pat)
    decreases |a|
  {
    if a == [] {
      assert a + x == x;
    } else {
      assert (a + x)[1..] == a[1..] + x;
      ContainsAfter(a[1..], x, pat);
    }
  }

  /** Index of the first `c` in `s`, or `|s|` when there is none. */
  function IndexOf(s: string, c: char): (i: nat)
    ensures i <= |s|
    ensures i < |s| ==> s[i] == c
    ensures HasNo(s[..i], c)
    decreases |s|
  {
    if s == [] then 0
    else if s[0] == c then 0
    else 1 + IndexOf(s[1..], c)
  }

  /** Python's `s.split(c)` for a one-character separator. */
  function Split(s: string, c: char): (r: seq<string>)
    ensures |r| > 0
    decreases |s|
  {
    var i := IndexOf(s, c);
    if i == |s| then [s] else [s[..i]] + Split(s[i + 1..], c)
  }

  /** Python's `sep.join(xs)`. */
  function Join(xs: seq<string>, sep: string): string
  {
    if |xs| == 0 then ""
    else if |xs| == 1 then xs[0]
    else xs[0] + sep + Join(xs[1..], sep)
  }

  /** Splitting what `Join` produced gives the pieces back when none of them
      contains the separator. */
  lemma {:induction false} SplitJoin(xs: seq<string>, c: char)
    requires |xs| > 0
    requires forall k :: 0 <= k < |xs| ==> HasNo(xs[k], c)
    ensures Split(Join(xs, [c]), c) == xs
    decreases |xs|
  {
    if |xs| == 1 {
      IndexOfAbsent(xs[0], c);
    } else {
      var rest := Join(xs[1..], [c]);
      var s := xs[0] + [c] + rest;
      assert Join(xs, [c]) == s;
      IndexOfAt(xs[0], c, rest);
      assert s[..|xs[0]|] == xs[0];
      assert s[|xs[0]| + 1..] == rest;
      assert Split(s, c) == [xs[0]] + Split(rest, c);
      assert forall k :: 0 <= k < |xs[1..]| ==> xs[1..][k] == xs[k + 1];
      SplitJoin(xs[1..], c);
      assert xs == [xs[0]] + xs[1..];
    }
  }

  lemma {:induction false} IndexOfAbsent(s: string, c: char)
    requires HasNo(s, c)
    ensures IndexOf(s, c) == |s|
    decreases |s|
  {
    if s != [] {
      IndexOfAbsent(s[1..], c);
    }
  }

  lemma {:induction false} IndexOfAt(a: string, c: char, b: string)
    requires HasNo(a, c)
    ensures IndexOf(a + [c] + b, c) == |a|
    decreases |a|
  {
    if a != [] {
      assert (a + [c] + b)[1..] == a[1..] + [c] + b;
      IndexOfAt(a[1..], c, b);
    }
  }

  /** The first piece of `a + [c] + b` split at `c` is `a`. */
  lemma SplitFirst(a: string, c: char, b: string)
    requires HasNo(a, c)
    ensures Split(a + [c] + b, c)[0] == a
  {
    IndexOfAt(a, c, b);
    assert (a + [c] + b)[..|a|] == a;
  }

  function StripLeft(s: string): (r: string)
    ensures |r| <= |s| && r == s[|s| - |r|..]
    ensures r == [] || !IsSpace(r[0])
    decreases |s|
  {
    if s != [] && IsSpace(s[0]) then StripLeft(s[1..]) else s
  }

  function StripRight(s: string): (r: string)
    ensures |r| <= |s| && r == s[..|r|]
    ensures r == [] || !IsSpace(r[|r| - 1])
    decreases |s|
  {
    if s != [] && IsSpace(s[|s| - 1]) then StripRight(s[..|s| - 1]) else s
  }

  /** Python's `s.strip()`. */
  function Strip(s: string): string {
    StripRight(StripLeft(s))
  }

  lemma StripUnchanged(s: string)
    requires HasNoSpace(s)
    ensures Strip(s) == s
  {
    if s != [] {
      assert !IsSpace(s[0]) && !IsSpace(s[|s| - 1]);
    }
  }

  /** Python's `s.rstrip(c)` for a single character. */
  function RStripChar(s: string, c: char): (r: string)
    ensures |r| <= |s| && r == s[..|r|]
    ensures r == [] || r[|r| - 1] != c
    ensures forall k :: |r| <= k < |s| ==> s[k] == c
    decreases |s|
  {
    if s != [] && s[|s| - 1] == c then RStripChar(s[..|s| - 1], c) else s
  }

  /** Python's `s.replace(a, b)` for single characters. */
  function ReplaceChar(s: string, a: char, b: char): (r: string)
    ensures |r| == |s|
    ensures forall k :: 0 <= k < |s| ==> r[k] == (if s[k] == a then b else s[k])
  {
    seq(|s|, k requires 0 <= k < |s| => if s[k] == a then b else s[k])
  }

  /** The longest prefix of `s` without white space. */
  function TakeWord(s: string): (w: string)
    ensures |w| <= |s| && w == s[..|w|]
    ensures HasNoSpace(w)
    ensures |w| < |s| ==> IsSpace(s[|w|])
    ensures s != [] && !IsSpace(s[0]) ==> |w| > 0
    decreases |s|
  {
    if s == [] || IsSpace(s[0]) then "" else [s[0]] + TakeWord(s[1..])
  }

  /** Python's `s.split()` with no argument: the maximal runs of non-space characters. */
  function Words(s: string): seq<string>
    decreases |s|
  {
    var t := StripLeft(s);
    if t == [] then []
    else
      var w := TakeWord(t);
      [w] + Words(t[|w|..])
  }

  lemma {:induction false} TakeWordOf(w: string, rest: string)
    requires HasNoSpace(w)
    requires rest == [] || IsSpace(rest[0])
    ensures TakeWord(w + rest) == w
    decreases |w|
  {
    if w != [] {
      assert (w + rest)[1..] == w[1..] + rest;
      TakeWordOf(w[1..], rest);
    } else {
      assert w + rest == rest;
    }
  }

  lemma WordsCons(w: string, rest: string)
    requires |w| > 0 && HasNoSpace(w)
    requires rest == [] || IsSpace(rest[0])
    ensures Words(w + rest) == [w] + Words(rest)
  {
    assert !IsSpace((w + rest)[0]);
    assert StripLeft(w + rest) == w + rest;
    TakeWordOf(w, rest);
    assert (w + rest)[|w|..] == rest;
  }

  lemma WordsSpace(c: char, rest: string)
    requires IsSpace(c)
    ensures Words([c] + rest) == Words(rest)
  {
    assert ([c] + rest)[1..] == rest;
    assert StripLeft([c] + rest) == StripLeft(rest);
  }

  /** A space-separated line of space-free tokens splits back into exactly
      those tokens. */
  lemma {:induction false} WordsJoin(ws: seq<string>)
    requires forall k :: 0 <= k < |ws| ==> |ws[k]| > 0 && HasNoSpace(ws[k])
    ensures Words(Join(ws, " ")) == ws
    decreases |ws|
  {
    if |ws| == 0 {
      WordsEmpty();
    } else if |ws| == 1 {
      WordsSingle(ws[0]);
      assert [ws[0]] == ws;
    } else {
      WordsJoin(ws[1..]);
      WordsJoinStep(ws);
    }
  }

  lemma WordsJoinStep(ws: seq<string>)
    requires |ws| > 1 && |ws[0]| > 0 && HasNoSpace(ws[0])
    requires Words(Join(ws[1..], " ")) == ws[1..]
    ensures Words(Join(ws, " ")) == ws
  {
    JoinCons(ws);
    WordsSpaced(ws[0], Join(ws[1..], " "));
    assert ws == [ws[0]] + ws[1..];
  }

  lemma JoinCons(ws: seq<string>)
    requires |ws| > 1
    ensures Join(ws, " ") == ws[0] + ([' '] + Join(ws[1..], " "))
  {
  }

  lemma WordsSingle(w: string)
    requires |w| > 0 && HasNoSpace(w)
    ensures Words(w) == [w]
  {
    WordsCons(w, []);
    WordsEmpty();
    assert w + [] == w;
  }

  lemma WordsSpaced(w: string, tail: string)
    requires |w| > 0 && HasNoSpace(w)
    ensures Words(w + ([' '] + tail)) == [w] + Words(tail)
  {
    WordsCons(w, [' '] + tail);
    WordsSpace(' ', tail);
  }

  lemma WordsEmpty()
    ensures Words("") == []
  {
  }

  /** The joined tokens start with the first token's first character and end
      with the last token's last character. */
  lemma {:induction false} JoinEnds(ws: seq<string>, sep: string)
    requires |ws| > 0 && forall k :: 0 <= k < |ws| ==> |ws[k]| > 0
    ensures var j := Join(ws, sep);
      |j| > 0 && j[0] == ws[0][0] && j[|j| - 1] == ws[|ws| - 1][|ws[|ws| - 1]| - 1]
    decreases |ws|
  {
    if |ws| > 1 {
      JoinEnds(ws[1..], sep);
      assert ws[1..][|ws| - 2] == ws[|ws| - 1];
    }
  }

  /** A joined line of space-free tokens followed by a newline strips back to the line. */
  lemma StripJoinedLine(ws: seq<string>)
    requires |ws| > 0 && forall k :: 0 <= k < |ws| ==> |ws[k]| > 0 && HasNoSpace(ws[k])
    ensures Strip(Join(ws, " ") + "\n") == Join(ws, " ")
  {
    var j := Join(ws, " ");
    JoinEnds(ws, " ");
    var line := j + "\n";
    assert !IsSpace(line[0]);
    assert StripLeft(line) == line;
    assert line[..|line| - 1] == j;
    assert StripRight(line) == StripRight(j);
    assert StripRight(j) == j;
  }

  /** Python's `<` on `str`: lexicographic by code point. */
  predicate LexLess(a: string, b: string)
    decreases |a|
  {
    if b == [] then false
    else if a == [] then true
    else if a[0] != b[0] then a[0] < b[0]
    else LexLess(a[1..], b[1..])
  }

  lemma {:induction false} LexIrreflexive(a: string)
    ensures !LexLess(a, a)
    decreases |a|
  {
    if a != [] {
      LexIrreflexive(a[1..]);
    }
  }

  /** `<` on strings is total: of two different strings one is smaller. */
  lemma {:induction false} LexTotal(a: string, b: string)
    ensures a == b || LexLess(a, b) || LexLess(b, a)
    decreases |a|
  {
    if a != [] && b != [] && a[0] == b[0] {
      LexTotal(a[1..], b[1..]);
      assert a == [a[0]] + a[1..] && b == [b[0]] + b[1..];
    }
  }

  lemma {:induction false} LexTrans(a: string, b: string, c: string)
    requires LexLess(a, b) && LexLess(b, c)
    ensures LexLess(a, c)
    decreases |a|
  {
    if a != [] && a[0] == b[0] && b[0] == c[0] {
      LexTrans(a[1..], b[1..], c[1..]);
    }
  }

  /** `<=` on strings (`not b < a`) is transitive. */
  lemma NotLessTrans(a: string, b: string, c: string)
    requires !LexLess(b, a) && !LexLess(c, b)
    ensures !LexLess(c, a)
  {
    LexTotal(a, b);
    if LexLess(c, a) && LexLess(a, b) {
      LexTrans(c, a, b);
    }
  }

  function DigitChar(d: nat): (c: char)
    requires d < 10
    ensures '0' <= c <= '9'
  {
    "0123456789"[d]
  }

  predicate IsDigit(c: char) {
    '0' <= c <= '9'
  }

  /** Python's `str(n)` for a natural number. */
  function NatToString(n: nat): (r: string)
    ensures |r| > 0
    ensures forall k :: 0 <= k < |r| ==> IsDigit(r[k])
    decreases n
  {
    if n < 10 then [DigitChar(n)] else NatToString(n / 10) + [DigitChar(n % 10)]
  }

  function DigitsValue(s: string): nat
    requires forall k :: 0 <= k < |s| ==> IsDigit(s[k])
  {
    if s == [] then 0
    else
      assert IsDigit(s[|s| - 1]);
      DigitsValue(s[..|s| - 1]) * 10 + (s[|s| - 1] as int - '0' as int)
  }

  /** Reads a non-empty run of decimal digits; anything else is `None`. */
  function ParseNat(s: string): Option<nat> {
    if |s| > 0 && forall k :: 0 <= k < |s| ==> IsDigit(s[k]) then Some(DigitsValue(s)) else None
  }

  lemma {:induction false} DigitsValueOfNat(n: nat)
    ensures DigitsValue(NatToString(n)) == n
    decreases n
  {
    if n >= 10 {
      var r := NatToString(n);
      assert r[..|r| - 1] == NatToString(n / 10);
      DigitsValueOfNat(n / 10);
    }
  }

  lemma ParseNatToString(n: nat)
    ensures ParseNat(NatToString(n)) == Some(n)
  {
    DigitsValueOfNat(n);
  }
}
