/** Where a project's session store lives: `~/.claude/projects/<encoded root>`,
    the encoding turning the project's absolute path into one directory name. */
module PathEncoding {
  import opened Text

  /** The POSIX path separator (`os.sep`). */
  const Sep: char := '/'

  /** `encode_path` on a path that is already absolute and normalised:
      every separator, then every underscore, becomes a dash. */
  function EncodePath(absPath: string): (r: string)
    ensures |r| == |absPath|
    ensures forall k :: 0 <= k < |absPath| ==>
      r[k] == (if absPath[k] == Sep || absPath[k] == '_' then '-' else absPath[k])
  {
    ReplaceChar(ReplaceChar(absPath, Sep, '-'), '_', '-')
  }

  /** An encoded path is a single directory name without underscores. */
  lemma EncodedIsOneName(absPath: string)
    ensures HasNo(EncodePath(absPath), Sep) && HasNo(EncodePath(absPath), '_')
  {
  }

  /** Each replacement step is idempotent, and so is the whole encoding. */
  lemma {:induction false} EncodeIdempotent(absPath: string)
    ensures ReplaceChar(ReplaceChar(absPath, Sep, '-'), Sep, '-') == ReplaceChar(absPath, Sep, '-')
    ensures ReplaceChar(ReplaceChar(absPath, '_', '-'), '_', '-') == ReplaceChar(absPath, '_', '-')
    ensures EncodePath(EncodePath(absPath)) == EncodePath(absPath)
  {
    var e := EncodePath(absPath);
    assert |EncodePath(e)| == |e|;
    forall k | 0 <= k < |e| ensures EncodePath(e)[k] == e[k] {
    }
  }

  /** Two paths that differ only by separator against underscore at the same
      positions get the same store directory: the encoding is not injective. */
  lemma {:induction false} EncodeConflates(p: string, q: string)
    requires |p| == |q|
    requires forall k :: 0 <= k < |p| ==>
      p[k] == q[k] || ((p[k] == Sep || p[k] == '_') && (q[k] == Sep || q[k] == '_'))
    ensures EncodePath(p) == EncodePath(q)
  {
    var ep, eq := EncodePath(p), EncodePath(q);
    forall k | 0 <= k < |p| ensures ep[k] == eq[k] {
    }
  }

  lemma EncodeNotInjective()
    ensures "/a_b" != "/a/b" && EncodePath("/a_b") == EncodePath("/a/b")
  {
    assert "/a_b"[2] != "/a/b"[2];
    EncodeConflates("/a_b", "/a/b");
  }

  /** `Path(a) / b` for a relative `b`: one separator between the parts. */
  function JoinPath(a: string, b: string): string {
    if |a| > 0 && a[|a| - 1] == Sep then a + b else a + [Sep] + b
  }

  /** `get_claude_storage_path`: the home directory and the repository root
      are parameters (`Path.home()` and `git rev-parse --show-toplevel`). */
  function StoragePath(home: string, repoRoot: string): (r: string)
    ensures |home| > 0 && home[|home| - 1] != Sep ==>
      r == home + "/.claude/projects/" + EncodePath(repoRoot)
  {
    JoinPath(JoinPath(JoinPath(home, ".claude"), "projects"), EncodePath(repoRoot))
  }

  lemma EncodeExample()
    ensures EncodePath("/Users/test/my-app") == "-Users-test-my-app"
  {
    var e := EncodePath("/Users/test/my-app");
    assert |e| == |"-Users-test-my-app"|;
    forall k | 0 <= k < |e| ensures e[k] == "-Users-test-my-app"[k] {
    }
  }

  lemma StoragePathExample()
    ensures StoragePath("/home/test", "/Users/test/my-app")
      == "/home/test/.claude/projects/-Users-test-my-app"
  {
    EncodeExample();
    assert JoinPath("/home/test", ".claude") == "/home/test/.claude";
    assert JoinPath("/home/test/.claude", "projects") == "/home/test/.claude/projects";
    assert JoinPath("/home/test/.claude/projects", "-Users-test-my-app") == "/home/test/.claude/projects/-Users-test-my-app";
  }
}
