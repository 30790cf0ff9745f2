/** The session store as a value, and one function per git command the core
    runs on it (cc_context/core/git_ops.py). Each function returns the state
    after the command and what the Python function returns. The class
    GitOps.SessionStore runs the same commands step by step on mutable
    fields and is proved equal to these functions.

    The store is abstract: commits are identified by their content (message,
    snapshot and parents), as git identifies them by that content's hash; the
    index is the set of tracked paths, with the working-tree content of those
    paths taken as staged; `failing` names the git commands that exit with a
    non-zero status in this environment (a held lock, an I/O error). */
module StoreModel {
  import opened Wrappers
  import opened Text

  type Path = string
  type Content = string
  type Tree = map<Path, Content>

  datatype Commit = Commit(message: string, tree: Tree, parents: seq<Commit>)

  /** One `git stash` entry: the branch and the commit it was taken on, and
      what it saved. */
  datatype StashEntry = StashEntry(branch: string, message: string, base: Commit, worktree: Tree, tracked: set<Path>)

  /** The git commands the core runs, as far as they can fail on their own. */
  datatype Command =
    | GitInit | GitAdd | GitCommit | GitStatus | GitLog | GitRevList | GitCheckout
    | GitClean | GitStashPush | GitStashList | GitStashPop | GitRemote | GitFetch
    | GitMerge | GitBundle

  datatype State = State(
    initialized: bool,           // the store's `.git` directory exists
    commits: seq<Commit>,        // the commits made or fetched, oldest first; `git stash` adds none
    branches: map<string, Commit>,
    head: string,                // the branch HEAD names; it may be unborn
    worktree: Tree,
    tracked: set<Path>,
    stash: seq<StashEntry>,      // newest first, as `git stash list` prints it
    remotes: map<string, string>,
    failing: set<Command>)

  /** The state after a command, and the value the Python function returns. */
  datatype Step<T> = Step(state: State, result: T)

  // ---------------------------------------------------------------------
  // Working tree and HEAD

  function Get(t: Tree, p: Path): Option<Content> {
    if p in t then Some(t[p]) else None
  }

  function HeadCommit(s: State): Option<Commit> {
    if s.head in s.branches then Some(s.branches[s.head]) else None
  }

  function HeadTree(s: State): Tree {
    match HeadCommit(s)
    case Some(c) => c.tree
    case None => map[]
  }

  /** What `git status --porcelain` reports: a change to a tracked file, a
      staged addition or removal, or an untracked file. */
  predicate HasChanges(s: State) {
    s.worktree != HeadTree(s) || s.tracked != HeadTree(s).Keys
  }

  /** The tracked part of the working tree: what `git clean -fd` keeps, and
      what a commit records (the model has no separate index). */
  function TrackedView(s: State): Tree {
    map p | p in s.worktree && p in s.tracked :: s.worktree[p]
  }

  /** Paths whose working-tree or index state differs from HEAD. */
  function LocalChanges(s: State): set<Path> {
    var h := HeadTree(s);
    set p | p in s.worktree.Keys + h.Keys + s.tracked
      && (Get(s.worktree, p) != Get(h, p) || (p in s.tracked) != (p in h))
  }

  /** `git checkout` to a snapshot succeeds when no local change touches a
      path the snapshot changes (an untracked file included). */
  predicate CanSwitch(s: State, target: Tree) {
    forall p :: p in LocalChanges(s) ==> Get(target, p) == Get(HeadTree(s), p)
  }

  /** The working tree after the switch: the target, with local changes carried over. */
  function SwitchedWorktree(s: State, target: Tree): Tree {
    var l := LocalChanges(s);
    map p | p in s.worktree.Keys + target.Keys && (if p in l then p in s.worktree else p in target)
      :: if p in l then s.worktree[p] else target[p]
  }

  function SwitchedTracked(s: State, target: Tree): set<Path> {
    var l := LocalChanges(s);
    set p | p in s.tracked + target.Keys && (if p in l then p in s.tracked else p in target)
  }

  /** HEAD becomes branch `name`, which now points at `c`. */
  function SwitchTo(s: State, name: string, c: Commit): State {
    s.(branches := s.branches[name := c], head := name,
       worktree := SwitchedWorktree(s, c.tree), tracked := SwitchedTracked(s, c.tree))
  }

  lemma CleanHasNoLocalChanges(s: State)
    requires !HasChanges(s)
    ensures LocalChanges(s) == {}
  {
    var h := HeadTree(s);
    forall p | p in s.worktree.Keys + h.Keys + s.tracked
      ensures Get(s.worktree, p) == Get(h, p) && (p in s.tracked) == (p in h)
    {
    }
  }

  /** From a clean working tree every switch succeeds and leaves exactly the
      target snapshot, all of it tracked. */
  lemma SwitchFromClean(s: State, target: Tree)
    requires !HasChanges(s)
    ensures CanSwitch(s, target)
    ensures SwitchedWorktree(s, target) == target
    ensures SwitchedTracked(s, target) == target.Keys
  {
    CleanHasNoLocalChanges(s);
  }

  /** After a switch from a clean working tree nothing is left to commit or stash. */
  lemma SwitchToFromClean(s: State, name: string, c: Commit)
    requires !HasChanges(s)
    ensures !HasChanges(SwitchTo(s, name, c))
    ensures SwitchTo(s, name, c).worktree == c.tree
  {
    SwitchFromClean(s, c.tree);
    assert HeadTree(SwitchTo(s, name, c)) == c.tree;
  }

  // ---------------------------------------------------------------------
  // Commits

  /** The tag `commit_sessions` writes and `find_commit_by_main_sha` looks for. */
  function ContextMessage(mainSha: string): string {
    "Context for main repo commit " + mainSha
  }

  /** `git commit -m message`, with `--allow-empty` when `allowEmpty`. The
      model keeps no index apart from the working tree: the working-tree
      content of every tracked path counts as staged, as if `git add -u` had
      run first, and that becomes a new commit on the current branch.
      Without `--allow-empty`, the commit is refused when this content equals
      HEAD's tree. */
  function GitCommitStep(s: State, message: string, allowEmpty: bool): Option<State> {
    var staged := TrackedView(s);
    if GitCommit in s.failing then None
    else if !allowEmpty && staged == HeadTree(s) then None
    else
      var c := Commit(message, staged, match HeadCommit(s) case Some(h) => [h] case None => []);
      Some(s.(commits := s.commits + [c], branches := s.branches[s.head := c], tracked := staged.Keys))
  }

  /** `has_uncommitted_changes`: a failing `git status` reads as "no changes". */
  predicate HasUncommittedChanges(s: State) {
    s.initialized && GitStatus !in s.failing && HasChanges(s)
  }

  /** `commit_sessions`. A failing `git status` is an error here. */
  function CommitSessions(s: State, mainSha: string): Step<bool> {
    if !s.initialized || GitStatus in s.failing then Step(s, false)
    else if !HasChanges(s) then Step(s, true)
    else match GitCommitStep(s, ContextMessage(mainSha), false)
      case None => Step(s, false)
      case Some(s') => Step(s', true)
  }

  /** The newest commit whose message contains `pat`, as
      `git log --all --grep <pat> -n 1` prints it. */
  function LastMatching(cs: seq<Commit>, pat: string): Option<Commit>
    decreases |cs|
  {
    if cs == [] then None
    else if Contains(cs[|cs| - 1].message, pat) then Some(cs[|cs| - 1])
    else LastMatching(cs[..|cs| - 1], pat)
  }

  /** None exactly when no message contains `pat`; otherwise a matching
      commit with no later match. */
  lemma {:induction false} LastMatchingSpec(cs: seq<Commit>, pat: string)
    ensures var r := LastMatching(cs, pat);
      && (r.None? <==> forall i :: 0 <= i < |cs| ==> !Contains(cs[i].message, pat))
      && (r.Some? ==>
            exists i :: 0 <= i < |cs| && cs[i] == r.value && Contains(cs[i].message, pat)
              && forall j :: i < j < |cs| ==> !Contains(cs[j].message, pat))
    decreases |cs|
  {
    if cs != [] && !Contains(cs[|cs| - 1].message, pat) {
      var init := cs[..|cs| - 1];
      LastMatchingSpec(init, pat);
      assert forall i :: 0 <= i < |init| ==> init[i] == cs[i];
    }
  }

  /** `find_commit_by_main_sha`, searching the store's history as its
      comment says ("across all branches"): the newest commit whose message
      contains `mainSha`. */
  function FindCommitByMainSha(s: State, mainSha: string): (r: Option<Commit>)
    ensures r.None? <==> !s.initialized || GitLog in s.failing
                         || forall i :: 0 <= i < |s.commits| ==> !Contains(s.commits[i].message, mainSha)
    ensures r.Some? ==> r.value in s.commits && Contains(r.value.message, mainSha)
  {
    if !s.initialized || GitLog in s.failing then None
    else
      LastMatchingSpec(s.commits, mainSha);
      LastMatching(s.commits, mainSha)
  }

  // ---------------------------------------------------------------------
  // The search as written: `git log --all` also walks `refs/stash`

  /** The first line of a commit message. */
  function Subject(message: string): string {
    Split(message, '\n')[0]
  }

  /** What an entry saved of the tracked files, and of the untracked ones. */
  function StagedOf(e: StashEntry): Tree {
    map p | p in e.worktree && p in e.tracked :: e.worktree[p]
  }

  function UntrackedOf(e: StashEntry): Tree {
    map p | p in e.worktree && p !in e.tracked :: e.worktree[p]
  }

  /** The commits `git stash push -u -m <message>` makes for an entry: the
      untracked files (when there are any), the index, and the entry itself,
      whose parents are the base and those two. `abbrev` is the abbreviated
      name git gives a commit. */
  function StashedOn(e: StashEntry, abbrev: Commit -> string): string {
    e.branch + ": " + abbrev(e.base) + " " + Subject(e.base.message)
  }

  function IndexCommit(e: StashEntry, abbrev: Commit -> string): Commit {
    Commit("index on " + StashedOn(e, abbrev), StagedOf(e), [e.base])
  }

  function UntrackedCommits(e: StashEntry, abbrev: Commit -> string): seq<Commit> {
    if UntrackedOf(e) == map[] then []
    else [Commit("untracked files on " + StashedOn(e, abbrev), UntrackedOf(e), [])]
  }

  function WipCommit(e: StashEntry, abbrev: Commit -> string): Commit {
    Commit("On " + e.branch + ": " + e.message, StagedOf(e), [e.base, IndexCommit(e, abbrev)] + UntrackedCommits(e, abbrev))
  }

  /** The entry's commits, the one `git log` lists first last. */
  function StashCommits(e: StashEntry, abbrev: Commit -> string): seq<Commit> {
    UntrackedCommits(e, abbrev) + [IndexCommit(e, abbrev), WipCommit(e, abbrev)]
  }

  /** `find_commit_by_main_sha` as written: `git log --all` walks
      `refs/stash` too, which names the newest entry's commits. They count
      as newer than every commit of the store, as they are when nothing was
      committed after that entry was made. */
  function FindCommitByMainShaAsWritten(s: State, mainSha: string, abbrev: Commit -> string): Option<Commit> {
    if !s.initialized || GitLog in s.failing then None
    else LastMatching(s.commits + (if s.stash == [] then [] else StashCommits(s.stash[0], abbrev)), mainSha)
  }

  /** Some commit of `tail` matching makes the newest match one of `tail`. */
  lemma {:induction false} LastMatchingInSuffix(cs: seq<Commit>, tail: seq<Commit>, pat: string, k: nat)
    requires k < |tail| && Contains(tail[k].message, pat)
    ensures LastMatching(cs + tail, pat) == LastMatching(tail, pat)
    ensures LastMatching(tail, pat).Some? && LastMatching(tail, pat).value in tail
    decreases |tail|
  {
    var n := |tail| - 1;
    assert (cs + tail)[|cs + tail| - 1] == tail[n];
    if !Contains(tail[n].message, pat) {
      assert (cs + tail)[..|cs + tail| - 1] == cs + tail[..n];
      LastMatchingInSuffix(cs, tail[..n], pat, k);
    }
  }

  /** A commit is never its own child. */
  lemma ChildDiffers(c: Commit, m: string, t: Tree, rest: seq<Commit>)
    ensures Commit(m, t, [c] + rest) != c
  {
    var d := Commit(m, t, [c] + rest);
    assert Reaches(d, c) by {
      assert d.parents[0] == c;
    }
    ReachesHeight(d, c);
  }

  /** A commit message of one line is its own subject. */
  lemma OneLineSubject(m: string)
    requires HasNo(m, '\n')
    ensures Subject(m) == m
  {
    IndexOfAbsent(m, '\n');
  }

  function TaggedY(): Commit {
    Commit(ContextMessage("Y"), map["a.jsonl" := "1"], [])
  }

  function StashedForY(): StashEntry {
    StashEntry("b", "sessions-for-" + "Y", TaggedY(), map["a.jsonl" := "2"], {"a.jsonl"})
  }

  /** A clean store on branch `b` at the commit tagged for `Y`, whose newest
      entry holds the sessions stashed when `Y` was left. */
  function ReturnStore(): State {
    State(true, [TaggedY()], map["b" := TaggedY()], "b", TaggedY().tree, TaggedY().tree.Keys,
          [StashedForY()], map[], {})
  }

  /** An entry made with the message `sessions-for-<sha>` has a commit
      whose message contains the sha. */
  lemma WipNamesSha(e: StashEntry, sha: string, abbrev: Commit -> string)
    requires e.message == "sessions-for-" + sha
    ensures Contains(WipCommit(e, abbrev).message, sha)
  {
    ContainsInfix("sessions-for-", sha, "");
    assert "sessions-for-" + sha + "" == e.message;
    ContainsAfter("On " + e.branch + ": ", e.message, sha);
  }

  /** The search as written finds that entry's own commit. */
  lemma ReturnStoreFindsStash(abbrev: Commit -> string)
    ensures FindCommitByMainShaAsWritten(ReturnStore(), "Y", abbrev) == Some(WipCommit(StashedForY(), abbrev))
  {
    var e := StashedForY();
    assert UntrackedOf(e) == map[];
    var cs := StashCommits(e, abbrev);
    assert cs == [IndexCommit(e, abbrev), WipCommit(e, abbrev)];
    WipNamesSha(e, "Y", abbrev);
    LastMatchingInSuffix(ReturnStore().commits, cs, "Y", 1);
  }

  /** That store is clean, so preserving stashes nothing, and the intended
      search finds the tagged commit. */
  lemma ReturnStoreClean()
    ensures !HasChanges(ReturnStore())
    ensures StashSessions(ReturnStore(), "sessions-for-Z") == Step(ReturnStore(), true)
    ensures FindCommitByMainSha(ReturnStore(), "Y") == Some(TaggedY())
  {
    ContainsInfix("Context for main repo commit ", "Y", "");
    assert ContextMessage("Y") + "" == TaggedY().message;
  }

  /** The stash commit holds the stashed file and is no commit of the store. */
  lemma ReturnStashCommit(abbrev: Commit -> string)
    ensures WipCommit(StashedForY(), abbrev).tree == map["a.jsonl" := "2"]
    ensures WipCommit(StashedForY(), abbrev) !in ReturnStore().commits
  {
    var w := WipCommit(StashedForY(), abbrev);
    assert StagedOf(StashedForY()) == map["a.jsonl" := "2"];
    assert |w.parents| != |TaggedY().parents|;
  }

  /** Input 1 (as written): returning to `Y` from that store, the preserve
      step stashes nothing, and the search as written gives the stash
      commit, not the tagged one, so `checkout -B` forces the branch onto a
      stash commit holding the stashed files. The intended search gives the
      tagged commit. */
  lemma ReturnLandsOnStashCommit(abbrev: Commit -> string)
    ensures var s := ReturnStore();
      var w := WipCommit(StashedForY(), abbrev);
      && StashSessions(s, "sessions-for-Z") == Step(s, true)
      && FindCommitByMainSha(s, "Y") == Some(TaggedY())
      && FindCommitByMainShaAsWritten(s, "Y", abbrev) == Some(w)
      && w !in s.commits && w.tree == map["a.jsonl" := "2"]
      && CreateOrCheckoutBranch(s, "b", Some(w)).result
      && CreateOrCheckoutBranch(s, "b", Some(w)).state.branches["b"] == w
  {
    var w := WipCommit(StashedForY(), abbrev);
    ReturnStoreClean();
    ReturnStashCommit(abbrev);
    ReturnStoreFindsStash(abbrev);
    SwitchFromClean(ReturnStore(), w.tree);
    ForceResetBranch(ReturnStore(), "b", w);
  }

  /** Input 2 (as written): once the newest entry was stashed on a commit
      tagged for `mainSha`, as a dirty second run stashes on the commit the
      first run synced to, the search as written for that sha returns one
      of the entry's own commits, never that tagged commit: its index
      commit quotes the tag in its message. */
  lemma StashOnTaggedCommitShadows(s: State, mainSha: string, abbrev: Commit -> string)
    requires s.initialized && GitLog !in s.failing && |s.stash| > 0
    requires HasNo(mainSha, '\n') && s.stash[0].base.message == ContextMessage(mainSha)
    ensures FindCommitByMainShaAsWritten(s, mainSha, abbrev).Some?
    ensures FindCommitByMainShaAsWritten(s, mainSha, abbrev).value in StashCommits(s.stash[0], abbrev)
    ensures FindCommitByMainShaAsWritten(s, mainSha, abbrev).value != s.stash[0].base
  {
    var e := s.stash[0];
    var cs := StashCommits(e, abbrev);
    var prefix := "Context for main repo commit ";
    assert HasNo(prefix, '\n');
    assert HasNo(ContextMessage(mainSha), '\n') by {
      forall i | 0 <= i < |ContextMessage(mainSha)| ensures ContextMessage(mainSha)[i] != '\n' {
        if i >= |prefix| {
          assert ContextMessage(mainSha)[i] == mainSha[i - |prefix|];
        }
      }
    }
    OneLineSubject(e.base.message);
    var index := IndexCommit(e, abbrev);
    var k := |cs| - 2;
    assert cs[k] == index;
    ContainsInfix(prefix, mainSha, "");
    assert prefix + mainSha + "" == Subject(e.base.message);
    var head := "index on " + e.branch + ": " + abbrev(e.base) + " ";
    assert index.message == head + Subject(e.base.message);
    ContainsAfter(head, Subject(e.base.message), mainSha);
    LastMatchingInSuffix(s.commits, cs, mainSha, k);
    ChildDiffers(e.base, index.message, StagedOf(e), []);
    ChildDiffers(e.base, WipCommit(e, abbrev).message, StagedOf(e), [index] + UntrackedCommits(e, abbrev));
    assert [e.base] + ([index] + UntrackedCommits(e, abbrev)) == [e.base, index] + UntrackedCommits(e, abbrev);
    if |cs| == 3 {
      assert cs[0].message[0] == 'u' && e.base.message[0] == 'C';
    }
  }

  /** The root reached through first parents. */
  function FirstRoot(c: Commit): (r: Commit)
    ensures r.parents == []
    decreases c
  {
    if c.parents == [] then c else FirstRoot(c.parents[0])
  }

  /** `get_initial_commit`: `git rev-list --max-parents=0 HEAD`, which fails
      while HEAD is unborn. */
  function GetInitialCommit(s: State): (r: Option<Commit>)
    ensures r.Some? <==> s.initialized && GitRevList !in s.failing && HeadCommit(s).Some?
    ensures r.Some? ==> r.value.parents == [] && Reaches(HeadCommit(s).value, r.value)
  {
    if !s.initialized || GitRevList in s.failing then None
    else match HeadCommit(s)
      case None => None
      case Some(h) =>
        FirstRootReached(h);
        Some(FirstRoot(h))
  }

  lemma {:induction false} FirstRootReached(c: Commit)
    ensures Reaches(c, FirstRoot(c))
    decreases c
  {
    if c.parents != [] {
      FirstRootReached(c.parents[0]);
      assert Reaches(c.parents[0], FirstRoot(c));
    }
  }

  /** A successful `commit_sessions` on a changed store records a commit
      that `find_commit_by_main_sha` then returns for the same sha: the
      newest match, although older commits may match too. */
  lemma CommitThenFind(s: State, mainSha: string)
    requires HasUncommittedChanges(s) && GitLog !in s.failing
    requires CommitSessions(s, mainSha).result
    ensures var s' := CommitSessions(s, mainSha).state;
      && |s'.commits| == |s.commits| + 1
      && s'.commits[|s.commits|].message == ContextMessage(mainSha)
      && FindCommitByMainSha(s', mainSha) == Some(s'.commits[|s.commits|])
      && HeadCommit(s') == Some(s'.commits[|s.commits|])
  {
    var s' := CommitSessions(s, mainSha).state;
    var c := s'.commits[|s.commits|];
    ContainsInfix("Context for main repo commit ", mainSha, "");
    assert ContextMessage(mainSha) + "" == ContextMessage(mainSha);
    assert s'.commits[..|s'.commits| - 1] == s.commits;
  }

  /** On a clean store `commit_sessions` succeeds and changes nothing. */
  lemma CommitCleanIsNoOp(s: State, mainSha: string)
    requires s.initialized && GitStatus !in s.failing && !HasChanges(s)
    ensures CommitSessions(s, mainSha) == Step(s, true)
  {
  }

  /** With only untracked files there is nothing staged: `git commit` refuses
      and `commit_sessions` reports failure. */
  lemma CommitUntrackedOnlyFails(s: State, mainSha: string)
    requires s.initialized && GitStatus !in s.failing && GitCommit !in s.failing
    requires s.tracked == HeadTree(s).Keys
    requires forall p :: p in s.tracked ==> p in s.worktree && s.worktree[p] == HeadTree(s)[p]
    requires s.worktree.Keys != s.tracked
    ensures CommitSessions(s, mainSha) == Step(s, false)
  {
    assert TrackedView(s) == HeadTree(s);
    assert s.worktree != HeadTree(s);
  }

  // ---------------------------------------------------------------------
  // Stash

  /** `stash_sessions`: `git stash push -u -m message` only when there is
      something to stash. git cannot stash while HEAD is unborn. */
  function StashSessions(s: State, message: string): Step<bool> {
    if !s.initialized then Step(s, false)
    else if !HasUncommittedChanges(s) then Step(s, true)
    else if GitStashPush in s.failing || HeadCommit(s).None? then Step(s, false)
    else Step(s.(stash := [StashEntry(s.head, message, HeadCommit(s).value, s.worktree, s.tracked)] + s.stash,
                 worktree := HeadTree(s), tracked := HeadTree(s).Keys), true)
  }

  function StashRef(i: nat): string {
    "stash@{" + NatToString(i) + "}"
  }

  /** A line of `git stash list` for an entry made with `stash push -m`. */
  function StashLine(i: nat, e: StashEntry): string {
    StashRef(i) + ": On " + e.branch + ": " + e.message
  }

  /** `git stash list` after `.strip().split('\n')`: an empty list prints
      nothing, which splits into one empty line. */
  function StashListLines(s: State): seq<string> {
    if |s.stash| == 0 then [""]
    else seq(|s.stash|, i requires 0 <= i < |s.stash| => StashLine(i, s.stash[i]))
  }

  /** `line.split(':')[0].strip()`. */
  function RefOfLine(line: string): string {
    Strip(Split(line, ':')[0])
  }

  /** The reference on the first line containing `pattern`. */
  function FirstLineWith(lines: seq<string>, pattern: string): Option<string> {
    if lines == [] then None
    else if Contains(lines[0], pattern) then Some(RefOfLine(lines[0]))
    else FirstLineWith(lines[1..], pattern)
  }

  /** `find_stash_by_message`. */
  function FindStashByMessage(s: State, pattern: string): Option<string> {
    if !s.initialized || GitStashList in s.failing then None
    else FirstLineWith(StashListLines(s), pattern)
  }

  /** The entry a `stash@{n}` reference names. */
  function ParseStashRef(ref: string): Option<nat> {
    if |ref| >= 8 && ref[..7] == "stash@{" && ref[|ref| - 1] == '}' then ParseNat(ref[7..|ref| - 1])
    else None
  }

  /** A path as `git status` sees it: its content on disk, and whether the
      index has it. */
  datatype PathState = PathState(content: Option<Content>, indexed: bool)

  function At(t: Tree, tracked: set<Path>, p: Path): PathState {
    PathState(Get(t, p), p in tracked)
  }

  /** The paths an entry changed relative to the commit it was taken on. */
  function StashChanges(e: StashEntry): set<Path> {
    set p | p in e.worktree.Keys + e.tracked + e.base.tree.Keys
      && At(e.worktree, e.tracked, p) != At(e.base.tree, e.base.tree.Keys, p)
  }

  /** `git stash pop` applies an entry onto the current HEAD and working
      tree: it succeeds when every path the entry changed is now as on the
      entry's base, or already as in the entry. Any other state of such a
      path is a local change the pop would overwrite, or a change HEAD made
      since the base that collides with the entry's. An untracked file the
      entry holds is restored only where no file is: git refuses to overwrite
      an existing one, even with the same content. */
  predicate CanPop(s: State, e: StashEntry) {
    forall p :: p in StashChanges(e) ==>
      At(s.worktree, s.tracked, p) == At(e.base.tree, e.base.tree.Keys, p)
      || (At(s.worktree, s.tracked, p) == At(e.worktree, e.tracked, p) && (p in e.tracked || p !in e.worktree))
  }

  /** The working tree after the pop: the entry's changes over the current one. */
  function PoppedWorktree(s: State, e: StashEntry): Tree {
    var c := StashChanges(e);
    map p | p in s.worktree.Keys + e.worktree.Keys && (if p in c then p in e.worktree else p in s.worktree)
      :: if p in c then e.worktree[p] else s.worktree[p]
  }

  function PoppedTracked(s: State, e: StashEntry): set<Path> {
    var c := StashChanges(e);
    set p | p in s.tracked + e.tracked && (if p in c then p in e.tracked else p in s.tracked)
  }

  /** `pop_stash`: `git stash pop <ref>` applies the entry and drops it. */
  function PopStash(s: State, ref: string): Step<bool> {
    if !s.initialized || GitStashPop in s.failing then Step(s, false)
    else match ParseStashRef(ref)
      case None => Step(s, false)
      case Some(i) =>
        if i >= |s.stash| || !CanPop(s, s.stash[i]) then Step(s, false)
        else Step(s.(worktree := PoppedWorktree(s, s.stash[i]), tracked := PoppedTracked(s, s.stash[i]),
                     stash := s.stash[..i] + s.stash[i + 1..]), true)
  }

  /** After a pop every path the entry changed is as in the entry, and every
      other path is as it was. */
  lemma PopAppliesChanges(s: State, e: StashEntry, p: Path)
    ensures p in StashChanges(e) ==>
      At(PoppedWorktree(s, e), PoppedTracked(s, e), p) == At(e.worktree, e.tracked, p)
    ensures p !in StashChanges(e) ==>
      At(PoppedWorktree(s, e), PoppedTracked(s, e), p) == At(s.worktree, s.tracked, p)
  {
  }

  /** On the commit it was taken on, with nothing changed since, a pop gives
      back exactly what the entry saved. */
  lemma PopOntoBase(s: State, e: StashEntry)
    requires HeadCommit(s) == Some(e.base) && !HasChanges(s)
    ensures CanPop(s, e)
    ensures PoppedWorktree(s, e) == e.worktree && PoppedTracked(s, e) == e.tracked
  {
    assert s.worktree == e.base.tree && s.tracked == e.base.tree.Keys;
    var w := PoppedWorktree(s, e);
    forall p | p in e.worktree.Keys + w.Keys
      ensures p in w && p in e.worktree && w[p] == e.worktree[p]
    {
      PopAppliesChanges(s, e, p);
    }
    forall p | p in e.tracked + PoppedTracked(s, e)
      ensures p in PoppedTracked(s, e) && p in e.tracked
    {
      PopAppliesChanges(s, e, p);
    }
  }

  /** Popping entry `i` on the commit it was taken on, with nothing changed
      since, gives back what it saved and drops it. */
  lemma PopRefOntoBase(s: State, i: nat)
    requires s.initialized && GitStashPop !in s.failing && i < |s.stash|
    requires HeadCommit(s) == Some(s.stash[i].base) && !HasChanges(s)
    ensures PopStash(s, StashRef(i))
      == Step(s.(worktree := s.stash[i].worktree, tracked := s.stash[i].tracked,
                 stash := s.stash[..i] + s.stash[i + 1..]), true)
  {
    ParseStashRefOf(i);
    PopOntoBase(s, s.stash[i]);
  }

  lemma StashRefShape(i: nat)
    ensures HasNo(StashRef(i), ':') && HasNoSpace(StashRef(i))
    ensures |StashRef(i)| >= 8 && StashRef(i)[..7] == "stash@{" && StashRef(i)[|StashRef(i)| - 1] == '}'
    ensures StashRef(i)[7..|StashRef(i)| - 1] == NatToString(i)
  {
    var d := NatToString(i);
    var r := StashRef(i);
    assert r == "stash@{" + d + "}";
    forall k | 0 <= k < |r| ensures r[k] != ':' && !IsSpace(r[k]) {
      if 7 <= k < |r| - 1 {
        assert r[k] == d[k - 7];
      }
    }
  }

  lemma ParseStashRefOf(i: nat)
    ensures ParseStashRef(StashRef(i)) == Some(i)
  {
    StashRefShape(i);
    ParseNatToString(i);
  }

  /** The reference read back from an entry's line is the entry's own. */
  lemma RefOfStashLine(i: nat, e: StashEntry)
    ensures RefOfLine(StashLine(i, e)) == StashRef(i)
    ensures ParseStashRef(RefOfLine(StashLine(i, e))) == Some(i)
  {
    var r := StashRef(i);
    var rest := " On " + e.branch + ": " + e.message;
    assert StashLine(i, e) == r + [':'] + rest;
    StashRefShape(i);
    RefOfLineOf(r, rest);
    ParseStashRefOf(i);
  }

  lemma RefOfLineOf(r: string, rest: string)
    requires HasNo(r, ':') && HasNoSpace(r)
    ensures RefOfLine(r + [':'] + rest) == r
  {
    SplitFirst(r, ':', rest);
    StripUnchanged(r);
  }

  /** A stash reference names at most one entry. */
  lemma {:induction false} StashRefInjective(i: nat, j: nat)
    requires StashRef(i) == StashRef(j)
    ensures i == j
  {
    StashRefShape(i);
    StashRefShape(j);
    ParseNatToString(i);
    ParseNatToString(j);
  }

  /** The scan finds nothing exactly when no line contains the pattern. */
  lemma {:induction false} FirstLineWithNone(lines: seq<string>, pattern: string)
    ensures FirstLineWith(lines, pattern).None? <==> forall i :: 0 <= i < |lines| ==> !Contains(lines[i], pattern)
    decreases |lines|
  {
    if lines != [] && !Contains(lines[0], pattern) {
      FirstLineWithNone(lines[1..], pattern);
      assert forall i :: 0 < i < |lines| ==> lines[i] == lines[1..][i - 1];
    }
  }

  /** A found reference is that of the first line containing the pattern. */
  lemma {:induction false} FirstLineWithFirst(lines: seq<string>, pattern: string)
    requires FirstLineWith(lines, pattern).Some?
    ensures exists i ::
      && 0 <= i < |lines| && Contains(lines[i], pattern)
      && FirstLineWith(lines, pattern) == Some(RefOfLine(lines[i]))
      && forall j :: 0 <= j < i ==> !Contains(lines[j], pattern)
    decreases |lines|
  {
    if !Contains(lines[0], pattern) {
      var tail := lines[1..];
      FirstLineWithFirst(tail, pattern);
      var i :| 0 <= i < |tail| && Contains(tail[i], pattern)
        && FirstLineWith(tail, pattern) == Some(RefOfLine(tail[i]))
        && forall j :: 0 <= j < i ==> !Contains(tail[j], pattern);
      assert lines[i + 1] == tail[i];
      forall j | 0 <= j < i + 1 ensures !Contains(lines[j], pattern) {
        if j > 0 {
          assert lines[j] == tail[j - 1];
        }
      }
    }
  }

  /** `find_stash_by_message` names the first entry (newest first) whose
      line contains the pattern. On an empty list git prints nothing, which
      matches only the empty pattern and yields the falsy reference "". */
  lemma FindStashFirstMatch(s: State, pattern: string)
    requires s.initialized && GitStashList !in s.failing
    ensures |s.stash| == 0 ==> FindStashByMessage(s, pattern) == (if pattern == "" then Some("") else None)
    ensures |s.stash| > 0 ==>
      (FindStashByMessage(s, pattern).None? <==>
        forall i :: 0 <= i < |s.stash| ==> !Contains(StashLine(i, s.stash[i]), pattern))
    ensures |s.stash| > 0 && FindStashByMessage(s, pattern).Some? ==>
      exists i :: 0 <= i < |s.stash| && FindStashByMessage(s, pattern) == Some(StashRef(i))
        && ParseStashRef(StashRef(i)) == Some(i)
        && Contains(StashLine(i, s.stash[i]), pattern)
        && forall j :: 0 <= j < i ==> !Contains(StashLine(j, s.stash[j]), pattern)
  {
    if |s.stash| == 0 {
      FindStashNoEntries(s, pattern);
    } else {
      var lines := StashListLines(s);
      assert |lines| == |s.stash| && forall k :: 0 <= k < |lines| ==> lines[k] == StashLine(k, s.stash[k]);
      FirstStashLineWith(s.stash, lines, pattern);
    }
  }

  /** The search over the lines of a non-empty stash list, one line per entry. */
  lemma FirstStashLineWith(stash: seq<StashEntry>, lines: seq<string>, pattern: string)
    requires |lines| == |stash| > 0
    requires forall k :: 0 <= k < |lines| ==> lines[k] == StashLine(k, stash[k])
    ensures FirstLineWith(lines, pattern).None? <==>
      forall i :: 0 <= i < |stash| ==> !Contains(StashLine(i, stash[i]), pattern)
    ensures FirstLineWith(lines, pattern).Some? ==>
      exists i :: 0 <= i < |stash| && FirstLineWith(lines, pattern) == Some(StashRef(i))
        && ParseStashRef(StashRef(i)) == Some(i)
        && Contains(StashLine(i, stash[i]), pattern)
        && forall j :: 0 <= j < i ==> !Contains(StashLine(j, stash[j]), pattern)
  {
    FirstLineWithNone(lines, pattern);
    if FirstLineWith(lines, pattern).Some? {
      FirstLineWithFirst(lines, pattern);
      var i :| 0 <= i < |lines| && Contains(lines[i], pattern)
        && FirstLineWith(lines, pattern) == Some(RefOfLine(lines[i]))
        && forall j :: 0 <= j < i ==> !Contains(lines[j], pattern);
      RefOfStashLine(i, stash[i]);
    }
  }

  /** With no entries the one empty line matches only the empty pattern. */
  lemma FindStashNoEntries(s: State, pattern: string)
    requires s.initialized && GitStashList !in s.failing && |s.stash| == 0
    ensures FindStashByMessage(s, pattern) == (if pattern == "" then Some("") else None)
  {
    var lines := StashListLines(s);
    assert lines == [""];
    assert Contains("", pattern) <==> pattern == "";
    if pattern == "" {
      assert Split("", ':') == [""];
      assert Strip("") == "";
      assert RefOfLine("") == "";
      assert FirstLineWith(lines, pattern) == Some("");
    } else {
      assert lines[1..] == [];
      assert FirstLineWith(lines, pattern) == FirstLineWith([], pattern);
    }
  }

  /** The newest entry is found by its own message. */
  lemma FindNewestStash(s: State, message: string)
    requires s.initialized && GitStashList !in s.failing
    requires |s.stash| > 0 && s.stash[0].message == message
    ensures FindStashByMessage(s, message) == Some(StashRef(0))
  {
    var e := s.stash[0];
    var lines := StashListLines(s);
    assert lines[0] == StashLine(0, e);
    ContainsInfix(StashRef(0) + ": On " + e.branch + ": ", message, "");
    assert StashLine(0, e) + "" == StashLine(0, e);
    RefOfStashLine(0, e);
  }

  /** Stashing dirty changes and later restoring the entry found by the same
      message gives back the working tree, the index and the stash list. */
  lemma StashRoundTrip(s: State, message: string)
    requires HasUncommittedChanges(s) && HeadCommit(s).Some?
    requires GitStashPush !in s.failing && GitStashList !in s.failing && GitStashPop !in s.failing
    ensures var s1 := StashSessions(s, message);
      && s1.result && !HasChanges(s1.state) && |s1.state.stash| == |s.stash| + 1
      && FindStashByMessage(s1.state, message) == Some(StashRef(0))
      && var s2 := PopStash(s1.state, StashRef(0));
      && s2.result
      && s2.state.worktree == s.worktree && s2.state.tracked == s.tracked
      && s2.state.stash == s.stash
  {
    var s1 := StashSessions(s, message).state;
    assert HeadTree(s1) == HeadTree(s);
    FindNewestStash(s1, message);
    ParseStashRefOf(0);
    PopOntoBase(s1, s1.stash[0]);
    assert s1.stash[1..] == s.stash;
  }

  /** Running `stash_sessions` twice leaves the store as running it once. */
  lemma StashTwiceIsOnce(s: State, m1: string, m2: string)
    ensures StashSessions(StashSessions(s, m1).state, m2).state == StashSessions(s, m1).state
  {
    var s1 := StashSessions(s, m1).state;
    if s1 != s {
      assert HeadTree(s1) == HeadTree(s);
      assert !HasChanges(s1);
    }
  }

  // ---------------------------------------------------------------------
  // Branches and cleaning

  /** `clean_untracked_files`: `git clean -fd`. */
  function CleanUntrackedFiles(s: State): Step<bool> {
    if !s.initialized || GitClean in s.failing then Step(s, false)
    else Step(s.(worktree := TrackedView(s)), true)
  }

  /** `is_detached_head`. */
  predicate IsDetachedHead(branchName: Option<string>) {
    branchName == Some("HEAD")
  }

  /** `create_or_checkout_branch`. With a commit it is `git checkout -B`
      (create or overwrite the branch there); without one, `git checkout
      <name>` and, when that fails, `git checkout -b <name>` at HEAD. */
  function CreateOrCheckoutBranch(s: State, name: string, at: Option<Commit>): Step<bool> {
    if !s.initialized then Step(s, false)
    else match at
      case Some(c) =>
        if GitCheckout in s.failing || !CanSwitch(s, c.tree) then Step(s, false)
        else Step(SwitchTo(s, name, c), true)
      case None =>
        if GitCheckout !in s.failing && name in s.branches && CanSwitch(s, s.branches[name].tree) then
          Step(SwitchTo(s, name, s.branches[name]), true)
        else if GitCheckout in s.failing || name in s.branches then Step(s, false)
        else match HeadCommit(s)
          case Some(h) => Step(s.(branches := s.branches[name := h], head := name), true)
          case None => Step(s.(head := name), true)
  }

  /** With a commit, success means the branch is checked out at that commit
      whatever it pointed to before, every other branch untouched. */
  lemma ForceResetBranch(s: State, name: string, c: Commit)
    ensures var r := CreateOrCheckoutBranch(s, name, Some(c));
      && (r.result <==> s.initialized && GitCheckout !in s.failing && CanSwitch(s, c.tree))
      && (r.result ==> r.state.branches == s.branches[name := c] && r.state.head == name
                       && HeadCommit(r.state) == Some(c))
      && (!r.result ==> r.state == s)
  {
  }

  /** Without a commit an existing branch is checked out unchanged and a new
      one is created at HEAD. */
  lemma CheckoutOrCreate(s: State, name: string)
    requires s.initialized && GitCheckout !in s.failing && !HasChanges(s)
    ensures var r := CreateOrCheckoutBranch(s, name, None);
      && r.result && r.state.head == name
      && (name in s.branches ==> r.state.branches == s.branches)
      && (name !in s.branches ==> HeadCommit(s).Some? ==> r.state.branches == s.branches[name := HeadCommit(s).value])
      && (name !in s.branches ==> HeadCommit(s).None? ==> r.state.branches == s.branches)
  {
    if name in s.branches {
      SwitchFromClean(s, s.branches[name].tree);
    }
  }

  /** Every store command fails without effect on a store that is not initialised. */
  lemma UninitializedRefusesAll(s: State, sha: string, msg: string, name: string, at: Option<Commit>)
    requires !s.initialized
    ensures CommitSessions(s, sha) == Step(s, false)
    ensures StashSessions(s, msg) == Step(s, false)
    ensures PopStash(s, msg) == Step(s, false)
    ensures CleanUntrackedFiles(s) == Step(s, false)
    ensures CreateOrCheckoutBranch(s, name, at) == Step(s, false)
    ensures FindCommitByMainSha(s, sha).None? && GetInitialCommit(s).None?
    ensures FindStashByMessage(s, msg).None?
  {
  }

  // ---------------------------------------------------------------------
  // Initialisation

  predicate IsTopLevelSessionFile(p: Path) {
    EndsWith(p, ".jsonl") && HasNo(p, '/')
  }

  /** `claude_path.glob("*.jsonl")` finds something. */
  predicate HasSessionFiles(t: Tree) {
    exists p :: p in t && IsTopLevelSessionFile(p)
  }

  /** The paths `git add *.jsonl` stages: git's pathspec matches at any depth. */
  function JsonlPaths(t: Tree): set<Path> {
    set p | p in t && EndsWith(p, ".jsonl")
  }

  function InitialSessionsMessage(mainHead: Option<string>): string {
    match mainHead
    case Some(sha) => "Initial Claude sessions\n" + ContextMessage(sha)
    case None => "Initial Claude sessions"
  }

  /** A new repository over the files already in the directory. */
  function FreshRepository(s: State, defaultBranch: string): State {
    s.(initialized := true, commits := [], branches := map[], head := defaultBranch,
       tracked := {}, stash := [], remotes := map[])
  }

  /** `init_claude_repo`. `mainHead` is the stripped output of
      `git rev-parse HEAD` in the main repository, `None` when it fails;
      `defaultBranch` is the branch a new repository starts on.
      `git init` over an existing repository changes nothing. */
  function InitClaudeRepo(s: State, skipInitialCommit: bool, mainHead: Option<string>,
                          defaultBranch: string): Step<bool>
  {
    if GitInit in s.failing then Step(s, false)
    else
      var s1 := if s.initialized then s else FreshRepository(s, defaultBranch);
      if skipInitialCommit then Step(s1, true)
      else match GitCommitStep(s1, "Empty initial state", true)
        case None => Step(s1, false)
        case Some(s2) =>
          if !HasSessionFiles(s2.worktree) then Step(s2, true)
          else if GitAdd in s2.failing then Step(s2, false)
          else
            var s3 := s2.(tracked := s2.tracked + JsonlPaths(s2.worktree));
            match GitCommitStep(s3, InitialSessionsMessage(mainHead), false)
            case None => Step(s3, false)
            case Some(s4) => Step(s4, true)
  }

  /** Bootstrap initialisation leaves a store with no commit at all, so there
      is no initial commit to fall back on. */
  lemma InitWithoutInitialCommit(s: State, mainHead: Option<string>, defaultBranch: string)
    requires !s.initialized && GitInit !in s.failing
    ensures var r := InitClaudeRepo(s, true, mainHead, defaultBranch);
      && r.result && r.state.initialized && r.state.commits == [] && r.state.branches == map[]
      && r.state.worktree == s.worktree
      && GetInitialCommit(r.state).None?
  {
  }

  /** A full initialisation of a fresh directory starts the history with the
      empty commit "Empty initial state", which is then the initial commit. */
  lemma InitCreatesEmptyRoot(s: State, mainHead: Option<string>, defaultBranch: string)
    requires !s.initialized && GitInit !in s.failing && GitCommit !in s.failing
    requires GitRevList !in s.failing
    ensures var r := InitClaudeRepo(s, false, mainHead, defaultBranch);
      && |r.state.commits| >= 1
      && r.state.commits[0] == Commit("Empty initial state", map[], [])
      && (r.result ==> GetInitialCommit(r.state) == Some(r.state.commits[0]))
  {
    var s1 := FreshRepository(s, defaultBranch);
    assert TrackedView(s1) == map[];
    var s2 := GitCommitStep(s1, "Empty initial state", true).value;
    assert s2.commits == [Commit("Empty initial state", map[], [])];
    if HasSessionFiles(s2.worktree) && GitAdd !in s2.failing {
      var s3 := s2.(tracked := s2.tracked + JsonlPaths(s2.worktree));
      match GitCommitStep(s3, InitialSessionsMessage(mainHead), false)
      case None =>
      case Some(s4) =>
        assert s4.commits[0] == s2.commits[0];
        assert HeadCommit(s4).value.parents == [s2.commits[0]];
        assert FirstRoot(HeadCommit(s4).value) == FirstRoot(s2.commits[0]) == s2.commits[0];
    }
  }

  // ---------------------------------------------------------------------
  // Bundles, fetch and merge

  /** What `git bundle create <file> --all` writes: every commit and branch. */
  datatype Bundle = Bundle(commits: seq<Commit>, branches: map<string, Commit>)

  /** git refuses to write a bundle without any ref. */
  function CreateBundle(s: State): Option<Bundle> {
    if GitBundle in s.failing || s.branches == map[] then None
    else Some(Bundle(s.commits, s.branches))
  }

  /** `local` followed by the commits of `incoming` it does not have yet. */
  function Absorb(local: seq<Commit>, incoming: seq<Commit>): (r: seq<Commit>)
    ensures |local| <= |r| && r[..|local|] == local
    ensures forall c :: c in incoming ==> c in r
    ensures forall c :: c in r ==> c in local || c in incoming
    decreases |incoming|
  {
    if incoming == [] then local
    else
      var l := if incoming[0] in local then local else local + [incoming[0]];
      var r := Absorb(l, incoming[1..]);
      assert incoming[0] in l;
      assert forall c :: c in incoming ==> c == incoming[0] || c in incoming[1..];
      r
  }

  /** `git fetch <bundle> branch:branch`: the bundle's branch becomes the
      local one. git refuses to update the branch HEAD names, born or
      unborn (see `--update-head-ok` in git-fetch(1)). */
  function FetchBundle(s: State, b: Bundle, branch: string): Option<State> {
    FetchInto(s, b, branch, branch)
  }

  /** `git fetch <bundle> src:dst`: the bundle's `src` becomes the local ref
      `dst`, which must not be the branch HEAD names. */
  function FetchInto(s: State, b: Bundle, src: string, dst: string): Option<State> {
    if GitFetch in s.failing || src !in b.branches || dst == s.head then None
    else Some(s.(commits := Absorb(s.commits, b.commits), branches := s.branches[dst := b.branches[src]]))
  }

  function MergeMessage(branch: string): string {
    "Merge branch '" + branch + "'"
  }

  /** `a` is `c` or one of its ancestors. */
  predicate Reaches(c: Commit, a: Commit)
    decreases c
  {
    c == a || exists i :: 0 <= i < |c.parents| && Reaches(c.parents[i], a)
  }

  function MaxOf(xs: seq<nat>): (m: nat)
    ensures forall i :: 0 <= i < |xs| ==> xs[i] <= m
  {
    if xs == [] then 0
    else
      var t := MaxOf(xs[1..]);
      assert forall i :: 1 <= i < |xs| ==> xs[i] == xs[1..][i - 1];
      if xs[0] > t then xs[0] else t
  }

  /** The length of the longest chain of parents below `c`. */
  function Height(c: Commit): nat
    decreases c
  {
    if c.parents == [] then 0
    else 1 + MaxOf(seq(|c.parents|, i requires 0 <= i < |c.parents| => Height(c.parents[i])))
  }

  /** An ancestor sits lower than its descendants. */
  lemma {:induction false} ReachesHeight(c: Commit, a: Commit)
    requires Reaches(c, a)
    ensures Height(a) <= Height(c)
    ensures c != a ==> Height(a) < Height(c)
    decreases c
  {
    if c != a {
      var i :| 0 <= i < |c.parents| && Reaches(c.parents[i], a);
      ReachesHeight(c.parents[i], a);
      var hs := seq(|c.parents|, k requires 0 <= k < |c.parents| => Height(c.parents[k]));
      assert hs[i] == Height(c.parents[i]);
    }
  }

  /** Two commits that reach each other are the same commit. */
  lemma ReachesAntisymmetric(a: Commit, b: Commit)
    requires Reaches(a, b) && Reaches(b, a)
    ensures a == b
  {
    ReachesHeight(a, b);
    ReachesHeight(b, a);
  }

  /** The merge base: the newest commit of `cs` that both sides reach. */
  function NewestCommon(cs: seq<Commit>, ours: Commit, theirs: Commit): Option<Commit>
    decreases |cs|
  {
    if cs == [] then None
    else if Reaches(ours, cs[|cs| - 1]) && Reaches(theirs, cs[|cs| - 1]) then Some(cs[|cs| - 1])
    else NewestCommon(cs[..|cs| - 1], ours, theirs)
  }

  /** None exactly when no commit of `cs` is reached by both sides. */
  lemma {:induction false} NewestCommonNone(cs: seq<Commit>, ours: Commit, theirs: Commit)
    ensures NewestCommon(cs, ours, theirs).None? <==>
      forall i :: 0 <= i < |cs| ==> !(Reaches(ours, cs[i]) && Reaches(theirs, cs[i]))
    decreases |cs|
  {
    if cs != [] && !(Reaches(ours, cs[|cs| - 1]) && Reaches(theirs, cs[|cs| - 1])) {
      var init := cs[..|cs| - 1];
      NewestCommonNone(init, ours, theirs);
      assert forall i :: 0 <= i < |init| ==> init[i] == cs[i];
    }
  }

  /** A merge base is a common ancestor from `cs` with no later one. */
  lemma {:induction false} NewestCommonNewest(cs: seq<Commit>, ours: Commit, theirs: Commit)
    requires NewestCommon(cs, ours, theirs).Some?
    ensures exists i :: (0 <= i < |cs| && cs[i] == NewestCommon(cs, ours, theirs).value
      && Reaches(ours, cs[i]) && Reaches(theirs, cs[i])
      && forall j :: i < j < |cs| ==> !(Reaches(ours, cs[j]) && Reaches(theirs, cs[j])))
    decreases |cs|
  {
    var n := |cs| - 1;
    if !(Reaches(ours, cs[n]) && Reaches(theirs, cs[n])) {
      var init := cs[..n];
      NewestCommonNewest(init, ours, theirs);
      var i :| 0 <= i < |init| && init[i] == NewestCommon(init, ours, theirs).value
        && Reaches(ours, init[i]) && Reaches(theirs, init[i])
        && forall j :: i < j < |init| ==> !(Reaches(ours, init[j]) && Reaches(theirs, init[j]));
      assert cs[i] == init[i];
      forall j | i < j < |cs| ensures !(Reaches(ours, cs[j]) && Reaches(theirs, cs[j])) {
        if j < n {
          assert cs[j] == init[j];
        }
      }
    } else {
      assert cs[n] == NewestCommon(cs, ours, theirs).value;
    }
  }

  /** The snapshot of the merge base; an empty one for unrelated histories,
      as `--allow-unrelated-histories` merges them. */
  function MergeBaseTree(cs: seq<Commit>, ours: Commit, theirs: Commit): Tree {
    match NewestCommon(cs, ours, theirs)
    case Some(b) => b.tree
    case None => map[]
  }

  /** One path of `git merge -X theirs`, from its version in the base, ours
      and the incoming one: a side that left the path as in the base takes
      the other side's version, and two different contents resolve to the
      incoming one. */
  function MergedAt(b: Option<Content>, o: Option<Content>, t: Option<Content>): Option<Content> {
    if o == b then t else if t == b then o else if t.Some? then t else o
  }

  /** A deletion on one side against a change on the other. `-X theirs`
      settles conflicting contents only, so the merge stops there. */
  predicate DeleteConflict(b: Option<Content>, o: Option<Content>, t: Option<Content>) {
    o != b && t != b && o != t && (o.None? || t.None?)
  }

  predicate CanMerge(base: Tree, ours: Tree, theirs: Tree) {
    forall p :: p in ours.Keys + theirs.Keys ==> !DeleteConflict(Get(base, p), Get(ours, p), Get(theirs, p))
  }

  function MergedTree(base: Tree, ours: Tree, theirs: Tree): Tree {
    map p | p in ours.Keys + theirs.Keys && MergedAt(Get(base, p), Get(ours, p), Get(theirs, p)).Some?
      :: MergedAt(Get(base, p), Get(ours, p), Get(theirs, p)).value
  }

  /** Where the merge does not stop, the incoming side wins every path it
      changed since the base, and ours every path it left as there. */
  lemma MergedTreeAt(base: Tree, ours: Tree, theirs: Tree, p: Path)
    requires !DeleteConflict(Get(base, p), Get(ours, p), Get(theirs, p))
    ensures Get(theirs, p) != Get(base, p) ==> Get(MergedTree(base, ours, theirs), p) == Get(theirs, p)
    ensures Get(theirs, p) == Get(base, p) ==> Get(MergedTree(base, ours, theirs), p) == Get(ours, p)
  {
  }

  /** `git merge <branch> -X theirs --allow-unrelated-histories`. A branch
      HEAD already contains is "Already up to date"; a HEAD the branch
      contains (or an unborn one) is fast-forwarded; otherwise the two
      snapshots are merged path by path against the merge base into a
      merge commit. A merge stops on a deletion conflict, and when local
      changes would be overwritten. */
  function MergeTheirs(s: State, branch: string): Option<State> {
    if GitMerge in s.failing || branch !in s.branches then None
    else
      var theirs := s.branches[branch];
      match HeadCommit(s)
      case None =>
        if CanSwitch(s, theirs.tree) then Some(SwitchTo(s, s.head, theirs)) else None
      case Some(ours) =>
        if Reaches(ours, theirs) then Some(s)
        else if Reaches(theirs, ours) then
          if CanSwitch(s, theirs.tree) then Some(SwitchTo(s, s.head, theirs)) else None
        else
          var base := MergeBaseTree(s.commits, ours, theirs);
          if !CanMerge(base, ours.tree, theirs.tree) then None
          else
            var merged := Commit(MergeMessage(branch), MergedTree(base, ours.tree, theirs.tree), [ours, theirs]);
            if CanSwitch(s, merged.tree) then Some(SwitchTo(s, s.head, merged).(commits := s.commits + [merged]))
            else None
  }

  /** Merging a branch HEAD already contains changes nothing. */
  lemma MergeUpToDate(s: State, branch: string)
    requires GitMerge !in s.failing && branch in s.branches
    requires HeadCommit(s).Some? && Reaches(HeadCommit(s).value, s.branches[branch])
    ensures MergeTheirs(s, branch) == Some(s)
  {
  }

  /** From a clean tree, with HEAD unborn or an ancestor of the branch, the
      merge fast-forwards: HEAD becomes the branch's commit and the tree
      its snapshot, and no commit is made. */
  lemma MergeFastForward(s: State, branch: string)
    requires GitMerge !in s.failing && branch in s.branches && !HasChanges(s)
    requires HeadCommit(s).None? || Reaches(s.branches[branch], HeadCommit(s).value)
    ensures MergeTheirs(s, branch).Some?
    ensures var s' := MergeTheirs(s, branch).value;
      var theirs := s.branches[branch];
      && HeadCommit(s') == Some(theirs) && s'.head == s.head
      && s'.worktree == theirs.tree && s'.tracked == theirs.tree.Keys
      && s'.commits == s.commits
  {
    var theirs := s.branches[branch];
    SwitchFromClean(s, theirs.tree);
    if HeadCommit(s).Some? && Reaches(HeadCommit(s).value, theirs) {
      ReachesAntisymmetric(HeadCommit(s).value, theirs);
    }
  }

  /** "Remote wins" for diverged histories: after a merge from a clean tree,
      HEAD is a new merge commit of both sides. Every path the incoming side
      changed since the merge base has the incoming content, and every path
      it left as in the base keeps ours, in HEAD and on disk. */
  lemma MergeTheirsWins(s: State, branch: string)
    requires !HasChanges(s) && MergeTheirs(s, branch).Some?
    requires HeadCommit(s).Some? && !Reaches(HeadCommit(s).value, s.branches[branch])
    requires !Reaches(s.branches[branch], HeadCommit(s).value)
    ensures var s' := MergeTheirs(s, branch).value;
      var ours := HeadCommit(s).value;
      var theirs := s.branches[branch];
      var base := MergeBaseTree(s.commits, ours, theirs);
      && HeadCommit(s').Some? && HeadCommit(s').value.parents == [ours, theirs]
      && s'.commits == s.commits + [HeadCommit(s').value]
      && s'.worktree == HeadTree(s')
      && (forall p :: Get(theirs.tree, p) != Get(base, p) ==> Get(s'.worktree, p) == Get(theirs.tree, p))
      && (forall p :: Get(theirs.tree, p) == Get(base, p) ==> Get(s'.worktree, p) == Get(ours.tree, p))
  {
    var ours := HeadCommit(s).value;
    var theirs := s.branches[branch];
    var base := MergeBaseTree(s.commits, ours, theirs);
    var merged := Commit(MergeMessage(branch), MergedTree(base, ours.tree, theirs.tree), [ours, theirs]);
    SwitchToFromClean(s, s.head, merged);
    forall p ensures !DeleteConflict(Get(base, p), Get(ours.tree, p), Get(theirs.tree, p)) {
      if !(p in ours.tree || p in theirs.tree) {
        assert Get(ours.tree, p) == None && Get(theirs.tree, p) == None;
      }
    }
    forall p ensures Get(theirs.tree, p) != Get(base, p) ==> Get(merged.tree, p) == Get(theirs.tree, p)
      ensures Get(theirs.tree, p) == Get(base, p) ==> Get(merged.tree, p) == Get(ours.tree, p)
    {
      MergedTreeAt(base, ours.tree, theirs.tree, p);
    }
  }

  /** Between unrelated histories every incoming path wins, and paths only
      ours has are kept. */
  lemma MergeUnrelatedTheirsWins(s: State, branch: string)
    requires !HasChanges(s) && MergeTheirs(s, branch).Some?
    requires HeadCommit(s).Some? && !Reaches(HeadCommit(s).value, s.branches[branch])
    requires !Reaches(s.branches[branch], HeadCommit(s).value)
    requires NewestCommon(s.commits, HeadCommit(s).value, s.branches[branch]).None?
    ensures var s' := MergeTheirs(s, branch).value;
      var ours := HeadCommit(s).value.tree;
      var theirs := s.branches[branch].tree;
      && (forall p :: p in theirs ==> p in s'.worktree && s'.worktree[p] == theirs[p])
      && (forall p :: p in ours && p !in theirs ==> p in s'.worktree && s'.worktree[p] == ours[p])
  {
    MergeTheirsWins(s, branch);
    var s' := MergeTheirs(s, branch).value;
    var ours := HeadCommit(s).value.tree;
    var theirs := s.branches[branch].tree;
    forall p | p in theirs ensures p in s'.worktree && s'.worktree[p] == theirs[p] {
      assert Get(theirs, p) != Get(map[], p);
    }
    forall p | p in ours && p !in theirs ensures p in s'.worktree && s'.worktree[p] == ours[p] {
      assert Get(theirs, p) == Get(map[], p);
    }
  }

  /** A path deleted on one side and changed on the other stops the merge. */
  lemma MergeDeleteConflictStops(s: State, branch: string, p: Path)
    requires branch in s.branches && HeadCommit(s).Some?
    requires !Reaches(HeadCommit(s).value, s.branches[branch])
    requires !Reaches(s.branches[branch], HeadCommit(s).value)
    requires var ours := HeadCommit(s).value;
      var theirs := s.branches[branch];
      DeleteConflict(Get(MergeBaseTree(s.commits, ours, theirs), p), Get(ours.tree, p), Get(theirs.tree, p))
    ensures MergeTheirs(s, branch).None?
  {
    var ours := HeadCommit(s).value;
    var theirs := s.branches[branch];
    assert p in ours.tree || p in theirs.tree;
  }
}
