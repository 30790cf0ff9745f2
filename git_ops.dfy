/** The session store as an object (cc_context/core/git_ops.py): each store
    command is a method that updates the store's fields step by step, and
    each is proved to leave exactly the state, and return exactly the value,
    that the matching StoreModel function describes. The ancestor walk and
    the `git rev-list --parents` parsing live here too. */
module GitOps {
  import opened Wrappers
  import opened Text
  import opened StoreModel

  class SessionStore {
    var initialized: bool
    var commits: seq<Commit>
    var branches: map<string, Commit>
    var head: string
    var worktree: Tree
    var tracked: set<Path>
    var stash: seq<StashEntry>
    var remotes: map<string, string>
    var failing: set<Command>

    /** The store's fields as one value. */
    function Snapshot(): State
      reads this
    {
      State(initialized, commits, branches, head, worktree, tracked, stash, remotes, failing)
    }

    constructor (s: State)
      ensures Snapshot() == s
    {
      initialized, commits, branches, head := s.initialized, s.commits, s.branches, s.head;
      worktree, tracked, stash, remotes, failing := s.worktree, s.tracked, s.stash, s.remotes, s.failing;
    }

    /** `has_uncommitted_changes`. */
    method HasUncommittedChanges() returns (r: bool)
      ensures r == StoreModel.HasUncommittedChanges(Snapshot())
    {
      if !initialized || GitStatus in failing {
        return false;
      }
      r := HasChanges(Snapshot());
    }

    /** `git commit -m message`, with `--allow-empty` when `allowEmpty`. */
    method RecordCommit(message: string, allowEmpty: bool) returns (ok: bool)
      modifies this
      ensures var r := GitCommitStep(old(Snapshot()), message, allowEmpty);
        ok == r.Some? && Snapshot() == (if ok then r.value else old(Snapshot()))
    {
      var staged := TrackedView(Snapshot());
      if GitCommit in failing || (!allowEmpty && staged == HeadTree(Snapshot())) {
        return false;
      }
      var parents := if head in branches then [branches[head]] else [];
      var c := StoreModel.Commit(message, staged, parents);
      commits := commits + [c];
      branches := branches[head := c];
      tracked := staged.Keys;
      ok := true;
    }

    /** `commit_sessions`. */
    method CommitSessions(mainSha: string) returns (ok: bool)
      modifies this
      ensures Step(Snapshot(), ok) == StoreModel.CommitSessions(old(Snapshot()), mainSha)
    {
      if !initialized || GitStatus in failing {
        return false;
      }
      if !HasChanges(Snapshot()) {
        return true;
      }
      ok := RecordCommit(ContextMessage(mainSha), false);
    }

    /** `init_claude_repo`. */
    method InitClaudeRepo(skipInitialCommit: bool, mainHead: Option<string>, defaultBranch: string)
      returns (ok: bool)
      modifies this
      ensures Step(Snapshot(), ok)
        == StoreModel.InitClaudeRepo(old(Snapshot()), skipInitialCommit, mainHead, defaultBranch)
    {
      if GitInit in failing {
        return false;
      }
      if !initialized {
        initialized, commits, branches, head := true, [], map[], defaultBranch;
        tracked, stash, remotes := {}, [], map[];
      }
      if skipInitialCommit {
        return true;
      }
      ok := RecordCommit("Empty initial state", true);
      if !ok {
        return;
      }
      if !HasSessionFiles(worktree) {
        return true;
      }
      if GitAdd in failing {
        return false;
      }
      tracked := tracked + JsonlPaths(worktree);
      ok := RecordCommit(InitialSessionsMessage(mainHead), false);
    }

    /** `stash_sessions`. */
    method StashSessions(message: string) returns (ok: bool)
      modifies this
      ensures Step(Snapshot(), ok) == StoreModel.StashSessions(old(Snapshot()), message)
    {
      if !initialized {
        return false;
      }
      var dirty := HasUncommittedChanges();
      if !dirty {
        return true;
      }
      if GitStashPush in failing || head !in branches {
        return false;
      }
      var h := branches[head];
      stash := [StashEntry(head, message, h, worktree, tracked)] + stash;
      worktree, tracked := h.tree, h.tree.Keys;
      ok := true;
    }

    /** `find_stash_by_message`: scans `git stash list` line by line. */
    method FindStashByMessage(pattern: string) returns (r: Option<string>)
      ensures r == StoreModel.FindStashByMessage(Snapshot(), pattern)
    {
      if !initialized || GitStashList in failing {
        return None;
      }
      var lines := StashListLines(Snapshot());
      var k := 0;
      while k < |lines|
        invariant 0 <= k <= |lines|
        invariant FirstLineWith(lines[k..], pattern) == FirstLineWith(lines, pattern)
      {
        assert lines[k..][1..] == lines[k + 1..];
        if Contains(lines[k], pattern) {
          return Some(RefOfLine(lines[k]));
        }
        k := k + 1;
      }
      return None;
    }

    /** `pop_stash`. */
    method PopStash(ref: string) returns (ok: bool)
      modifies this
      ensures Step(Snapshot(), ok) == StoreModel.PopStash(old(Snapshot()), ref)
    {
      if !initialized || GitStashPop in failing {
        return false;
      }
      var index := ParseStashRef(ref);
      if index.None? || index.value >= |stash| || !CanPop(Snapshot(), stash[index.value]) {
        return false;
      }
      var i := index.value;
      var s := Snapshot();
      worktree, tracked := PoppedWorktree(s, stash[i]), PoppedTracked(s, stash[i]);
      stash := stash[..i] + stash[i + 1..];
      ok := true;
    }

    /** `clean_untracked_files`. */
    method CleanUntrackedFiles() returns (ok: bool)
      modifies this
      ensures Step(Snapshot(), ok) == StoreModel.CleanUntrackedFiles(old(Snapshot()))
    {
      if !initialized || GitClean in failing {
        return false;
      }
      worktree := TrackedView(Snapshot());
      ok := true;
    }

    /** The effect of a successful `git checkout` to branch `name` at `c`. */
    method Switch(name: string, c: Commit)
      modifies this
      ensures Snapshot() == SwitchTo(old(Snapshot()), name, c)
    {
      var s := Snapshot();
      worktree, tracked := SwitchedWorktree(s, c.tree), SwitchedTracked(s, c.tree);
      branches, head := branches[name := c], name;
    }

    /** `create_or_checkout_branch`. */
    method CreateOrCheckoutBranch(name: string, at: Option<Commit>) returns (ok: bool)
      modifies this
      ensures Step(Snapshot(), ok) == StoreModel.CreateOrCheckoutBranch(old(Snapshot()), name, at)
    {
      if !initialized {
        return false;
      }
      if at.Some? {
        if GitCheckout in failing || !CanSwitch(Snapshot(), at.value.tree) {
          return false;
        }
        Switch(name, at.value);
        return true;
      }
      // `git checkout <name>`
      if GitCheckout !in failing && name in branches && CanSwitch(Snapshot(), branches[name].tree) {
        Switch(name, branches[name]);
        return true;
      }
      // `git checkout -b <name>`
      if GitCheckout in failing || name in branches {
        return false;
      }
      if head in branches {
        branches := branches[name := branches[head]];
      }
      head := name;
      ok := true;
    }

    /** `git bundle create <file> --all`. */
    method CreateBundle() returns (b: Option<Bundle>)
      ensures b == StoreModel.CreateBundle(Snapshot())
    {
      if GitBundle in failing || branches == map[] {
        return None;
      }
      b := Some(Bundle(commits, branches));
    }

    /** `git fetch <bundle> branch:branch`. */
    method FetchBundle(b: Bundle, branch: string) returns (ok: bool)
      modifies this
      ensures var r := StoreModel.FetchBundle(old(Snapshot()), b, branch);
        ok == r.Some? && Snapshot() == (if ok then r.value else old(Snapshot()))
    {
      if GitFetch in failing || branch !in b.branches || branch == head {
        return false;
      }
      commits := Absorb(commits, b.commits);
      branches := branches[branch := b.branches[branch]];
      ok := true;
    }

    /** `git merge <branch> -X theirs --allow-unrelated-histories`. */
    method MergeTheirs(branch: string) returns (ok: bool)
      modifies this
      ensures var r := StoreModel.MergeTheirs(old(Snapshot()), branch);
        ok == r.Some? && Snapshot() == (if ok then r.value else old(Snapshot()))
    {
      if GitMerge in failing || branch !in branches {
        return false;
      }
      var theirs := branches[branch];
      if head !in branches {
        if !CanSwitch(Snapshot(), theirs.tree) {
          return false;
        }
        Switch(head, theirs);
        return true;
      }
      var ours := branches[head];
      if Reaches(ours, theirs) {
        return true;
      }
      if Reaches(theirs, ours) {
        if !CanSwitch(Snapshot(), theirs.tree) {
          return false;
        }
        Switch(head, theirs);
        return true;
      }
      var base := MergeBaseTree(commits, ours, theirs);
      if !CanMerge(base, ours.tree, theirs.tree) {
        return false;
      }
      var merged := StoreModel.Commit(MergeMessage(branch), MergedTree(base, ours.tree, theirs.tree), [ours, theirs]);
      if !CanSwitch(Snapshot(), merged.tree) {
        return false;
      }
      Switch(head, merged);
      commits := commits + [merged];
      ok := true;
    }

    /** `find_context_for_commit_or_ancestor`. `main` is the main repository
        as `git rev-list --parents -n 1` sees it. `lookups` lists, in
        order, the main-repository commits whose tag was searched for. */
    method FindContextForCommitOrAncestor(main: MainRepo, mainSha: string, maxDepth: int)
      returns (r: Option<Commit>, ghost lookups: seq<string>)
      ensures r == ContextFor(Snapshot(), main, mainSha, maxDepth)
      ensures Distinct(lookups)
      ensures |lookups| <= if maxDepth < 0 then 0 else maxDepth
      ensures lookups != [] ==> lookups[0] == mainSha
      ensures r.Some? ==> lookups != [] && r == FindCommitByMainSha(Snapshot(), lookups[|lookups| - 1])
      ensures forall k :: 0 <= k < |lookups| && (r.Some? ==> k < |lookups| - 1) ==>
        FindCommitByMainSha(Snapshot(), lookups[k]).None?
    {
      lookups := [];
      if !initialized {
        return None, lookups;
      }
      r, lookups := SearchAncestors(Lookup(Snapshot()), ParentsIn(main), mainSha, maxDepth);
      assert forall sha :: Lookup(Snapshot())(sha) == FindCommitByMainSha(Snapshot(), sha);
    }
  }

  // ---------------------------------------------------------------------
  // The main repository's parent graph

  /** What `git rev-list --parents -n 1 <sha>` prints in the main repository,
      for each commit it knows; any other argument makes it fail. */
  type MainRepo = map<string, string>

  function RevList(main: MainRepo, sha: string): Option<string> {
    if sha in main then Some(main[sha]) else None
  }

  /** `get_commit_parents` on the command's output: every token after the
      first, and nothing when the command failed. */
  function GetCommitParents(output: Option<string>): seq<string> {
    match output
    case None => []
    case Some(out) =>
      var parts := Words(Strip(out));
      if |parts| > 1 then parts[1..] else []
  }

  predicate IsToken(t: string) {
    |t| > 0 && HasNoSpace(t)
  }

  /** Parsing the line git prints for a commit and its parents gives back
      exactly the parents, none for a root commit. */
  lemma ParentsOfRevListLine(sha: string, parents: seq<string>)
    requires IsToken(sha) && forall k :: 0 <= k < |parents| ==> IsToken(parents[k])
    ensures GetCommitParents(Some(Join([sha] + parents, " ") + "\n")) == parents
  {
    var ws := [sha] + parents;
    assert forall k :: 0 <= k < |ws| ==> IsToken(ws[k]) by {
      forall k | 0 <= k < |ws| ensures IsToken(ws[k]) {
        if k > 0 {
          assert ws[k] == parents[k - 1];
        }
      }
    }
    StripJoinedLine(ws);
    WordsJoin(ws);
    assert ws[1..] == parents;
  }

  /** A failing `git rev-list` gives no parents. */
  lemma ParentsOfFailure()
    ensures GetCommitParents(None) == []
  {
  }

  // ---------------------------------------------------------------------
  // The ancestor walk

  predicate Distinct(xs: seq<string>) {
    forall i, j :: 0 <= i < j < |xs| ==> xs[i] != xs[j]
  }

  function Budget(maxDepth: int): nat {
    if maxDepth < 0 then 0 else maxDepth
  }

  /** The tag lookup of `find_commit_by_main_sha` in store state `s`. */
  function Lookup(s: State): string -> Option<Commit> {
    sha => FindCommitByMainSha(s, sha)
  }

  /** The parents `get_commit_parents` reads from `main` for each commit. */
  function ParentsIn(main: MainRepo): string -> seq<string> {
    sha => GetCommitParents(RevList(main, sha))
  }

  /** The walk from a queue and a set of visited commits, with `budget`
      lookups left: commits leave the queue from the front, a visited one is
      dropped, and an unvisited one is looked up; on a miss its parents join
      the back of the queue. */
  function Walk(lookup: string -> Option<Commit>, parents: string -> seq<string>, queue: seq<string>,
                visited: set<string>, budget: nat): Option<Commit>
    decreases budget, |queue|
  {
    if queue == [] || budget == 0 then None
    else
      var current := queue[0];
      if current in visited then Walk(lookup, parents, queue[1..], visited, budget)
      else match lookup(current)
        case Some(c) => Some(c)
        case None => Walk(lookup, parents, queue[1..] + parents(current), visited + {current}, budget - 1)
  }

  /** What `find_context_for_commit_or_ancestor` returns. */
  function ContextFor(s: State, main: MainRepo, mainSha: string, maxDepth: int): Option<Commit> {
    if !s.initialized then None else Walk(Lookup(s), ParentsIn(main), [mainSha], {}, Budget(maxDepth))
  }

  /** `path` follows parent edges from its first commit to its last. */
  ghost predicate IsParentPath(parents: string -> seq<string>, path: seq<string>) {
    |path| > 0 && forall i :: 0 <= i < |path| - 1 ==> path[i + 1] in parents(path[i])
  }

  /** `x` is `start` or one of its ancestors. */
  ghost predicate Reachable(parents: string -> seq<string>, start: string, x: string) {
    exists path :: IsParentPath(parents, path) && path[0] == start && path[|path| - 1] == x
  }

  lemma ReachableStart(parents: string -> seq<string>, start: string)
    ensures Reachable(parents, start, start)
  {
    assert IsParentPath(parents, [start]);
  }

  lemma ReachableStep(parents: string -> seq<string>, start: string, x: string, y: string)
    requires Reachable(parents, start, x) && y in parents(x)
    ensures Reachable(parents, start, y)
  {
    var path :| IsParentPath(parents, path) && path[0] == start && path[|path| - 1] == x;
    var longer := path + [y];
    forall i | 0 <= i < |longer| - 1
      ensures longer[i + 1] in parents(longer[i])
    {
      if i < |path| - 1 {
        assert longer[i] == path[i] && longer[i + 1] == path[i + 1];
      }
    }
    assert IsParentPath(parents, longer) && longer[0] == start && longer[|longer| - 1] == y;
  }

  /** Every commit in `xs` is `start` or one of its ancestors. */
  ghost predicate AllReachable(parents: string -> seq<string>, start: string, xs: seq<string>) {
    forall i :: 0 <= i < |xs| ==> Reachable(parents, start, xs[i])
  }

  lemma ParentsReachable(parents: string -> seq<string>, start: string, x: string)
    requires Reachable(parents, start, x)
    ensures AllReachable(parents, start, parents(x))
  {
    forall i | 0 <= i < |parents(x)|
      ensures Reachable(parents, start, parents(x)[i])
    {
      ReachableStep(parents, start, x, parents(x)[i]);
    }
  }

  lemma AllReachableSplit(parents: string -> seq<string>, start: string, x: string, xs: seq<string>)
    requires AllReachable(parents, start, [x] + xs)
    ensures Reachable(parents, start, x) && AllReachable(parents, start, xs)
  {
    assert ([x] + xs)[0] == x;
    forall i | 0 <= i < |xs|
      ensures Reachable(parents, start, xs[i])
    {
      assert xs[i] == ([x] + xs)[i + 1];
    }
  }

  lemma AllReachableAppend(parents: string -> seq<string>, start: string, xs: seq<string>, ys: seq<string>)
    requires AllReachable(parents, start, xs) && AllReachable(parents, start, ys)
    ensures AllReachable(parents, start, xs + ys)
  {
    forall i | 0 <= i < |xs + ys|
      ensures Reachable(parents, start, (xs + ys)[i])
    {
      if i < |xs| {
        assert (xs + ys)[i] == xs[i];
      } else {
        assert (xs + ys)[i] == ys[i - |xs|];
      }
    }
  }

  /** A walk whose queue holds only `start` and its ancestors returns the
      store commit a lookup found for one of them. */
  lemma {:induction false} WalkFindsAncestor(lookup: string -> Option<Commit>, parents: string -> seq<string>,
                                             start: string, queue: seq<string>, visited: set<string>, budget: nat)
    requires forall i :: 0 <= i < |queue| ==> Reachable(parents, start, queue[i])
    requires Walk(lookup, parents, queue, visited, budget).Some?
    ensures exists sha :: Reachable(parents, start, sha) && lookup(sha) == Walk(lookup, parents, queue, visited, budget)
    decreases budget, |queue|
  {
    var current := queue[0];
    assert Reachable(parents, start, current);
    if current in visited {
      WalkFindsAncestor(lookup, parents, start, queue[1..], visited, budget);
    } else if lookup(current).None? {
      var next := queue[1..] + parents(current);
      forall i | 0 <= i < |next|
        ensures Reachable(parents, start, next[i])
      {
        if i < |queue| - 1 {
          assert next[i] == queue[i + 1];
        } else {
          ReachableStep(parents, start, current, next[i]);
        }
      }
      WalkFindsAncestor(lookup, parents, start, next, visited + {current}, budget - 1);
    }
  }

  /** Any context found is the tagged store commit of `mainSha` or of one of
      its ancestors in the main repository. */
  lemma ContextIsTagged(s: State, main: MainRepo, mainSha: string, maxDepth: int)
    requires ContextFor(s, main, mainSha, maxDepth).Some?
    ensures exists sha ::
      Reachable(ParentsIn(main), mainSha, sha) && FindCommitByMainSha(s, sha) == ContextFor(s, main, mainSha, maxDepth)
  {
    ReachableStart(ParentsIn(main), mainSha);
    WalkFindsAncestor(Lookup(s), ParentsIn(main), mainSha, [mainSha], {}, Budget(maxDepth));
    var sha :| Reachable(ParentsIn(main), mainSha, sha) && Lookup(s)(sha) == ContextFor(s, main, mainSha, maxDepth);
    assert FindCommitByMainSha(s, sha) == Lookup(s)(sha);
  }

  /** What `SearchAncestors` keeps about the commits it has looked up:
      `visited` holds exactly them, each once, none with context, each
      `mainSha` or one of its ancestors. */
  ghost predicate Searched(lookup: string -> Option<Commit>, parents: string -> seq<string>, mainSha: string,
                           lookups: seq<string>, visited: set<string>) {
    (forall x :: x in visited <==> x in lookups)
    && Distinct(lookups)
    && (forall k :: 0 <= k < |lookups| ==> lookup(lookups[k]).None?)
    && AllReachable(parents, mainSha, lookups)
  }

  /** Proof helper for `SearchAncestors`: a new commit without context
      extends what was searched. */
  lemma SearchMiss(lookup: string -> Option<Commit>, parents: string -> seq<string>, mainSha: string,
                   lookups: seq<string>, visited: set<string>, current: string)
    requires Searched(lookup, parents, mainSha, lookups, visited)
    requires current !in visited && lookup(current).None? && Reachable(parents, mainSha, current)
    ensures Searched(lookup, parents, mainSha, lookups + [current], visited + {current})
  {
    AllReachableAppend(parents, mainSha, lookups, [current]);
  }

  /** Proof helper for `SearchAncestors`: a new commit with context ends the
      search with everything before it free of context. */
  lemma SearchHit(lookup: string -> Option<Commit>, parents: string -> seq<string>, mainSha: string,
                  lookups: seq<string>, visited: set<string>, current: string)
    requires Searched(lookup, parents, mainSha, lookups, visited)
    requires current !in visited && Reachable(parents, mainSha, current)
    ensures Distinct(lookups + [current]) && AllReachable(parents, mainSha, lookups + [current])
    ensures forall k :: 0 <= k < |lookups| ==> lookup((lookups + [current])[k]).None?
  {
    AllReachableAppend(parents, mainSha, lookups, [current]);
  }

  /** The breadth-first walk of `find_context_for_commit_or_ancestor`, with
      `lookup` for `find_commit_by_main_sha` and `parents` for
      `get_commit_parents` in the main repository. */
  method SearchAncestors(lookup: string -> Option<Commit>, parents: string -> seq<string>,
                         mainSha: string, maxDepth: int)
    returns (r: Option<Commit>, ghost lookups: seq<string>)
    ensures r == Walk(lookup, parents, [mainSha], {}, Budget(maxDepth))
    ensures Distinct(lookups)
    ensures |lookups| <= Budget(maxDepth)
    ensures lookups != [] ==> lookups[0] == mainSha
    ensures r.Some? ==> lookups != [] && r == lookup(lookups[|lookups| - 1])
    ensures forall k :: 0 <= k < |lookups| && (r.Some? ==> k < |lookups| - 1) ==> lookup(lookups[k]).None?
    ensures AllReachable(parents, mainSha, lookups)
  {
    ReachableStart(parents, mainSha);
    lookups := [];
    ghost var budget0: nat := Budget(maxDepth);
    var visited: set<string> := {};
    var toCheck := [mainSha];
    var depth := 0;
    while toCheck != [] && depth < maxDepth
      invariant 0 <= depth == |lookups| <= budget0
      invariant lookups == [] ==> toCheck == [mainSha]
      invariant lookups != [] ==> lookups[0] == mainSha
      invariant Searched(lookup, parents, mainSha, lookups, visited)
      invariant AllReachable(parents, mainSha, toCheck)
      invariant Walk(lookup, parents, toCheck, visited, budget0 - depth) == Walk(lookup, parents, [mainSha], {}, budget0)
      decreases budget0 - depth, |toCheck|
    {
      var current := toCheck[0];
      ghost var rest := toCheck[1..];
      assert toCheck == [current] + rest;
      AllReachableSplit(parents, mainSha, current, rest);
      toCheck := toCheck[1..];
      if current in visited {
        WalkSkip(lookup, parents, current, rest, visited, budget0 - depth);
        continue;
      }
      var claudeCommit := lookup(current);
      if claudeCommit.Some? {
        WalkHit(lookup, parents, current, rest, visited, budget0 - depth);
        SearchHit(lookup, parents, mainSha, lookups, visited, current);
        visited := visited + {current};
        lookups := lookups + [current];
        return claudeCommit, lookups;
      }
      var next := parents(current);
      WalkMiss(lookup, parents, current, rest, visited, budget0 - depth);
      ParentsReachable(parents, mainSha, current);
      SearchMiss(lookup, parents, mainSha, lookups, visited, current);
      AllReachableAppend(parents, mainSha, rest, next);
      visited := visited + {current};
      lookups := lookups + [current];
      toCheck := toCheck + next;
      depth := depth + 1;
    }
    return None, lookups;
  }

  /** A start commit that has context is answered directly, whatever its
      parents are. */
  lemma DirectHit(s: State, main: MainRepo, mainSha: string, maxDepth: int)
    requires s.initialized && maxDepth >= 1 && FindCommitByMainSha(s, mainSha).Some?
    ensures ContextFor(s, main, mainSha, maxDepth) == FindCommitByMainSha(s, mainSha)
  {
  }

  /** A budget below one means no lookup and no answer. */
  lemma NoBudgetNoContext(s: State, main: MainRepo, mainSha: string, maxDepth: int)
    requires maxDepth < 1
    ensures ContextFor(s, main, mainSha, maxDepth).None?
  {
  }

  /** Proof helper for `SearchAncestors`, one equation of `Walk`: a visited queue head is dropped without spending a lookup. */
  lemma WalkSkip(lookup: string -> Option<Commit>, parents: string -> seq<string>, current: string,
                 rest: seq<string>, visited: set<string>, budget: nat)
    requires budget > 0 && current in visited
    ensures Walk(lookup, parents, [current] + rest, visited, budget) == Walk(lookup, parents, rest, visited, budget)
  {
    assert ([current] + rest)[1..] == rest;
  }

  /** Proof helper for `SearchAncestors`, one equation of `Walk`: a miss marks the sha visited, appends its parents and spends one lookup. */
  lemma WalkMiss(lookup: string -> Option<Commit>, parents: string -> seq<string>, current: string,
                 rest: seq<string>, visited: set<string>, budget: nat)
    requires budget > 0 && current !in visited && lookup(current).None?
    ensures Walk(lookup, parents, [current] + rest, visited, budget)
      == Walk(lookup, parents, rest + parents(current), visited + {current}, budget - 1)
  {
    assert ([current] + rest)[1..] == rest;
  }

  /** Proof helper for `SearchAncestors`, one equation of `Walk`: a hit on the queue head ends the walk with that hit. */
  lemma WalkHit(lookup: string -> Option<Commit>, parents: string -> seq<string>, current: string,
                rest: seq<string>, visited: set<string>, budget: nat)
    requires budget > 0 && current !in visited && lookup(current).Some?
    ensures Walk(lookup, parents, [current] + rest, visited, budget) == lookup(current)
  {
  }

  /** Two lookups: a start commit that misses, then a first parent that hits. */
  lemma WalkToFirstParent(lookup: string -> Option<Commit>, parents: string -> seq<string>, child: string,
                          p1: string, rest: seq<string>, budget: nat)
    requires budget >= 2 && child != p1
    requires lookup(child).None? && lookup(p1).Some? && parents(child) == [p1] + rest
    ensures Walk(lookup, parents, [child], {}, budget) == lookup(p1)
  {
    WalkMiss(lookup, parents, child, [], {}, budget);
    assert [] + parents(child) == [p1] + rest;
    WalkHit(lookup, parents, p1, rest, {child}, budget - 1);
    assert [child] + [] == [child];
  }

  /** The parents read from a commit's `rev-list` line. */
  lemma ParentsInLine(main: MainRepo, child: string, parents: seq<string>)
    requires IsToken(child) && forall k :: 0 <= k < |parents| ==> IsToken(parents[k])
    requires child in main && main[child] == Join([child] + parents, " ") + "\n"
    ensures ParentsIn(main)(child) == parents
  {
    ParentsOfRevListLine(child, parents);
  }

  /** A new commit without context inherits the context of its parent. */
  lemma InheritsFromParent(s: State, main: MainRepo, child: string, parent: string, maxDepth: int)
    requires s.initialized && maxDepth >= 2
    requires IsToken(child) && IsToken(parent) && child != parent
    requires child in main && main[child] == child + " " + parent + "\n"
    requires FindCommitByMainSha(s, child).None? && FindCommitByMainSha(s, parent).Some?
    ensures ContextFor(s, main, child, maxDepth) == FindCommitByMainSha(s, parent)
  {
    assert Join([child] + [parent], " ") == child + " " + parent;
    ParentsInLine(main, child, [parent]);
    assert Lookup(s)(child).None? && Lookup(s)(parent) == FindCommitByMainSha(s, parent);
    WalkToFirstParent(Lookup(s), ParentsIn(main), child, parent, [], Budget(maxDepth));
  }

  /** Helper for `InheritsFromParent` and `FirstParentFirst`: the rev-list
      line of a commit with two parents, spelled out. */
  lemma JoinThree(a: string, b: string, c: string)
    ensures Join([a] + [b, c], " ") == a + " " + b + " " + c
  {
    assert [a] + [b, c] == [a, b, c];
    assert [a, b, c][1..] == [b, c];
    assert [b, c][1..] == [c];
    assert Join([c], " ") == c;
    assert Join([b, c], " ") == b + " " + c;
    assert Join([a, b, c], " ") == a + " " + (b + " " + c);
  }

  /** A merge commit's second parent is looked up after its first; with the
      first parent tagged, the walk answers with the first parent's context. */
  lemma FirstParentFirst(s: State, main: MainRepo, child: string, p1: string, p2: string, maxDepth: int)
    requires s.initialized && maxDepth >= 2
    requires IsToken(child) && IsToken(p1) && IsToken(p2) && child != p1
    requires child in main && main[child] == child + " " + p1 + " " + p2 + "\n"
    requires FindCommitByMainSha(s, child).None? && FindCommitByMainSha(s, p1).Some?
    ensures ContextFor(s, main, child, maxDepth) == FindCommitByMainSha(s, p1)
  {
    JoinThree(child, p1, p2);
    ParentsInLine(main, child, [p1, p2]);
    assert Lookup(s)(child).None? && Lookup(s)(p1) == FindCommitByMainSha(s, p1);
    WalkToFirstParent(Lookup(s), ParentsIn(main), child, p1, [p2], Budget(maxDepth));
  }
}
