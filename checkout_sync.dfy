/** `cc-checkout-sync` (cc_context/cli/checkout_sync.py): run by the
    post-checkout hook, it puts the sessions of the commit being left on the
    stash, moves the store branch named after the main repository's branch to
    the sessions of the commit checked out, and restores whatever was stashed
    for that commit. */
module CheckoutSync {
  import opened Wrappers
  import opened Text
  import opened StoreModel
  import opened GitOps

  /** How a run ended; `stashed` and `cleaned` are the results of the steps
      whose failure is only a warning. */
  datatype Outcome =
    | Ignored          // not a branch checkout
    | NotInitialized
    | NoBranch         // the main repository's branch could not be read
    | Detached
    | NoHistory(stashed: bool)
    | SwitchFailed(stashed: bool)
    | Synced(stashed: bool, cleaned: bool, stashRef: Option<string>, restored: bool)

  function StashMessage(sha: string): string {
    "sessions-for-" + sha
  }

  /** The commit the store moves to: the one tagged for `newSha`, else the
      initial commit. */
  function Target(s: State, newSha: string): Option<Commit> {
    match FindCommitByMainSha(s, newSha)
    case Some(c) => Some(c)
    case None => GetInitialCommit(s)
  }

  /** `sync_checkout` as a function of the store. `newBranch` is what
      `get_main_repo_branch` returned. */
  function SyncCheckoutResult(s: State, oldSha: string, newSha: string, checkoutType: string,
                              newBranch: Option<string>): Step<Outcome>
  {
    if checkoutType != "1" then Step(s, Ignored)
    else if !s.initialized then Step(s, NotInitialized)
    else if newBranch.None? || newBranch.value == "" then Step(s, NoBranch)
    else if IsDetachedHead(newBranch) then Step(s, Detached)
    else
      var preserve := StashSessions(s, StashMessage(oldSha));
      MoveToTarget(preserve.state, preserve.result, newBranch.value, newSha)
  }

  /** Steps 2 and 3: pick the target and check the branch out there. */
  function MoveToTarget(s: State, stashed: bool, branch: string, newSha: string): Step<Outcome> {
    var target := Target(s, newSha);
    if target.None? then Step(s, NoHistory(stashed))
    else
      var switch := CreateOrCheckoutBranch(s, branch, target);
      if !switch.result then Step(switch.state, SwitchFailed(stashed))
      else Restore(switch.state, stashed, newSha)
  }

  /** Steps 3.5 and 4: clean, then pop the stash saved for `newSha`, if any.
      A falsy (empty) reference counts as none. */
  function Restore(s: State, stashed: bool, newSha: string): Step<Outcome> {
    var clean := CleanUntrackedFiles(s);
    var ref := FindStashByMessage(clean.state, StashMessage(newSha));
    if ref.None? || ref.value == "" then Step(clean.state, Synced(stashed, clean.result, None, false))
    else
      var pop := PopStash(clean.state, ref.value);
      Step(pop.state, Synced(stashed, clean.result, ref, pop.result))
  }

  /** `sync_checkout`, running the store commands in order on `store`. */
  method SyncCheckout(store: SessionStore, oldSha: string, newSha: string, checkoutType: string,
                      newBranch: Option<string>) returns (outcome: Outcome)
    modifies store
    ensures Step(store.Snapshot(), outcome)
      == SyncCheckoutResult(old(store.Snapshot()), oldSha, newSha, checkoutType, newBranch)
  {
    if checkoutType != "1" {
      return Ignored;
    }
    if !store.initialized {
      return NotInitialized;
    }
    if newBranch.None? || newBranch.value == "" {
      return NoBranch;
    }
    if IsDetachedHead(newBranch) {
      return Detached;
    }
    var branch := newBranch.value;
    var stashed := store.StashSessions(StashMessage(oldSha));
    var target := Target(store.Snapshot(), newSha);
    if target.None? {
      return NoHistory(stashed);
    }
    var switched := store.CreateOrCheckoutBranch(branch, target);
    if !switched {
      return SwitchFailed(stashed);
    }
    var cleaned := store.CleanUntrackedFiles();
    var ref := store.FindStashByMessage(StashMessage(newSha));
    if ref.None? || ref.value == "" {
      return Synced(stashed, cleaned, None, false);
    }
    var restored := store.PopStash(ref.value);
    outcome := Synced(stashed, cleaned, ref, restored);
  }

  /** `main`: the exit status. Any other argument count is a usage error;
      otherwise the status is 0, even when syncing fails. */
  method CheckoutSyncMain(store: SessionStore, args: seq<string>, newBranch: Option<string>)
    returns (status: int)
    modifies store
    ensures status == (if |args| != 4 then 1 else 0)
    ensures |args| != 4 ==> store.Snapshot() == old(store.Snapshot())
    ensures |args| == 4 ==>
      store.Snapshot() == SyncCheckoutResult(old(store.Snapshot()), args[1], args[2], args[3], newBranch).state
  {
    if |args| != 4 {
      return 1;
    }
    var _ := SyncCheckout(store, args[1], args[2], args[3], newBranch);
    status := 0;
  }

  // ---------------------------------------------------------------------
  // Properties

  /** A file checkout changes nothing. */
  lemma FileCheckoutIgnored(s: State, oldSha: string, newSha: string, checkoutType: string,
                            newBranch: Option<string>)
    requires checkoutType != "1"
    ensures SyncCheckoutResult(s, oldSha, newSha, checkoutType, newBranch) == Step(s, Ignored)
  {
  }

  /** An uninitialised store, an unreadable branch and a detached HEAD leave
      the store exactly as it was: nothing stashed, no branch moved. */
  lemma GuardsLeaveStoreUntouched(s: State, oldSha: string, newSha: string, newBranch: Option<string>)
    requires !s.initialized || newBranch.None? || newBranch == Some("") || newBranch == Some("HEAD")
    ensures SyncCheckoutResult(s, oldSha, newSha, "1", newBranch).state == s
    ensures SyncCheckoutResult(s, oldSha, newSha, "1", newBranch).result
      in {NotInitialized, NoBranch, Detached}
  {
  }

  /** On an initialised store with a non-empty main branch name, the run
      stops as detached exactly when that name is `HEAD`, and then leaves
      the store untouched. */
  lemma DetachedOnlyForHead(s: State, oldSha: string, newSha: string, b: string)
    requires s.initialized && b != ""
    ensures SyncCheckoutResult(s, oldSha, newSha, "1", Some(b)).result == Detached <==> b == "HEAD"
    ensures b == "HEAD" ==> SyncCheckoutResult(s, oldSha, newSha, "1", Some(b)) == Step(s, Detached)
  {
  }

  /** Stashing never adds commits, never moves a branch and never changes
      which commands fail. */
  lemma StashKeepsHistory(s: State, m: string)
    ensures var r := StashSessions(s, m).state;
      r.commits == s.commits && r.branches == s.branches && r.head == s.head
      && r.failing == s.failing && r.initialized == s.initialized
  {
  }

  /** Cleaning and restoring touch only the working tree, the index and
      the stash, and always end the run as synced. */
  lemma RestoreKeepsHistory(s: State, stashed: bool, newSha: string)
    ensures var r := Restore(s, stashed, newSha);
      && r.result.Synced? && r.result.stashed == stashed
      && r.state.commits == s.commits && r.state.branches == s.branches && r.state.head == s.head
      && r.state.failing == s.failing && r.state.initialized == s.initialized
  {
  }

  /** When no commit is available the run stops after preserving, with every
      branch where it was. */
  lemma NoHistoryKeepsBranches(s: State, oldSha: string, newSha: string, newBranch: Option<string>)
    requires SyncCheckoutResult(s, oldSha, newSha, "1", newBranch).result.NoHistory?
    ensures SyncCheckoutResult(s, oldSha, newSha, "1", newBranch).state
      == StashSessions(s, StashMessage(oldSha)).state
    ensures SyncCheckoutResult(s, oldSha, newSha, "1", newBranch).state.branches == s.branches
  {
    var p := StashSessions(s, StashMessage(oldSha));
    StashKeepsHistory(s, StashMessage(oldSha));
    if Target(p.state, newSha).Some? {
      var sw := CreateOrCheckoutBranch(p.state, newBranch.value, Target(p.state, newSha));
      if sw.result {
        RestoreKeepsHistory(sw.state, p.result, newSha);
      }
    }
  }

  /** A failed branch switch returns before cleaning and restoring: the store
      is as preserving left it. */
  lemma SwitchFailureStops(s: State, oldSha: string, newSha: string, newBranch: Option<string>)
    requires SyncCheckoutResult(s, oldSha, newSha, "1", newBranch).result.SwitchFailed?
    ensures SyncCheckoutResult(s, oldSha, newSha, "1", newBranch).state
      == StashSessions(s, StashMessage(oldSha)).state
  {
    var p := StashSessions(s, StashMessage(oldSha));
    var sw := CreateOrCheckoutBranch(p.state, newBranch.value, Target(p.state, newSha));
    if sw.result {
      RestoreKeepsHistory(sw.state, p.result, newSha);
    }
  }

  /** On success the branch named after the main repository's branch is
      checked out at the target, whatever it pointed to before, and no other
      branch moved. The target is the commit tagged for `newSha`, else the
      initial commit. */
  lemma SyncedBranchAtTarget(s: State, oldSha: string, newSha: string, newBranch: Option<string>)
    requires SyncCheckoutResult(s, oldSha, newSha, "1", newBranch).result.Synced?
    ensures var r := SyncCheckoutResult(s, oldSha, newSha, "1", newBranch).state;
      var t := Target(s, newSha);
      && newBranch.Some? && t.Some?
      && r.head == newBranch.value
      && r.branches == s.branches[newBranch.value := t.value]
      && r.commits == s.commits && r.failing == s.failing && r.initialized
      && (FindCommitByMainSha(s, newSha).Some? ==> t == FindCommitByMainSha(s, newSha))
  {
    var branch := newBranch.value;
    var p := StashSessions(s, StashMessage(oldSha));
    StashKeepsHistory(s, StashMessage(oldSha));
    assert Target(p.state, newSha) == Target(s, newSha) by {
      assert HeadCommit(p.state) == HeadCommit(s);
    }
    var sw := CreateOrCheckoutBranch(p.state, branch, Target(p.state, newSha));
    RestoreKeepsHistory(sw.state, p.result, newSha);
  }

  lemma FirstRootIdempotent(c: Commit)
    ensures FirstRoot(FirstRoot(c)) == FirstRoot(c)
  {
  }

  /** Running the sync a second time with the same arguments leaves every
      branch where the first run put it. */
  lemma SecondRunKeepsBranches(s: State, oldSha: string, newSha: string, newBranch: Option<string>)
    requires SyncCheckoutResult(s, oldSha, newSha, "1", newBranch).result.Synced?
    ensures var r1 := SyncCheckoutResult(s, oldSha, newSha, "1", newBranch).state;
      SyncCheckoutResult(r1, oldSha, newSha, "1", newBranch).state.branches == r1.branches
  {
    SyncedBranchAtTarget(s, oldSha, newSha, newBranch);
    var branch := newBranch.value;
    var r1 := SyncCheckoutResult(s, oldSha, newSha, "1", newBranch).state;
    var t := Target(s, newSha).value;
    var p := StashSessions(r1, StashMessage(oldSha));
    StashKeepsHistory(r1, StashMessage(oldSha));
    assert Target(p.state, newSha) == Some(t) by {
      assert FindCommitByMainSha(p.state, newSha) == FindCommitByMainSha(s, newSha);
      if FindCommitByMainSha(s, newSha).None? {
        assert HeadCommit(p.state) == Some(t);
        FirstRootIdempotent(HeadCommit(s).value);
      }
    }
    var sw := CreateOrCheckoutBranch(p.state, branch, Some(t));
    if sw.result {
      RestoreKeepsHistory(sw.state, p.result, newSha);
      assert r1.branches[branch := t] == r1.branches;
    }
  }

  /** The pop step on a clean tree at the commit entry `i` was taken on,
      when entry `i` is the first whose line names `newSha`: the tree, the
      index and the stash become those the entry saved and the rest. */
  lemma RestoreOntoBase(s: State, stashed: bool, newSha: string, i: nat)
    requires s.initialized && !HasChanges(s) && GitClean !in s.failing
    requires GitStashList !in s.failing && GitStashPop !in s.failing
    requires i < |s.stash| && s.stash[i].message == StashMessage(newSha)
    requires forall j :: 0 <= j < i ==> !Contains(StashLine(j, s.stash[j]), StashMessage(newSha))
    requires HeadCommit(s) == Some(s.stash[i].base)
    ensures var r := Restore(s, stashed, newSha);
      && r.result == Synced(stashed, true, Some(StashRef(i)), true)
      && r.state.worktree == s.stash[i].worktree && r.state.tracked == s.stash[i].tracked
      && r.state.stash == s.stash[..i] + s.stash[i + 1..]
  {
    var pattern := StashMessage(newSha);
    CleanHasNoLocalChanges(s);
    assert TrackedView(s) == s.worktree;
    assert CleanUntrackedFiles(s) == Step(s, true);
    var e := s.stash[i];
    ContainsInfix(StashRef(i) + ": On " + e.branch + ": ", pattern, "");
    assert StashLine(i, e) + "" == StashLine(i, e);
    FindStashFirstMatch(s, pattern);
    var j :| 0 <= j < |s.stash| && FindStashByMessage(s, pattern) == Some(StashRef(j))
      && ParseStashRef(StashRef(j)) == Some(j)
      && Contains(StashLine(j, s.stash[j]), pattern)
      && forall k :: 0 <= k < j ==> !Contains(StashLine(k, s.stash[k]), pattern);
    assert j == i;
    StashRefShape(i);
    assert StashRef(i) != "";
    PopRefOntoBase(s, i);
  }

  /** From a clean tree the switch to the target always succeeds, leaving a
      clean tree at the target for the restore step. */
  lemma MoveFromClean(s: State, stashed: bool, branch: string, newSha: string)
    requires s.initialized && !HasChanges(s) && GitCheckout !in s.failing && Target(s, newSha).Some?
    ensures var sw := SwitchTo(s, branch, Target(s, newSha).value);
      && MoveToTarget(s, stashed, branch, newSha) == Restore(sw, stashed, newSha)
      && sw.initialized && !HasChanges(sw) && HeadCommit(sw) == Target(s, newSha)
      && sw.stash == s.stash && sw.failing == s.failing
  {
    var t := Target(s, newSha).value;
    SwitchFromClean(s, t.tree);
    SwitchToFromClean(s, branch, t);
  }

  /** Checking out a commit whose sessions were stashed when it was left
      brings them back: from a clean store, when the target is the commit
      the first entry for `newSha` was taken on, the run gives back exactly
      what that entry saved and drops it. */
  lemma ReturnRestoresSessions(s: State, oldSha: string, newSha: string, branch: string, i: nat)
    requires s.initialized && !HasChanges(s)
    requires branch != "" && branch != "HEAD"
    requires GitStatus !in s.failing && GitCheckout !in s.failing && GitClean !in s.failing
    requires GitStashList !in s.failing && GitStashPop !in s.failing
    requires i < |s.stash| && s.stash[i].message == StashMessage(newSha)
    requires forall j :: 0 <= j < i ==> !Contains(StashLine(j, s.stash[j]), StashMessage(newSha))
    requires Target(s, newSha) == Some(s.stash[i].base)
    ensures var r := SyncCheckoutResult(s, oldSha, newSha, "1", Some(branch));
      && r.result == Synced(true, true, Some(StashRef(i)), true)
      && r.state.worktree == s.stash[i].worktree
      && r.state.tracked == s.stash[i].tracked
      && r.state.stash == s.stash[..i] + s.stash[i + 1..]
  {
    assert StashSessions(s, StashMessage(oldSha)) == Step(s, true);
    assert SyncCheckoutResult(s, oldSha, newSha, "1", Some(branch)) == MoveToTarget(s, true, branch, newSha);
    MoveFromClean(s, true, branch, newSha);
    RestoreOntoBase(SwitchTo(s, branch, Target(s, newSha).value), true, newSha, i);
  }

  /** A run from a store with changes, up to the restore step: the changes
      are stashed as entry 0, and the switch leaves a clean tree at the
      target. */
  lemma StashThenMove(s: State, oldSha: string, newSha: string, branch: string)
    requires HasUncommittedChanges(s) && HeadCommit(s).Some?
    requires branch != "" && branch != "HEAD"
    requires GitStashPush !in s.failing && GitCheckout !in s.failing
    requires Target(s, newSha).Some?
    ensures var saved := StashEntry(s.head, StashMessage(oldSha), HeadCommit(s).value, s.worktree, s.tracked);
      var p := s.(stash := [saved] + s.stash, worktree := HeadTree(s), tracked := HeadTree(s).Keys);
      var sw := SwitchTo(p, branch, Target(s, newSha).value);
      && SyncCheckoutResult(s, oldSha, newSha, "1", Some(branch)) == Restore(sw, true, newSha)
      && sw.initialized && !HasChanges(sw) && HeadCommit(sw) == Target(s, newSha)
      && sw.stash == [saved] + s.stash && sw.failing == s.failing
  {
    var saved := StashEntry(s.head, StashMessage(oldSha), HeadCommit(s).value, s.worktree, s.tracked);
    var p := s.(stash := [saved] + s.stash, worktree := HeadTree(s), tracked := HeadTree(s).Keys);
    assert StashSessions(s, StashMessage(oldSha)) == Step(p, true);
    assert HeadCommit(p) == HeadCommit(s);
    assert !HasChanges(p);
    assert FindCommitByMainSha(p, newSha) == FindCommitByMainSha(s, newSha);
    assert GetInitialCommit(p) == GetInitialCommit(s);
    assert SyncCheckoutResult(s, oldSha, newSha, "1", Some(branch)) == MoveToTarget(p, true, branch, newSha);
    MoveFromClean(p, true, branch, newSha);
  }

  /** With one entry pushed on top, no line before `i + 1` names the pattern
      when neither the new entry's nor a shifted earlier one's does. */
  lemma NoEarlierLine(saved: StashEntry, stash: seq<StashEntry>, i: nat, pattern: string)
    requires i < |stash| && !Contains(StashLine(0, saved), pattern)
    requires forall j :: 0 <= j < i ==> !Contains(StashLine(j + 1, stash[j]), pattern)
    ensures forall j :: 0 <= j < i + 1 ==> !Contains(StashLine(j, ([saved] + stash)[j]), pattern)
  {
    forall j | 0 <= j < i + 1 ensures !Contains(StashLine(j, ([saved] + stash)[j]), pattern) {
      if j > 0 {
        assert ([saved] + stash)[j] == stash[j - 1];
      }
    }
  }

  /** The same from a store with changes: they are stashed first, as entry
      0, and the entry for `newSha` is found one place further down. */
  lemma ReturnFromChangesRestoresSessions(s: State, oldSha: string, newSha: string, branch: string, i: nat)
    requires HasUncommittedChanges(s) && HeadCommit(s).Some?
    requires branch != "" && branch != "HEAD"
    requires GitStashPush !in s.failing && GitCheckout !in s.failing && GitClean !in s.failing
    requires GitStashList !in s.failing && GitStashPop !in s.failing
    requires i < |s.stash| && s.stash[i].message == StashMessage(newSha)
    requires var saved := StashEntry(s.head, StashMessage(oldSha), HeadCommit(s).value, s.worktree, s.tracked);
      !Contains(StashLine(0, saved), StashMessage(newSha))
    requires forall j :: 0 <= j < i ==> !Contains(StashLine(j + 1, s.stash[j]), StashMessage(newSha))
    requires Target(s, newSha) == Some(s.stash[i].base)
    ensures var r := SyncCheckoutResult(s, oldSha, newSha, "1", Some(branch));
      var saved := StashEntry(s.head, StashMessage(oldSha), HeadCommit(s).value, s.worktree, s.tracked);
      && r.result == Synced(true, true, Some(StashRef(i + 1)), true)
      && r.state.worktree == s.stash[i].worktree
      && r.state.tracked == s.stash[i].tracked
      && r.state.stash == [saved] + s.stash[..i] + s.stash[i + 1..]
  {
    var saved := StashEntry(s.head, StashMessage(oldSha), HeadCommit(s).value, s.worktree, s.tracked);
    var p := s.(stash := [saved] + s.stash, worktree := HeadTree(s), tracked := HeadTree(s).Keys);
    var sw := SwitchTo(p, branch, Target(s, newSha).value);
    StashThenMove(s, oldSha, newSha, branch);
    NoEarlierLine(saved, s.stash, i, StashMessage(newSha));
    RestoreOntoBase(sw, true, newSha, i + 1);
    DropBehindHead(saved, s.stash, i);
  }
}
