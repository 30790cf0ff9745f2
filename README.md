# cc-sync session store, modelled in Dafny

cc-sync keeps a second git repository, the *session store*, next to a main
git project. It holds the project's Claude session transcripts (`.jsonl`
files). The code modelled here does five things:

- It tags store commits with the main-repository commit they belong to.
- It finds the context for a main commit, or for its nearest ancestor, with a
  breadth-first walk.
- On every branch checkout in the main repository, it moves the store to the
  sessions of the commit checked out. The sessions being left are stashed and
  restored later.
- It syncs the store with a Supabase Storage bucket by uploading and
  downloading a git bundle (`cc-sync`).
- It merges, parses, validates and serialises session transcripts, and it
  computes continuity, snapshot metadata, the snapshot index and the local
  state file.

Layout, one module per source file:

| file | module | models |
|---|---|---|
| `store_model.dfy` | `StoreModel` | The store as a value: commits identified by content, branches, HEAD, working tree, tracked paths, the stash (newest first), remotes, and the set of git commands that fail. One function per git command the core runs. |
| `git_ops.dfy` | `GitOps` | `SessionStore`, a class whose fields are the store and whose methods run the commands of `git_ops.py` step by step. Each is proved equal to its `StoreModel` function. It also holds the ancestor walk `find_context_for_commit_or_ancestor` as a loop and the parsing of `rev-list --parents` output. |
| `checkout_sync.dfy` | `CheckoutSync` | The `sync_checkout` state machine and its `main`. |
| `sync_ops.dfy` | `SyncOps` | Supabase config and URLs; the bucket (class `Storage`) and the temporary files (class `TempDir`); pull, push, sync, `add_remote` and `has_remote`. |
| `sync_cli.dfy` | `SyncCli` | `cc-sync` in its two modes (normal sync, and bootstrap with init and pull) and its `main`. |
| `session.dfy` | `Session` | The `SessionInfo` record. Its `message_count` is updated in place, so it is a class. |
| `parser.dfy` | `Parser` | `Message`, `to_dict`, the JSONL parser, the validator and the serialiser. |
| `merger.dfy` | `Merger` | `merge_sessions` (boundary markers and re-linking) and `get_message_stats`. |
| `continuity.dfy` | `Continuity` | `get_parent_session_ids` and `analyze_continuity`. |
| `metadata.dfy` | `Metadata` | The context id, `create_metadata`, and the snapshot index and local state updated in place. |
| `path.dfy` | `PathEncoding` | `encode_path` and the storage-path composition. |
| `text.dfy`, `wrappers.dfy` | `Text`, `Wrappers` | String helpers (strip, split, join, substring, lexicographic order, decimal digits) and `Option`. |

Parameters stand in for the environment:

- Whatever git, the file system, the network, the clock, the uuid generator
  or the JSON codec would supply is passed in.
- `Env` is the three `SUPABASE_*` variables.
- `MainRepo` maps a main-repository sha to the output of
  `git rev-list --parents -n 1`.
- A `Decoder`/`Dumper` pair stands for `json.loads`/`json.dumps`.
- `snapshots` maps a commit sha to the metadata stored for it.
- `now` is the ISO text of the current UTC time.

A store command that can fail takes the result from `State.failing`. That set
names the git commands that exit with a non-zero status. This is how the
warning-only and error paths are reached.

## Model

| member | source | states |
|---|---|---|
| `GitOps.SessionStore.constructor` | cc_context/core/git_ops.py:13-22 | The store object holds exactly the given state. |
| `GitOps.SessionStore.HasUncommittedChanges` | cc_context/core/git_ops.py:239-262 | True exactly when the store exists, `git status` works, and some tracked path differs from HEAD or an untracked file exists. A failing status reads as "no changes". |
| `GitOps.SessionStore.RecordCommit` | cc_context/core/git_ops.py:56-62 | `git commit`, optionally `--allow-empty`. On success the state is the one-commit step; on failure nothing changes. |
| `GitOps.SessionStore.CommitSessions` | cc_context/core/git_ops.py:141-184 | The new state and the result are those of `commit_sessions`, with every tracked change counted as staged: False on an uninitialised store or a failing status; a no-op returning True on a clean tree; otherwise one commit tagged `Context for main repo commit <sha>`, holding the tracked working-tree content. |
| `GitOps.SessionStore.InitClaudeRepo` | cc_context/core/git_ops.py:25-104 | The new state is that of `init_claude_repo`: `git init`; unless skipped, the empty commit "Empty initial state"; then, when top-level `.jsonl` files exist, `git add *.jsonl` and a commit naming the main HEAD; each failure returns False at once. |
| `GitOps.SessionStore.StashSessions` | cc_context/core/git_ops.py:294-327 | A clean store returns True and keeps the stash. Otherwise one entry goes on top, holding the message, the commit HEAD was on, and the tracked and untracked files; the tree goes back to HEAD's snapshot. |
| `GitOps.SessionStore.FindStashByMessage` | cc_context/core/git_ops.py:418-452 | The loop over the `git stash list` lines returns the reference of the first line containing the pattern (the stripped text before its first `:`), else None. |
| `GitOps.SessionStore.PopStash` | cc_context/core/git_ops.py:455-482 | `git stash pop <ref>` applies that entry's changes since the commit it was taken on to the current tree, leaves every other path as it is, and removes the entry. A bad reference, or a changed path that is now neither as on the entry's base nor as in the entry, makes it fail with no change. An untracked file the entry holds cannot replace an existing file, even one with the same content. |
| `GitOps.SessionStore.CleanUntrackedFiles` | cc_context/core/git_ops.py:265-291 | Every untracked file leaves the working tree; tracked files stay. |
| `GitOps.SessionStore.Switch` | cc_context/core/git_ops.py:540-546 | Checking a commit out onto a branch keeps local changes where the target does not differ. |
| `GitOps.SessionStore.CreateOrCheckoutBranch` | cc_context/core/git_ops.py:518-570 | With a commit, `checkout -B` force-points the branch there. Without one, it checks out the existing branch, or `-b` creates one at HEAD. It returns False on an uninitialised store. |
| `GitOps.SessionStore.CreateBundle` | cc_context/core/sync_ops.py:258-266 | `git bundle create --all` holds every commit and branch; it fails on a store without refs. |
| `GitOps.SessionStore.FetchBundle` | cc_context/core/sync_ops.py:192-200 | `git fetch <bundle> b:b` makes the bundle's branch the local one and adds its commits. It refuses when the bundle lacks the branch, or when the branch is the one HEAD names, born or unborn. |
| `GitOps.SessionStore.MergeTheirs` | cc_context/core/sync_ops.py:202-209 | `git merge b -X theirs --allow-unrelated-histories`: a branch HEAD already contains changes nothing. An unborn HEAD, or one the branch contains, fast-forwards. Otherwise a merge commit of both sides is made, merged path by path against the newest common ancestor, and the incoming content wins where both sides changed a path. A delete/modify conflict, or local changes in the way, make it fail with no change. |
| `GitOps.SessionStore.FindContextForCommitOrAncestor` | cc_context/core/git_ops.py:607-647 | None on an uninitialised store; otherwise the walk of `SearchAncestors` with the store's tag lookup and the parents read from `main`. The result is the functional `ContextFor`. Its ghost trace shows each sha looked up at most once, at most `max_depth` lookups, the start first, and the result the hit on the last lookup with every earlier lookup a miss. |
| `GitOps.ParentsOfRevListLine` | cc_context/core/git_ops.py:573-601 | `get_commit_parents` (`GetCommitParents`): for the output `sha p1 … pn\n`, the parents are exactly `p1 … pn` (empty for a lone sha). |
| `GitOps.ParentsOfFailure` | cc_context/core/git_ops.py:603-604 | A failing `rev-list` gives no parents. |
| `GitOps.SearchAncestors` | cc_context/core/git_ops.py:626-647 | For any tag lookup and parent reader, the FIFO loop returns the functional `Walk` from the start commit. Its ghost trace has distinct shas, at most `max_depth` of them, the start first. The result is the hit on the last lookup, and every earlier lookup missed. Every sha looked up is the start commit or one of its ancestors. |
| `GitOps.WalkFindsAncestor` | cc_context/core/git_ops.py:630-645 | When every queued sha is the start or an ancestor of it, any result of the walk is the lookup of such a sha. |
| `GitOps.ContextIsTagged` | cc_context/core/git_ops.py:626-645 | Any context found is the store commit tagged for the given main-repository sha or for one of its ancestors. |
| `GitOps.DirectHit` | cc_context/core/git_ops.py:637-640 | A start commit with context is returned without reading its parents. |
| `GitOps.NoBudgetNoContext` | cc_context/core/git_ops.py:629 | With `max_depth < 1` the walk returns None. |
| `GitOps.InheritsFromParent` | cc_context/core/git_ops.py:607-647 | A commit without context inherits its single parent's context. |
| `GitOps.FirstParentFirst` | cc_context/core/git_ops.py:629-645 | For a merge commit, the first parent is searched before the second. |
| `StoreModel.CleanHasNoLocalChanges` | cc_context/core/git_ops.py:239-262 | A store without uncommitted changes has no locally changed path. |
| `StoreModel.SwitchFromClean` | cc_context/core/git_ops.py:540-546 | From a clean tree, every checkout is possible and yields exactly the target snapshot. |
| `StoreModel.SwitchToFromClean` | cc_context/core/git_ops.py:540-546 | Moving a branch from a clean tree leaves a clean tree holding the commit's snapshot. |
| `StoreModel.LastMatchingSpec` | cc_context/core/git_ops.py:347-356 | None exactly when no commit message contains the pattern. Otherwise it returns a matching commit with no later match (the newest, as `git log -n 1` prints it). |
| `StoreModel.FindCommitByMainSha` | cc_context/core/git_ops.py:330-359 | None exactly when the store is uninitialised, `git log` fails, or no commit of the store has a message containing the sha. Otherwise the result is a store commit whose message contains it; `LastMatchingSpec` makes it the newest. The commits `git stash` makes are not searched (see Findings). |
| `StoreModel.ReturnLandsOnStashCommit` | cc_context/core/git_ops.py:347-349 | The search as written, which also walks `refs/stash`, returns the stash's own commit for a return to `Y` from a clean store whose newest entry is `sessions-for-Y`. That commit is no store commit and holds the stashed file, and `checkout -B` forces the branch onto it. The search across branches returns the tagged commit. |
| `StoreModel.StashOnTaggedCommitShadows` | cc_context/core/git_ops.py:347-349 | With the newest entry taken on the commit tagged for a sha, the search as written for that sha returns one of the entry's own commits, never the tagged one: the index commit quotes the tag in its first line. |
| `StoreModel.FirstRoot` | cc_context/core/git_ops.py:362-385 | Following first parents ends at a commit without parents. |
| `StoreModel.GetInitialCommit` | cc_context/core/git_ops.py:362-385 | Some exactly when the store is initialised, `rev-list` works and HEAD is born. Then the commit has no parents and HEAD reaches it. |
| `StoreModel.CommitThenFind` | cc_context/core/git_ops.py:167-179 | A successful commit on a changed store adds one commit with the tag message, which is HEAD and is exactly what `find_commit_by_main_sha` then returns (cited with git_ops.py:348-356). |
| `StoreModel.CommitCleanIsNoOp` | cc_context/core/git_ops.py:167-169 | On a clean tree `commit_sessions` returns True and changes nothing. |
| `StoreModel.CommitUntrackedOnlyFails` | cc_context/core/git_ops.py:159-184 | When the only change is an untracked file, the status shows a change, but `git commit` without `git add` has nothing staged and fails, so the result is False. |
| `StoreModel.StashRefShape` | cc_context/core/git_ops.py:446 | A reference `stash@{i}` has no `:` and no blank, and it carries `i` in decimal. |
| `StoreModel.ParseStashRefOf` | cc_context/core/git_ops.py:471-477 | The reference `stash@{i}` names entry `i`. |
| `StoreModel.RefOfStashLine` | cc_context/core/git_ops.py:446 | The text before the first `:` of entry `i`'s line, stripped, is `stash@{i}`, which names entry `i`. |
| `StoreModel.RefOfLineOf` | cc_context/core/git_ops.py:446 | The extraction returns the stripped prefix before the first `:`. |
| `StoreModel.StashRefInjective` | cc_context/core/git_ops.py:446 | Different entries have different references. |
| `StoreModel.FirstLineWithNone` | cc_context/core/git_ops.py:443-449 | The scan finds nothing exactly when no line contains the pattern. |
| `StoreModel.FirstLineWithFirst` | cc_context/core/git_ops.py:443-449 | A found reference is that of the first line containing the pattern. |
| `StoreModel.FindStashFirstMatch` | cc_context/core/git_ops.py:418-452 | `find_stash_by_message` returns None exactly when no entry's line contains the pattern. Otherwise it returns `stash@{i}` for the first (newest) matching entry `i`. On an empty stash list the one empty output line matches only the empty pattern. |
| `StoreModel.FindStashNoEntries` | cc_context/core/git_ops.py:436-449 | With no stash entries the one empty output line matches only the empty pattern, giving the reference ""; any other pattern finds nothing. |
| `StoreModel.FindNewestStash` | cc_context/core/git_ops.py:443-447 | A stash just made with a message is the one found for it. |
| `StoreModel.StashRoundTrip` | cc_context/core/git_ops.py:294-327 | Stashing a changed store leaves a clean tree and one more entry, found as `stash@{0}`. Popping it on the unchanged HEAD (cited with git_ops.py:471-477) restores the working tree, the tracked paths and the stash list. |
| `StoreModel.StashTwiceIsOnce` | cc_context/core/git_ops.py:309-311 | A second stash right after the first changes nothing: stashing happens only when there are changes. |
| `StoreModel.PopAppliesChanges` | cc_context/core/git_ops.py:471-477 | After a pop, every path the entry changed since its base is as in the entry (content and whether it is tracked), and every other path is as it was before the pop. |
| `StoreModel.PopOntoBase` | cc_context/core/git_ops.py:471-477 | On the commit the entry was taken on, with nothing changed since, the pop can go ahead and gives back exactly the saved tree and tracked paths. |
| `StoreModel.PopRefOntoBase` | cc_context/core/git_ops.py:455-482 | `pop_stash(stash@{i})` on entry `i`'s base with a clean tree succeeds, restores what the entry saved, and drops exactly that entry. |
| `StoreModel.ForceResetBranch` | cc_context/core/git_ops.py:538-546 | `checkout -B name c` succeeds exactly when the store is initialised, checkout works, and local changes do not collide with the target. Then the branch is `c`, whatever it was before, and HEAD is on it; on failure nothing changes. |
| `StoreModel.CheckoutOrCreate` | cc_context/core/git_ops.py:547-566 | Without a commit, an existing branch is checked out unchanged. A missing one is created at the current HEAD commit (or stays unborn). |
| `StoreModel.UninitializedRefusesAll` | cc_context/core/git_ops.py:151-153 | On an uninitialised store, commit, stash, pop, clean and branch return False and change nothing. The lookups give None (cited with git_ops.py:306-307, 340-341, 369-370, 428-429, 465-466, 532-533). |
| `StoreModel.InitWithoutInitialCommit` | cc_context/core/git_ops.py:50-52 | `skip_initial_commit` gives an initialised store with no commit and no branch, and so no initial commit. |
| `StoreModel.InitCreatesEmptyRoot` | cc_context/core/git_ops.py:56-98 | A full init starts the history with the empty commit "Empty initial state". When init succeeds, that commit is the initial commit. |
| `StoreModel.Absorb` | cc_context/core/sync_ops.py:194-199 | Fetching keeps the local commits in order, adds every incoming one, and adds nothing else. |
| `StoreModel.NewestCommonNone` | cc_context/core/sync_ops.py:203-208 | The merge base is missing exactly when no known commit is an ancestor of both sides, as for unrelated histories. |
| `StoreModel.NewestCommonNewest` | cc_context/core/sync_ops.py:203-208 | A merge base is a known commit both sides reach, with no later such commit. |
| `StoreModel.MergedTreeAt` | cc_context/core/sync_ops.py:203-208 | Where no delete/modify conflict stops the merge, a path the incoming side changed since the base gets the incoming version, and any other path keeps ours. |
| `StoreModel.MergeUpToDate` | cc_context/core/sync_ops.py:203-208 | Merging a branch that HEAD already contains changes nothing ("Already up to date"). |
| `StoreModel.MergeFastForward` | cc_context/core/sync_ops.py:203-208 | From a clean tree, with HEAD unborn or contained in the branch, the merge succeeds. HEAD becomes the branch's commit and the tree its snapshot; no commit is made. |
| `StoreModel.MergeTheirsWins` | cc_context/core/sync_ops.py:203-208 | For diverged histories, after a merge from a clean tree: HEAD is a new merge commit whose parents are the old HEAD and the branch, and it is added to the commits. The tree is HEAD's snapshot. Every path the incoming side changed since the merge base has the incoming content, and every other path keeps ours. |
| `StoreModel.MergeUnrelatedTheirsWins` | cc_context/core/sync_ops.py:203-208 | With `--allow-unrelated-histories` and no common ancestor, every incoming path has the incoming content, and paths only ours has are kept. |
| `StoreModel.MergeDeleteConflictStops` | cc_context/core/sync_ops.py:203-208 | A path deleted on one side and changed on the other makes the merge fail. |
| `CheckoutSync.SyncCheckout` | cc_context/cli/checkout_sync.py:28-110 | The sequence of store calls ends in the state and outcome of `SyncCheckoutResult`. That function runs gate, branch check, detached check, stash `sessions-for-<old>`, direct lookup then initial commit, `checkout -B`, clean, and find and pop, with the same early returns and warning-only steps. |
| `CheckoutSync.CheckoutSyncMain` | cc_context/cli/checkout_sync.py:113-131 | A wrong argument count exits 1 and touches nothing. Otherwise the exit status is 0 and the store is `sync_checkout`'s. |
| `CheckoutSync.FileCheckoutIgnored` | cc_context/cli/checkout_sync.py:40-41 | A checkout type other than `"1"` changes nothing. |
| `CheckoutSync.GuardsLeaveStoreUntouched` | cc_context/cli/checkout_sync.py:44-57 | An uninitialised store, an unreadable or empty main branch, or `HEAD` (detached, git_ops.py:515) leaves the store untouched, with no stash and no branch move. |
| `CheckoutSync.DetachedOnlyForHead` | cc_context/core/git_ops.py:505-515 | `is_detached_head`: on an initialised store with a non-empty main branch name, the run stops as detached exactly when the name is `HEAD`, and then the store is untouched (cited with checkout_sync.py:55-57). |
| `CheckoutSync.StashKeepsHistory` | cc_context/cli/checkout_sync.py:61-65 | The preserve step never changes commits, branches or HEAD, whether it succeeds or only warns. |
| `CheckoutSync.RestoreKeepsHistory` | cc_context/cli/checkout_sync.py:94-110 | Clean and restore always complete the run, whatever their results, and never move a branch. |
| `CheckoutSync.NoHistoryKeepsBranches` | cc_context/cli/checkout_sync.py:67-78 | Without a direct match or an initial commit, the run ends right after preserve, with the branches unchanged. |
| `CheckoutSync.SwitchFailureStops` | cc_context/cli/checkout_sync.py:80-90 | A failed branch switch ends the run after preserve, before clean and restore. |
| `CheckoutSync.SyncedBranchAtTarget` | cc_context/cli/checkout_sync.py:67-92 | On success, the store branch named after the main branch points at the target, and HEAD is on it. The target is the direct match when one exists, else the initial commit. Nothing else in the history changes. |
| `CheckoutSync.FirstRootIdempotent` | cc_context/core/git_ops.py:374-382 | The initial commit of the initial commit is itself. |
| `CheckoutSync.SecondRunKeepsBranches` | cc_context/cli/checkout_sync.py:67-92 | Running the same checkout again leaves the branches where the first run put them. |
| `CheckoutSync.ReturnRestoresSessions` | cc_context/cli/checkout_sync.py:99-108 | From a clean store, when the first entry whose line names `sessions-for-<new>` is entry `i` and the target is the commit that entry was taken on, the run pops `stash@{i}`. The working tree and the tracked paths become the saved ones, and exactly that entry leaves the stash. |
| `CheckoutSync.RestoreOntoBase` | cc_context/cli/checkout_sync.py:94-110 | Clean, find and pop on a clean tree at entry `i`'s base, when entry `i` is the first match: the outcome is restored from `stash@{i}`, with the entry's tree and tracked paths and the stash without it. |
| `CheckoutSync.MoveFromClean` | cc_context/cli/checkout_sync.py:67-92 | From a clean tree the switch to the target always succeeds and the run goes on to the restore step, on a clean tree at the target with the stash unchanged. |
| `CheckoutSync.StashThenMove` | cc_context/cli/checkout_sync.py:61-92 | From a store with changes, the run stashes them as entry 0 (with the commit they were taken on) and then switches, leaving a clean tree at the target before the restore step. |
| `CheckoutSync.ReturnFromChangesRestoresSessions` | cc_context/cli/checkout_sync.py:61-110 | The same return from a store with changes: they are stashed first, the entry for the new sha is found one place down as `stash@{i+1}`, and the run restores it. The new entry stays on top. |
| `SyncOps.ConfigSpec` | cc_context/core/sync_ops.py:17-31 | `get_supabase_config` (`GetSupabaseConfig`): the config exists exactly when URL, key and bucket are all set and non-empty. The URL comes back with every trailing `/` removed and nothing else changed. |
| `SyncOps.StorageUrlIsDownloadUrl` | cc_context/core/sync_ops.py:34-50 | `get_storage_url` (`GetStorageUrl`) gives `<url>/storage/v1/object/public/<bucket>/repo.bundle`, with the configured bucket, whatever bucket is passed. |
| `SyncOps.Storage.constructor` | cc_context/core/sync_ops.py:179 | A bucket service starts with the given objects and no requests. |
| `SyncOps.Storage.HandleGet` | cc_context/core/sync_ops.py:179-185 | A GET does not change the bucket, and it is logged. It answers 200 with the object, 404 for a missing one, 400 for a URL outside the bucket, or nothing when the service is unreachable. |
| `SyncOps.Storage.HandlePost` | cc_context/core/sync_ops.py:274-279 | A POST of a new object stores it (200). An existing object gives 409 and stays as it was. Both are logged. |
| `SyncOps.Storage.HandlePut` | cc_context/core/sync_ops.py:282-293 | A PUT replaces an existing object (200). A missing one gives 404. |
| `SyncOps.TempDir.constructor` | cc_context/core/sync_ops.py:188 | There are no temporary files at first. |
| `SyncOps.TempDir.Create` | cc_context/core/sync_ops.py:188-190 | A new empty temporary file under a fresh name. |
| `SyncOps.TempDir.Write` | cc_context/core/sync_ops.py:189 | Writing sets that file's content only. |
| `SyncOps.TempDir.Unlink` | cc_context/core/sync_ops.py:216 | `unlink(missing_ok=True)` removes that file, present or not. |
| `SyncOps.AddRemote` | cc_context/core/sync_ops.py:100-146 | `set-url` when a non-empty URL is configured, `remote add` otherwise; `remote add` fails for a name already present. It returns False on an uninitialised store. |
| `SyncOps.PullFromRemote` | cc_context/core/sync_ops.py:149-223 | At most one GET. The bucket is unchanged, and the temporary files end as they began on every path. The store and the result are `PullResult`'s: 404, an HTTP error or a network error return False before any fetch; otherwise fetch `b:b`, then merge preferring the remote. |
| `SyncOps.PushToRemote` | cc_context/core/sync_ops.py:226-309 | The temporary files end as they began. POST the bundle; on 409, PUT the same bundle once. The result is whether the last response was OK. |
| `SyncOps.SyncWithRemote` | cc_context/core/sync_ops.py:312-352 | Missing config returns False with no request. Otherwise it pulls; on any pull failure, not only 404, it pushes the store as the pull left it and returns push's result. |
| `SyncOps.UrlsNameOneObject` | cc_context/core/sync_ops.py:174 | The download URL and the upload URL (sync_ops.py:270) name the same object, `<bucket>/repo.bundle`. |
| `SyncOps.NothingWithoutStoreOrConfig` | cc_context/core/sync_ops.py:160-171 | Without a store or a config, pull and push (sync_ops.py:237-248) return False with no request and no effect. |
| `SyncOps.PullNotFound` | cc_context/core/sync_ops.py:181-183 | On 404 the pull returns False with no fetch or merge. |
| `SyncOps.EmptyBucketNotFound` | cc_context/core/sync_ops.py:179-181 | A bucket without the bundle answers the download with 404. |
| `SyncOps.PullSuccessFetched` | cc_context/core/sync_ops.py:192-212 | A successful pull fetched the bundle's branch into the local one, which is not the branch HEAD names, and then merged it. |
| `SyncOps.PullOntoCheckedOutBranchFails` | cc_context/core/sync_ops.py:194-199 | Pulling into the branch HEAD names, born or unborn, fails at the fetch. |
| `SyncOps.PushCreatesOrReplaces` | cc_context/core/sync_ops.py:273-298 | A reachable bucket ends up holding the store's bundle, and the push succeeds. It sends one POST for a new object, and POST then PUT for an existing one. |
| `SyncOps.PushThenPull` | cc_context/core/sync_ops.py:149-309 | After one store pushes, a clean second store pulls a branch it does not have checked out. When its HEAD is unborn or contained in the pushed branch, the pull succeeds, gets that branch, and fast-forwards: HEAD is the pushed commit and the files are exactly the pushed ones. |
| `SyncOps.PushThenPullDiverged` | cc_context/core/sync_ops.py:149-309 | For diverged histories, a successful pull after the push gets the branch, and HEAD becomes a merge commit of the old HEAD and the pushed commit. Every file the pushed side changed since the merge base has the pushed content; the others keep the local content. |
| `SyncOps.PulledBundle` | cc_context/core/sync_ops.py:149-200 | The fetch half of that pull: the downloaded bundle is the pushed one. The fetch adds its commits and the branch and keeps HEAD and a clean tree; the pull's result is then the merge's. |
| `SyncOps.CheckedOutBranchNeverPulls` | cc_context/core/sync_ops.py:346-352 | Syncing the branch HEAD names never pulls: with a config, the store is unchanged and the result, bucket and requests are those of the push that follows (see Findings). |
| `SyncOps.StagedPullFastForwards` | cc_context/core/sync_ops.py:192-212 | A pull that fetches into the remote-tracking ref and merges that ref succeeds on the branch HEAD names. From a clean store whose HEAD is unborn or behind, HEAD stays on that branch, which then holds the pushed commit, and the files are exactly the pushed ones. |
| `SyncOps.SyncPullsElsePushes` | cc_context/core/sync_ops.py:334-352 | No config: False, no request. A successful pull: True, with no push. A failing pull: the result is push's. |
| `SyncOps.AddRemoteThenHasRemote` | cc_context/core/sync_ops.py:100-146 | `add_remote` fails exactly for a name present with an empty URL. After success, `has_remote` holds and `get_remote_url` (sync_ops.py:71-97, 355-365) is the stripped URL. |
| `SyncOps.HasRemote` | cc_context/core/sync_ops.py:355-365 | True exactly when the store is initialised, `git remote get-url` works and the remote is configured. An empty URL still counts, since `get_remote_url` then returns "" (sync_ops.py:71-97). |
| `SyncCli.Sync` | cc_context/cli/sync.py:18-94 | The status, store, bucket and requests are `SyncCommandResult`'s. Outside a repository that is 1. An initialised store runs `sync_with_remote`. Otherwise: init without an initial commit, add remote, pull; each failure returns 1. |
| `SyncCli.SyncMain` | cc_context/cli/sync.py:97-108 | Without a URL argument the status is 1 and nothing changes. Otherwise the status, the store, the bucket and the requests sent are those of `sync` on the first argument. The temporary files end as they began in both cases. |
| `SyncCli.OutsideRepositoryFails` | cc_context/cli/sync.py:29-35 | Outside a git repository the command returns 1 and touches nothing. |
| `SyncCli.NormalModeStatus` | cc_context/cli/sync.py:40-57 | With a store, the status is 0 exactly when `sync_with_remote` succeeds, and 1 otherwise. |
| `SyncCli.BootstrapNeverPushes` | cc_context/cli/sync.py:60-83 | The bootstrap sends at most one request, a GET. It sends it only after init and add remote succeed. It never uploads. |
| `SyncCli.BootstrapCreatesNoCommit` | cc_context/cli/sync.py:67-94 | A successful bootstrap has created no commit of its own: every commit in the store came in the bundle. |
| `SyncCli.BootstrapOnDefaultBranchFails` | cc_context/cli/sync.py:67-83 | When `git init` starts the store on `main`, the branch the pull fetches, the bootstrap returns 1 without touching the bucket, and the store it leaves has no commits and no branches. |
| `SyncCli.StagedBootstrapSeeds` | cc_context/cli/sync.py:67-94 | With the pull through the remote-tracking ref, the bootstrap returns 0 whatever branch `git init` starts on (other than that ref), provided no existing file collides with a pushed one. HEAD stays on that branch at the pushed commit, and the working tree holds the pushed files. |
| `Session.SessionInfo.constructor` | cc_context/core/session.py:11-17 | A fresh record has the given fields and `message_count` 0. |
| `Parser.ToDict` | cc_context/core/parser.py:15-22 | Exactly the five keys `type`, `content`, `timestamp`, `uuid` and `parentUuid`. |
| `Parser.ToDictRoundTrip` | cc_context/core/parser.py:15-43 | Reading back a message's dictionary gives the message. |
| `Parser.EmptyObjectDefaults` | cc_context/core/parser.py:37-43 | An object without fields reads as type `unknown`, empty content and timestamp, uuid `missing-<n>` and no parent. |
| `Parser.MissingUuidsDiffer` | cc_context/core/parser.py:41 | Default uuids of different lines differ. |
| `Parser.LineMessages` | cc_context/core/parser.py:30-51 | One line gives at most one message. |
| `Parser.ParsedLength` | cc_context/core/parser.py:28-53 | The lines give no more messages than there are lines. |
| `Parser.ParseJsonl` | cc_context/core/parser.py:25-53 | The loop's messages are `Parsed(lines)`, no more than the lines. Blank and undecodable lines are skipped, and line numbers count every physical line from 1. |
| `Parser.ParsedConcat` | cc_context/core/parser.py:29-53 | Parsing two runs of lines is parsing each, with the second numbered on; the output follows line order. |
| `Parser.ParsedFromDecoded` | cc_context/core/parser.py:30-44 | Every parsed message comes from one non-blank line that decodes to an object, read with that line's number. |
| `Parser.ValidateMessages` | cc_context/core/parser.py:56-72 | True exactly when uuids are pairwise distinct and each timestamp is not less than the one before in string order; the empty list is valid. |
| `Parser.NonDecreasingOrdered` | cc_context/core/parser.py:67-70 | In a valid list no later timestamp is less than an earlier one. |
| `Parser.JsonLines` | cc_context/core/parser.py:76-78 | One JSON line per message. |
| `Parser.MessagesToJsonl` | cc_context/core/parser.py:75-79 | The lines joined with `\n`, with no trailing newline; an empty list gives `""`. |
| `Parser.ParsedDumps` | cc_context/core/parser.py:25-79 | Parsing the dumped lines gives the messages back, when the codec reads its own output back. |
| `Parser.JsonlRoundTrip` | cc_context/core/parser.py:25-79 | Parsing the lines of `messages_to_jsonl`'s text gives the messages back. |
| `Merger.Relink` | cc_context/core/merger.py:29-38 | One output message per piece. |
| `Merger.RelinkChain` | cc_context/core/merger.py:10-38 | Relinking changes only `parent_uuid`. The first message's is None. A boundary's is the uuid before it. A message's is the uuid before it unless that uuid is empty, when it is None. |
| `Merger.AppendSession` | cc_context/core/merger.py:16-37 | One pass of the loop appends, to output linked from `pieces`, the session's block: a boundary only after earlier output, then its messages, all linked in turn. The last uuid moves to the end of the block. |
| `Merger.MergeSessions` | cc_context/core/merger.py:6-40 | The nested loops return `Merged(sessions)`, and each session's `message_count` becomes its parsed message count. |
| `Merger.Originals` | cc_context/core/merger.py:28-37 | The non-boundary messages are at most all pieces. |
| `Merger.OriginalsConcat` | cc_context/core/merger.py:12-38 | Originals and boundary counts add up over concatenation. |
| `Merger.OriginalsPlain` | cc_context/core/merger.py:29-37 | A session's own pieces are its messages, with no boundary. |
| `Merger.PiecesCount` | cc_context/core/merger.py:12-38 | The pieces number the originals plus the boundaries. |
| `Merger.BlockParts` | cc_context/core/merger.py:13-37 | A session contributes its parsed messages, plus one boundary exactly when output precedes it. |
| `Merger.MergeKeepsMessages` | cc_context/core/merger.py:12-38 | The non-boundary messages of the merge are the sessions' parsed messages, concatenated in input order. Each keeps its type, content, timestamp and uuid. |
| `Merger.BoundariesBounded` | cc_context/core/merger.py:16-17 | At most `sessions − 1` boundaries. |
| `Merger.MergedLength` | cc_context/core/merger.py:12-38 | The output length is the total message count plus the boundaries, and at most the total plus `sessions − 1`. |
| `Merger.BlockMarker` | cc_context/core/merger.py:17-24 | A session's only boundary is its first piece, only after earlier output. It is type `system`, with uuid `boundary-<id>` and content `--- USER STARTED NEW SESSION (<id>) ---`. |
| `Merger.MarkersNameSessions` | cc_context/core/merger.py:16-26 | No boundary comes first, and every boundary names one of the sessions. |
| `Merger.SingleSession` | cc_context/core/merger.py:16-17 | A single session gets no boundary. |
| `Merger.EmptySessionAddsNothing` | cc_context/core/merger.py:17 | A session without messages, while the output is empty, adds nothing, not even a boundary. |
| `Merger.CountKind` | cc_context/core/merger.py:46-48 | A per-type count is at most the length. |
| `Merger.KindsBounded` | cc_context/core/merger.py:45-48 | user + assistant + system ≤ total. |
| `Merger.GetMessageStats` | cc_context/core/merger.py:43-50 | The total is the length, and the three type counts sum to no more than it. |
| `Merger.CountKindConcat` | cc_context/core/merger.py:46-48 | A type count is additive over concatenation. |
| `Merger.StatsOfConcat` | cc_context/core/merger.py:43-50 | The stats of a concatenation are the sums of the parts' stats. |
| `Continuity.GetParentSessionIds` | cc_context/core/continuity.py:30-34 | Empty when there is no metadata or no `sessions` key; otherwise exactly the ids of its entries. |
| `Continuity.LastEntry` | cc_context/core/continuity.py:49-51 | Some exactly when an entry has the id: then the last entry with that id. |
| `Continuity.ParentSessionMap` | cc_context/core/continuity.py:47-51 | The map has exactly the listed ids, each mapped to its last entry. |
| `Continuity.AnalyzeContinuity` | cc_context/core/continuity.py:37-77 | One report per session, in order. Each has its id and count, is continued exactly when the parent lists the id (nothing without a parent sha, continuity.py:42-44), and carries the parent's hash when continued. New messages are count − parent count (default 0) when continued with a different hash, else the count. |
| `Continuity.DescribesUnique` | cc_context/core/continuity.py:55-75 | The report of a session is determined by the session and the parent. |
| `Continuity.NoParentNothingContinued` | cc_context/core/continuity.py:42-46 | Without parent metadata nothing is continued and every message is new. |
| `Continuity.NoSessionsNothingContinued` | cc_context/core/continuity.py:31-32 | Metadata without a `sessions` key continues nothing either. |
| `Continuity.UnchangedFileCountsAll` | cc_context/core/continuity.py:59-67 | A continued session whose file hash is unchanged reports all its messages as new. |
| `Continuity.NewMessagesMayBeNegative` | cc_context/core/continuity.py:65-67 | A changed file with fewer messages than the parent recorded reports a negative count (2 − 5 = −3). |
| `Continuity.LastEntryDistinct` | cc_context/core/continuity.py:50-51 | With distinct ids, an id's entry in the map is the one listing it. |
| `Metadata.GenerateContextId` | cc_context/core/metadata.py:12-13 | `ctx-` followed by the first 8 characters of the uuid text: length 12 for a uuid. |
| `Metadata.AuthorOf` | cc_context/core/metadata.py:44 | `unknown` exactly when the author is missing, empty or itself `unknown`; never empty. |
| `Metadata.CreateMetadata` | cc_context/core/metadata.py:16-51 | One entry per zipped pair (min of the lengths), each taking the id and hash from the session and the counts from the report. Totals are the sums over the entries, the author defaults, the other fields are copied, and the timestamp is `now + "Z"`. |
| `Metadata.SumsConcat` | cc_context/core/metadata.py:37-38 | The totals add up over concatenation. |
| `Metadata.NewWithinTotal` | cc_context/core/metadata.py:37-48 | When no session has more new messages than messages, the new total is at most the total. |
| `Metadata.AsParent` | cc_context/core/continuity.py:19-27 | Metadata read back as a parent lists every session entry. |
| `Metadata.NextCaptureContinues` | cc_context/core/metadata.py:29-48 | In the next capture, a session recorded in the parent's metadata is continued, with the recorded hash. Its new messages are its count minus the recorded count, or its count when the hash is unchanged (cited with continuity.py:55-67). |
| `Metadata.IndexAfter` | cc_context/core/metadata.py:76-82 | The index gains or replaces only the entry for the commit, with `has_context`, the context id, the total messages, the session count and the timestamp. Every other entry is unchanged. |
| `Metadata.IndexLastWriteWins` | cc_context/core/metadata.py:76 | Recording the same commit twice keeps the second entry. |
| `Metadata.IndexUpdatesCommute` | cc_context/core/metadata.py:76 | Recording different commits commutes. |
| `Metadata.SnapshotIndex.constructor` | cc_context/core/metadata.py:70-74 | The loaded index, or an empty one without a file. |
| `Metadata.SnapshotIndex.UpdateIndex` | cc_context/core/metadata.py:66-85 | The index in place becomes `IndexAfter` of the old one. |
| `Metadata.HistoryAfterSpec` | cc_context/core/metadata.py:108-117 | After a capture, the history has the old ids plus the captured ones. Untouched ids are unchanged. Each captured id has last = commit and first_seen as before (the commit for a new id). Its capture_count is the old count (0 for new) plus the times it was captured. |
| `Metadata.RecaptureKeepsFirstSeen` | cc_context/core/metadata.py:115-117 | Capturing a known session again keeps first_seen, sets last, and adds one to the count. |
| `Metadata.LocalState.constructor` | cc_context/core/metadata.py:96-100 | The loaded state, or no last capture and an empty history without a file. |
| `Metadata.LocalState.UpdateLocalState` | cc_context/core/metadata.py:88-120 | `last_capture` becomes (commit, context id, `now + "Z"`). The history, updated in the loop, becomes `HistoryAfter` of the old one over the session ids in order. |
| `PathEncoding.EncodePath` | cc_context/utils/path.py:5-9 | The same length; every separator and every `_` becomes `-`, and every other character stays. |
| `PathEncoding.EncodedIsOneName` | cc_context/utils/path.py:7-8 | The encoding contains no separator and no `_`. |
| `PathEncoding.EncodeIdempotent` | cc_context/utils/path.py:7-9 | Each replacement step, and the whole encoding, applied twice equals applying it once. |
| `PathEncoding.EncodeConflates` | cc_context/utils/path.py:7-8 | Paths that differ only by `_` against separator, position by position, encode the same. |
| `PathEncoding.EncodeNotInjective` | cc_context/utils/path.py:7-8 | `/a_b` and `/a/b` encode the same. |
| `PathEncoding.StoragePath` | cc_context/utils/path.py:12-15 | `home/.claude/projects/<encode(repo root)>`. |
| `PathEncoding.EncodeExample` | test_utils.py:93-104 | `/Users/test/my-app` encodes to `-Users-test-my-app`. |
| `PathEncoding.StoragePathExample` | cc_context/utils/path.py:12-15 | The storage path of that repository under `/home/test`. |

## Left out

- Real git: `--grep` is a regular expression, but the model matches a substring. `FindCommitByMainSha` searches the commits made or fetched, which do not include the commits `git stash` makes; the search as written is `FindCommitByMainShaAsWritten` (see Findings). Rename detection and the index as a separate object are not modelled.
- CommitSessions: a tracked path's working-tree content counts as staged, as if `git add -u` had run first. With a tracked file modified but nothing `git add`ed, git's commit fails with nothing staged and `commit_sessions` returns False; the model commits and returns True. Its caller, cc_context/git_hooks/post_commit.py:61-66, stages the `*.jsonl` files with `add_session_files` first. `RecordCommit` (`git commit` in `init_claude_repo`) is modelled the same way.
- FindCommitByMainShaAsWritten: the newest entry's commits count as newer than every store commit; commit dates are not modelled. Older entries, reachable only through the stash reflog, are not searched, and neither does `git log --all` walk the reflog. The abbreviated commit name git writes into a stash commit's message is the parameter `abbrev`.
- MergeTheirs: the merge base is the newest common ancestor in the order commits were made or fetched; git's recursive merge of several bases is not modelled. Content is merged per path, not per hunk: two different contents of a path resolve to the incoming one. A merge that stops leaves no conflict state; it fails with no change.
- MergeTheirsWins: covers diverged histories only. The up-to-date and fast-forward cases are `MergeUpToDate` and `MergeFastForward`.
- PopStash: the index is not restored as a separate object, as `git stash pop` without `--index` does not restore it either. A pop whose changes collide with the current tree fails with no change; git can leave a partly applied tree with conflict markers there, and keeps the entry.
- SecondRunKeepsBranches: holds for the search across branches. With the search as written, a dirty second run stashes on the commit tagged for the new sha, and the search then gives that stash's index commit, so the branch moves (`StashOnTaggedCommitShadows`, in Findings).
- ReturnRestoresSessions: holds for the search across branches; with the search as written the target is the stash's own commit (`ReturnLandsOnStashCommit`, in Findings). It, and `ReturnFromChangesRestoresSessions`, require the target to be the commit the entry was taken on. On any other commit a pop applies only the entry's changes (`PopAppliesChanges`), so the tree is not exactly the saved one.
- PushThenPull: covers a pulling store whose HEAD is unborn or contained in the pushed branch. Diverged histories are `PushThenPullDiverged`, where only the files the pushed side changed since the merge base take its content. A pulling HEAD that already contains the pushed commit is up to date and keeps its own files (`MergeUpToDate`).
- `get_commit_parents` with `in_main_repo=False`: the core calls it only for the main repository (git_ops.py:643), so only that case is modelled.
- `get_initial_commit`: the model follows first parents to one root. After a merge `--allow-unrelated-histories`, `git rev-list --max-parents=0` can print several roots on several lines; that text is not modelled.
- `FetchBundle`: a non-fast-forward refusal (a fetch without `+` onto a diverged local branch) is not modelled. The refusal to update the branch HEAD names, born or unborn, is modelled.
- The store methods and `PullResult` follow the fetch `b:b` as written; the pull through the remote-tracking ref (`StagedPullResult`) is the corrected definition, used only by the lemmas of the two pull rows in Findings.
- `get_current_branch`, `get_claude_commit_sha`, `checkout_commit`, `add_session_files`, `get_main_repo_branch` and `get_repo_root`: the model does not include them. The branch name `get_main_repo_branch` returns is a parameter of the checkout synchroniser.
- HTTP: timeouts, redirects, and status codes other than 200, 404 and 409 are one class of errors. The network error is `None`. Auth headers and the multipart encoding are not modelled. The bucket routes a request by its URL prefix.
- Temporary files are natural-number keys, not paths. The bundle bytes are the `Bundle` value.
- `SyncCli.Sync`: the URL given to `sync_with_remote` lands in its unused `remote_name` parameter, so it has no effect. The model passes it the same way.
- `get_storage_url` ignores its `bucket` argument and uses the configured one; the model does the same.
- `PathEncoding.EncodePath`: `os.path.abspath` is not modelled; the path is taken as already absolute. `get_claude_storage_path` takes the home directory and the repository root as parameters. The source function has none and calls `Path.home()` and `get_repo_root()`.
- `Parser.ParseJsonl`: the file is given as its physical lines with the terminators removed; opening the file, UTF-8 decoding and universal-newline splitting are not modelled. `strip()` removes ASCII whitespace only.
- JSON encoding and decoding are the `Decoder`/`Dumper` parameters. An object is a map from keys to a text or `null`. A field holding `null`, or a non-text value, reads as that field's default. The source would store `None` or the value itself.
- `Merger.MergeSessions`: the boundary timestamp of a session without messages is the text of its modification time. The source puts the float itself there.
- cc_context/core/session.py: `discover_sessions` (the glob, the float modification times and their sort), `hash_file` (SHA-256) and `get_parent_commit_timestamp`. Only the `SessionInfo` record is modelled.
- `load_parent_metadata`: the snapshot directory is a map from commit sha to the metadata read back. Reading a file that is not valid JSON is not modelled.
- `save_metadata` and the JSON writing of `update_index` and `update_local_state`: file I/O. A loaded index or state file lacking the expected keys raises `KeyError` in the source; the model starts from well-formed contents.
- `datetime.utcnow()` and `uuid.uuid4()`: the ISO text of the time and the uuid text are parameters.
- `print` output and the traceback of `cc-checkout-sync`'s `main`. That `main` exits 0 on an exception; the model has no exceptions, so it exits 0 whenever the argument count is right.
- The git hooks, cc_context/cli/init.py, the storage stubs, setup.py and test_utils.py: the model does not include them. The commit tag and the initial commit they rely on are part of `commit_sessions` and `init_claude_repo`.

## Findings

| source | as written | input that shows it | evidently intended | confidence | as-written member | corrected member |
|---|---|---|---|---|---|---|
| cc_context/core/git_ops.py:347-349 | `git log --all --grep <sha> -n 1` also walks `refs/stash`, so the newest entry's commit `On b: sessions-for-<sha>` is found before the commit tagged for the sha | a clean store on `b` at the commit tagged for `Y`, newest entry stashed as `sessions-for-Y`; `sync_checkout(Z, Y, "1", b)` forces `b` onto the stash commit | the commit tagged for the sha on the store's branches ("across all branches", git_ops.py:346), which the restore step then pops the stash onto | not executed | `StoreModel.ReturnLandsOnStashCommit` | `StoreModel.FindCommitByMainSha` |
| cc_context/cli/checkout_sync.py:61-68 | the preserve step's stash has an index commit whose message quotes HEAD's subject, so once HEAD is the commit tagged for the new sha, the search returns that index commit | a second `sync_checkout` with the same new sha from a store with uncommitted changes | a repeated run leaves the branches where the first run put them | not executed | `StoreModel.StashOnTaggedCommitShadows` | `CheckoutSync.SecondRunKeepsBranches` |
| cc_context/core/sync_ops.py:194-199 | `git fetch <bundle> main:main` into a store whose HEAD names `main`: git refuses to update the branch HEAD names, even unborn, so the pull fails | `cc-sync <url>` in a repository with no store, where `git init` (git_ops.py:43) starts on `main` (`init.defaultBranch=main`) | fetch into a remote-tracking ref, then merge it, so the bootstrap seeds the store from the bucket | not executed | `SyncCli.BootstrapOnDefaultBranchFails` | `SyncCli.StagedBootstrapSeeds` |
| cc_context/core/sync_ops.py:346-352 | the same fetch fails on every sync of a store whose HEAD is `main`, so `sync_with_remote` falls back to a push and never brings in the remote's commits | a store on `main` (the checkout synchroniser names store branches after main-repository branches) and a bucket holding a newer bundle | pull the remote branch through the remote-tracking ref and merge it | not executed | `SyncOps.CheckedOutBranchNeverPulls` | `SyncOps.StagedPullFastForwards` |
