/** `cc-sync <supabase_url>` (cc_context/cli/sync.py). With a store in
    place it syncs (pull, else push). Without one it bootstraps: it creates
    the store without an initial commit, adds the remote and pulls, and never
    pushes. */
module SyncCli {
  import opened Wrappers
  import opened StoreModel
  import opened GitOps
  import opened SyncOps

  /** The exit status and what the command did. */
  datatype CliStep = CliStep(status: int, state: State, service: Service, requests: seq<Request>)

  const DefaultRemote: string := "supabase"
  const DefaultBranch: string := "main"

  /** `sync` as a function. `inGitRepo` is whether `get_repo_root` succeeds;
      `initialBranch` is the branch `git init` starts a new store on. */
  function SyncCommandResult(s: State, env: Env, sv: Service, inGitRepo: bool, supabaseUrl: string,
                             initialBranch: string): CliStep
  {
    if !inGitRepo then CliStep(1, s, sv, [])
    else if s.initialized then
      // the URL lands in the `remote_name` parameter
      var r := SyncResult(s, env, sv, DefaultBranch);
      CliStep(if r.ok then 0 else 1, r.state, r.service, r.requests)
    else BootstrapResult(s, env, sv, supabaseUrl, initialBranch, false)
  }

  /** The bootstrap: init without an initial commit, add the remote, pull.
      With `staged` the pull fetches into the staging ref (`StagedPullResult`);
      without it, into `main` itself, as `pull_from_remote` does. */
  function BootstrapResult(s: State, env: Env, sv: Service, supabaseUrl: string, initialBranch: string,
                           staged: bool): CliStep
  {
    var init := InitClaudeRepo(s, true, None, initialBranch);
    if !init.result then CliStep(1, init.state, sv, [])
    else
      var add := AddRemoteResult(init.state, supabaseUrl, DefaultRemote);
      if !add.result then CliStep(1, add.state, sv, [])
      else
        var pull := if staged then StagedPullResult(add.state, env, sv, DefaultRemote, DefaultBranch)
                    else PullResult(add.state, env, sv, DefaultBranch);
        CliStep(if pull.result then 0 else 1, pull.state, sv, PullRequests(add.state, env))
  }

  /** `sync`. */
  method Sync(store: SessionStore, storage: Storage, tmp: TempDir, env: Env, inGitRepo: bool,
              supabaseUrl: string, initialBranch: string) returns (status: int)
    requires tmp.Valid()
    modifies store, storage, tmp
    ensures tmp.Valid() && tmp.files == old(tmp.files)
    ensures var r := SyncCommandResult(old(store.Snapshot()), env, old(storage.Snapshot()), inGitRepo,
                                       supabaseUrl, initialBranch);
      && status == r.status && store.Snapshot() == r.state && storage.Snapshot() == r.service
      && storage.log == old(storage.log) + r.requests
  {
    if !inGitRepo {
      return 1;
    }
    if store.initialized {
      var ok := SyncWithRemote(store, storage, tmp, env, supabaseUrl, DefaultBranch);
      return if ok then 0 else 1;
    }
    var ok := store.InitClaudeRepo(true, None, initialBranch);
    if !ok {
      return 1;
    }
    ok := AddRemote(store, supabaseUrl, DefaultRemote);
    if !ok {
      return 1;
    }
    ok := PullFromRemote(store, storage, tmp, env, DefaultRemote, DefaultBranch);
    if !ok {
      return 1;
    }
    status := 0;
  }

  /** `main`: without an argument the status is 1 and nothing happens;
      otherwise the run is `sync`'s on the first argument. */
  method SyncMain(store: SessionStore, storage: Storage, tmp: TempDir, env: Env, inGitRepo: bool,
                  args: seq<string>, initialBranch: string) returns (status: int)
    requires tmp.Valid()
    modifies store, storage, tmp
    ensures |args| < 2 ==> status == 1
    ensures |args| < 2 ==> store.Snapshot() == old(store.Snapshot())
    ensures |args| < 2 ==> storage.Snapshot() == old(storage.Snapshot()) && storage.log == old(storage.log)
    ensures tmp.Valid() && tmp.files == old(tmp.files)
    ensures |args| >= 2 ==>
      var r := SyncCommandResult(old(store.Snapshot()), env, old(storage.Snapshot()), inGitRepo,
                                 args[1], initialBranch);
      && status == r.status && store.Snapshot() == r.state && storage.Snapshot() == r.service
      && storage.log == old(storage.log) + r.requests
  {
    if |args| < 2 {
      return 1;
    }
    status := Sync(store, storage, tmp, env, inGitRepo, args[1], initialBranch);
  }

  // ---------------------------------------------------------------------
  // Properties

  /** Outside a git repository the command fails and touches nothing. */
  lemma OutsideRepositoryFails(s: State, env: Env, sv: Service, url: string, initialBranch: string)
    ensures SyncCommandResult(s, env, sv, false, url, initialBranch) == CliStep(1, s, sv, [])
  {
  }

  /** With a store in place the status is 0 exactly when the sync succeeds. */
  lemma NormalModeStatus(s: State, env: Env, sv: Service, url: string, initialBranch: string)
    requires s.initialized
    ensures var r := SyncCommandResult(s, env, sv, true, url, initialBranch);
      && (r.status == 0 <==> SyncResult(s, env, sv, DefaultBranch).ok)
      && (r.status == 0 || r.status == 1)
  {
  }

  /** The bootstrap never uploads: it sends at most the one download, and
      only once the store exists and the remote is added. */
  lemma BootstrapNeverPushes(s: State, env: Env, sv: Service, url: string, initialBranch: string)
    requires !s.initialized
    ensures var r := SyncCommandResult(s, env, sv, true, url, initialBranch);
      && r.service == sv
      && |r.requests| <= 1
      && (forall k :: 0 <= k < |r.requests| ==> r.requests[k].verb == Get)
      && (r.requests != [] ==>
            InitClaudeRepo(s, true, None, initialBranch).result
            && AddRemoteResult(InitClaudeRepo(s, true, None, initialBranch).state, url, DefaultRemote).result)
  {
  }

  /** A successful bootstrap creates no commit of its own: every commit the
      store then knows came in the downloaded bundle. */
  lemma BootstrapCreatesNoCommit(s: State, env: Env, sv: Service, url: string, initialBranch: string)
    requires !s.initialized
    requires SyncCommandResult(s, env, sv, true, url, initialBranch).status == 0
    ensures var r := SyncCommandResult(s, env, sv, true, url, initialBranch);
      var b := GetResponse(sv, DownloadUrl(GetSupabaseConfig(env).value)).value.body.value;
      forall c :: c in r.state.commits ==> c in b.commits
  {
    var init := InitClaudeRepo(s, true, None, initialBranch).state;
    assert init.commits == [] && init.branches == map[];
    var add := AddRemoteResult(init, url, DefaultRemote).state;
    var b := GetResponse(sv, DownloadUrl(GetSupabaseConfig(env).value)).value.body.value;
    var s1 := FetchBundle(add, b, DefaultBranch).value;
    assert forall c :: c in s1.commits ==> c in b.commits;
    assert HeadCommit(s1).None?;
  }

  /** As written, the bootstrap cannot succeed when `git init` starts the
      store on `main`: the pull's fetch into `main` is refused, so the
      command exits 1 and the new store has no commit. */
  lemma BootstrapOnDefaultBranchFails(s: State, env: Env, sv: Service, url: string)
    requires !s.initialized
    ensures var r := SyncCommandResult(s, env, sv, true, url, DefaultBranch);
      && r.status == 1 && r.service == sv
      && (r.state.initialized ==> r.state.commits == [] && r.state.branches == map[])
  {
  }

  /** With the staging ref, the bootstrap seeds the store from the remote
      copy whatever branch `git init` starts on: HEAD is the remote `main`,
      and its files are in the working tree beside the untracked files that
      were already there. */
  lemma StagedBootstrapSeeds(s: State, env: Env, sv: Service, url: string, initialBranch: string, b: Bundle)
    requires !s.initialized
    requires GitInit !in s.failing && GitRemote !in s.failing && GitFetch !in s.failing && GitMerge !in s.failing
    requires GetSupabaseConfig(env).Some?
    requires GetResponse(sv, DownloadUrl(GetSupabaseConfig(env).value)) == Some(Response(200, Some(b)))
    requires DefaultBranch in b.branches && initialBranch != StagingRef(DefaultRemote, DefaultBranch)
    requires forall p :: p in s.worktree ==> p !in b.branches[DefaultBranch].tree
    ensures var r := BootstrapResult(s, env, sv, url, initialBranch, true);
      var theirs := b.branches[DefaultBranch];
      && r.status == 0 && r.state.head == initialBranch && HeadCommit(r.state) == Some(theirs)
      && forall p :: p in theirs.tree ==> StoreModel.Get(r.state.worktree, p) == Some(theirs.tree[p])
  {
    var theirs := b.branches[DefaultBranch];
    var staging := StagingRef(DefaultRemote, DefaultBranch);
    var add := AddRemoteResult(InitClaudeRepo(s, true, None, initialBranch).state, url, DefaultRemote).state;
    assert add.head == initialBranch && add.branches == map[] && add.tracked == {} && add.worktree == s.worktree;
    var s1 := FetchInto(add, b, DefaultBranch, staging).value;
    assert HeadCommit(s1).None? && s1.branches[staging] == theirs;
    assert LocalChanges(s1) == s1.worktree.Keys;
    assert CanSwitch(s1, theirs.tree);
    var r := SwitchTo(s1, s1.head, theirs);
    assert MergeTheirs(s1, staging) == Some(r);
    forall p | p in theirs.tree
      ensures StoreModel.Get(r.worktree, p) == Some(theirs.tree[p])
    {
      assert p !in LocalChanges(s1);
    }
  }
}
