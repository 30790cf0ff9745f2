/** Remote sync through object storage (cc_context/core/sync_ops.py): the
    whole session store travels as one git bundle, `repo.bundle`, in a
    Supabase Storage bucket. Pulling downloads it, fetches the branch from it
    and merges with the remote side winning; pushing writes a bundle of
    every ref and uploads it, creating the object or replacing it. */
module SyncOps {
  import opened Wrappers
  import opened Text
  import opened StoreModel
  import opened GitOps

  // ---------------------------------------------------------------------
  // Configuration and URLs

  /** `SUPABASE_URL`, `SUPABASE_SERVICE_KEY` and `SUPABASE_BUCKET`, each unset or set. */
  datatype Env = Env(url: Option<string>, serviceKey: Option<string>, bucket: Option<string>)

  datatype Config = Config(url: string, serviceKey: string, bucket: string)

  predicate IsSetNonEmpty(v: Option<string>) {
    v.Some? && v.value != ""
  }

  /** `get_supabase_config`. */
  function GetSupabaseConfig(env: Env): Option<Config> {
    if !(IsSetNonEmpty(env.url) && IsSetNonEmpty(env.serviceKey) && IsSetNonEmpty(env.bucket)) then None
    else Some(Config(RStripChar(env.url.value, '/'), env.serviceKey.value, env.bucket.value))
  }

  const PublicPrefix: string := "/storage/v1/object/public/"
  const ObjectPrefix: string := "/storage/v1/object/"
  const BundleFile: string := "repo.bundle"

  /** `get_storage_url`: the bucket comes from the environment; the `bucket`
      argument is not used. `None` is the `ValueError` raised without a
      configuration. */
  function GetStorageUrl(env: Env, bucket: string, filename: string): Option<string> {
    match GetSupabaseConfig(env)
    case None => None
    case Some(cfg) => Some(cfg.url + PublicPrefix + cfg.bucket + "/" + filename)
  }

  /** The public URL `pull_from_remote` downloads from. */
  function DownloadUrl(cfg: Config): string {
    cfg.url + PublicPrefix + cfg.bucket + "/" + BundleFile
  }

  /** The authenticated URL `push_to_remote` uploads to. */
  function UploadUrl(cfg: Config): string {
    cfg.url + ObjectPrefix + cfg.bucket + "/" + BundleFile
  }

  /** The configuration exists exactly when all three variables are set and
      non-empty; its URL is the variable without its trailing slashes. */
  lemma ConfigSpec(env: Env)
    ensures GetSupabaseConfig(env).Some? <==>
      IsSetNonEmpty(env.url) && IsSetNonEmpty(env.serviceKey) && IsSetNonEmpty(env.bucket)
    ensures GetSupabaseConfig(env).Some? ==>
      var cfg := GetSupabaseConfig(env).value;
      var u := env.url.value;
      && (cfg.url == [] || cfg.url[|cfg.url| - 1] != '/')
      && IsPrefix(cfg.url, u)
      && (forall k :: |cfg.url| <= k < |u| ==> u[k] == '/')
      && cfg.serviceKey == env.serviceKey.value && cfg.bucket == env.bucket.value
  {
  }

  /** `get_storage_url` for the bundle is the download URL, whatever bucket
      it is handed. */
  lemma StorageUrlIsDownloadUrl(env: Env, bucket: string)
    requires GetSupabaseConfig(env).Some?
    ensures GetStorageUrl(env, bucket, BundleFile) == Some(DownloadUrl(GetSupabaseConfig(env).value))
  {
  }

  // ---------------------------------------------------------------------
  // The storage service

  datatype Verb = Get | Post | Put
  datatype Request = Request(verb: Verb, url: string)
  datatype Response = Response(status: int, body: Option<Bundle>)

  /** The service: the project URL it answers on, its objects by
      `<bucket>/<file>` key, and whether requests reach it at all. */
  datatype Service = Service(base: string, objects: map<string, Bundle>, reachable: bool)

  /** An answer, `None` for a request that raised, and the service after it. */
  datatype Exchange = Exchange(response: Option<Response>, service: Service)

  /** The object key a URL names under `prefix`, if it is under it. */
  function ObjectKey(prefix: string, url: string): Option<string> {
    if IsPrefix(prefix, url) then Some(url[|prefix|..]) else None
  }

  /** `requests.get` on a public object URL. */
  function GetResponse(sv: Service, url: string): Option<Response> {
    if !sv.reachable then None
    else match ObjectKey(sv.base + PublicPrefix, url)
      case None => Some(Response(400, None))
      case Some(key) =>
        if key in sv.objects then Some(Response(200, Some(sv.objects[key]))) else Some(Response(404, None))
  }

  /** `requests.post`: creates an object, 409 when it exists. */
  function PostExchange(sv: Service, url: string, b: Bundle): Exchange {
    if !sv.reachable then Exchange(None, sv)
    else match ObjectKey(sv.base + ObjectPrefix, url)
      case None => Exchange(Some(Response(400, None)), sv)
      case Some(key) =>
        if key in sv.objects then Exchange(Some(Response(409, None)), sv)
        else Exchange(Some(Response(200, None)), sv.(objects := sv.objects[key := b]))
  }

  /** `requests.put`: replaces an existing object. */
  function PutExchange(sv: Service, url: string, b: Bundle): Exchange {
    if !sv.reachable then Exchange(None, sv)
    else match ObjectKey(sv.base + ObjectPrefix, url)
      case None => Exchange(Some(Response(400, None)), sv)
      case Some(key) =>
        if key !in sv.objects then Exchange(Some(Response(404, None)), sv)
        else Exchange(Some(Response(200, None)), sv.(objects := sv.objects[key := b]))
  }

  /** `response.raise_for_status()` raises. */
  predicate IsHttpError(status: int) {
    400 <= status < 600
  }

  /** The storage service as an object that logs the requests it receives. */
  class Storage {
    var base: string
    var objects: map<string, Bundle>
    var reachable: bool
    var log: seq<Request>

    function Snapshot(): Service
      reads this
    {
      Service(base, objects, reachable)
    }

    constructor (sv: Service)
      ensures Snapshot() == sv && log == []
    {
      base, objects, reachable, log := sv.base, sv.objects, sv.reachable, [];
    }

    method HandleGet(url: string) returns (r: Option<Response>)
      modifies this
      ensures r == GetResponse(old(Snapshot()), url)
      ensures Snapshot() == old(Snapshot()) && log == old(log) + [Request(Get, url)]
    {
      log := log + [Request(Get, url)];
      r := GetResponse(Snapshot(), url);
    }

    method HandlePost(url: string, b: Bundle) returns (r: Option<Response>)
      modifies this
      ensures Exchange(r, Snapshot()) == PostExchange(old(Snapshot()), url, b)
      ensures log == old(log) + [Request(Post, url)]
    {
      log := log + [Request(Post, url)];
      var key := ObjectKey(base + ObjectPrefix, url);
      if !reachable {
        return None;
      }
      if key.None? {
        return Some(Response(400, None));
      }
      if key.value in objects {
        return Some(Response(409, None));
      }
      objects := objects[key.value := b];
      r := Some(Response(200, None));
    }

    method HandlePut(url: string, b: Bundle) returns (r: Option<Response>)
      modifies this
      ensures Exchange(r, Snapshot()) == PutExchange(old(Snapshot()), url, b)
      ensures log == old(log) + [Request(Put, url)]
    {
      log := log + [Request(Put, url)];
      var key := ObjectKey(base + ObjectPrefix, url);
      if !reachable {
        return None;
      }
      if key.None? {
        return Some(Response(400, None));
      }
      if key.value !in objects {
        return Some(Response(404, None));
      }
      objects := objects[key.value := b];
      r := Some(Response(200, None));
    }
  }

  /** The temporary directory: the bundle files that exist, by the number
      their name was made from; `None` is an empty file. */
  class TempDir {
    var files: map<nat, Option<Bundle>>
    var next: nat

    predicate Valid()
      reads this
    {
      forall k :: k in files ==> k < next
    }

    constructor ()
      ensures Valid() && files == map[]
    {
      files, next := map[], 0;
    }

    /** `tempfile.NamedTemporaryFile(delete=False)`: a new empty file. */
    method Create() returns (k: nat)
      requires Valid()
      modifies this
      ensures Valid() && k !in old(files) && files == old(files)[k := None]
    {
      k := next;
      files := files[k := None];
      next := next + 1;
    }

    method Write(k: nat, b: Bundle)
      requires Valid() && k in files
      modifies this
      ensures Valid() && files == old(files)[k := Some(b)]
    {
      files := files[k := Some(b)];
    }

    /** `Path(...).unlink(missing_ok=True)`. */
    method Unlink(k: nat)
      requires Valid()
      modifies this
      ensures Valid() && files == old(files) - {k}
    {
      files := files - {k};
    }
  }

  // ---------------------------------------------------------------------
  // Pull, push and sync as functions

  /** The requests `pull_from_remote` sends. */
  function PullRequests(s: State, env: Env): seq<Request> {
    if !s.initialized || GetSupabaseConfig(env).None? then []
    else [Request(Get, DownloadUrl(GetSupabaseConfig(env).value))]
  }

  /** `pull_from_remote`. Any answer but a successful one with a body is a
      failure; a failing merge keeps what the fetch did. */
  function PullResult(s: State, env: Env, sv: Service, branch: string): Step<bool> {
    if !s.initialized then Step(s, false)
    else match GetSupabaseConfig(env)
      case None => Step(s, false)
      case Some(cfg) =>
        var response := GetResponse(sv, DownloadUrl(cfg));
        if response.None? || response.value.status == 404 || IsHttpError(response.value.status)
           || response.value.body.None? then Step(s, false)
        else match FetchBundle(s, response.value.body.value, branch)
          case None => Step(s, false)
          case Some(s1) =>
            match MergeTheirs(s1, branch)
            case None => Step(s1, false)
            case Some(s2) => Step(s2, true)
  }

  /** The remote-tracking ref a pull can stage the bundle's branch in; no
      checkout names it. */
  function StagingRef(remoteName: string, branch: string): string {
    "refs/remotes/" + remoteName + "/" + branch
  }

  /** `pull_from_remote` with the fetch into the staging ref
      (`git fetch <bundle> branch:refs/remotes/<remote>/branch`) and the merge
      of that ref, so the branch HEAD names can be pulled into. */
  function StagedPullResult(s: State, env: Env, sv: Service, remoteName: string, branch: string): Step<bool> {
    if !s.initialized then Step(s, false)
    else match GetSupabaseConfig(env)
      case None => Step(s, false)
      case Some(cfg) =>
        var response := GetResponse(sv, DownloadUrl(cfg));
        if response.None? || response.value.status == 404 || IsHttpError(response.value.status)
           || response.value.body.None? then Step(s, false)
        else
          var staging := StagingRef(remoteName, branch);
          match FetchInto(s, response.value.body.value, branch, staging)
          case None => Step(s, false)
          case Some(s1) =>
            match MergeTheirs(s1, staging)
            case None => Step(s1, false)
            case Some(s2) => Step(s2, true)
  }

  /** What a push did: its result, the service after it and the requests it sent. */
  datatype PushStep = PushStep(ok: bool, service: Service, requests: seq<Request>)

  /** `push_to_remote`: POST first, and PUT the same bundle on 409. */
  function PushResult(s: State, env: Env, sv: Service): PushStep {
    if !s.initialized then PushStep(false, sv, [])
    else match GetSupabaseConfig(env)
      case None => PushStep(false, sv, [])
      case Some(cfg) =>
        match CreateBundle(s)
        case None => PushStep(false, sv, [])
        case Some(b) =>
          var url := UploadUrl(cfg);
          var post := PostExchange(sv, url, b);
          if post.response.None? then PushStep(false, post.service, [Request(Post, url)])
          else if post.response.value.status == 409 then
            var put := PutExchange(post.service, url, b);
            PushStep(put.response.Some? && !IsHttpError(put.response.value.status), put.service,
                     [Request(Post, url), Request(Put, url)])
          else PushStep(!IsHttpError(post.response.value.status), post.service, [Request(Post, url)])
  }

  /** What a sync did to the store and the service. */
  datatype SyncStep = SyncStep(ok: bool, state: State, service: Service, requests: seq<Request>)

  /** `sync_with_remote`: pull, and push only when the pull fails. */
  function SyncResult(s: State, env: Env, sv: Service, branch: string): SyncStep {
    if GetSupabaseConfig(env).None? then SyncStep(false, s, sv, [])
    else
      var pull := PullResult(s, env, sv, branch);
      if pull.result then SyncStep(true, pull.state, sv, PullRequests(s, env))
      else
        var push := PushResult(pull.state, env, sv);
        SyncStep(push.ok, pull.state, push.service, PullRequests(s, env) + push.requests)
  }

  /** `get_remote_url`: the stripped output of `git remote get-url`. */
  function GetRemoteUrl(s: State, remoteName: string): Option<string> {
    if !s.initialized || GitRemote in s.failing || remoteName !in s.remotes then None
    else Some(Strip(s.remotes[remoteName]))
  }

  /** `has_remote`. */
  predicate HasRemote(s: State, remoteName: string): (r: bool)
    ensures r <==> s.initialized && GitRemote !in s.failing && remoteName in s.remotes
  {
    GetRemoteUrl(s, remoteName).Some?
  }

  /** `add_remote`: `git remote set-url` when a non-empty URL is configured,
      `git remote add` otherwise, which fails for a name already in use. */
  function AddRemoteResult(s: State, url: string, remoteName: string): Step<bool> {
    if !s.initialized then Step(s, false)
    else
      var existing := GetRemoteUrl(s, remoteName);
      if GitRemote in s.failing || (!(existing.Some? && existing.value != "") && remoteName in s.remotes) then
        Step(s, false)
      else Step(s.(remotes := s.remotes[remoteName := url]), true)
  }

  // ---------------------------------------------------------------------
  // Pull, push and sync as methods

  /** `add_remote`. */
  method AddRemote(store: SessionStore, url: string, remoteName: string) returns (ok: bool)
    modifies store
    ensures Step(store.Snapshot(), ok) == AddRemoteResult(old(store.Snapshot()), url, remoteName)
  {
    if !store.initialized {
      return false;
    }
    var existing := GetRemoteUrl(store.Snapshot(), remoteName);
    if existing.Some? && existing.value != "" {
      // git remote set-url
      if GitRemote in store.failing {
        return false;
      }
    } else {
      // git remote add
      if GitRemote in store.failing || remoteName in store.remotes {
        return false;
      }
    }
    store.remotes := store.remotes[remoteName := url];
    ok := true;
  }

  /** `pull_from_remote`. The temporary bundle file is gone on every exit. */
  method PullFromRemote(store: SessionStore, storage: Storage, tmp: TempDir, env: Env,
                        remoteName: string, branch: string) returns (ok: bool)
    requires tmp.Valid()
    modifies store, storage, tmp
    ensures tmp.Valid() && tmp.files == old(tmp.files)
    ensures storage.Snapshot() == old(storage.Snapshot())
    ensures storage.log == old(storage.log) + PullRequests(old(store.Snapshot()), env)
    ensures Step(store.Snapshot(), ok) == PullResult(old(store.Snapshot()), env, old(storage.Snapshot()), branch)
  {
    if !store.initialized {
      return false;
    }
    var config := GetSupabaseConfig(env);
    if config.None? {
      return false;
    }
    ghost var s0 := store.Snapshot();
    var response := storage.HandleGet(DownloadUrl(config.value));
    if response.None? || response.value.status == 404 || IsHttpError(response.value.status)
       || response.value.body.None? {
      return false;
    }
    var file := tmp.Create();
    tmp.Write(file, response.value.body.value);
    assert store.Snapshot() == s0 && tmp.files[file].value == response.value.body.value;
    ok := store.FetchBundle(tmp.files[file].value, branch);
    ghost var fetched := StoreModel.FetchBundle(s0, response.value.body.value, branch);
    if ok {
      assert Some(store.Snapshot()) == fetched;
      ok := store.MergeTheirs(branch);
    }
    tmp.Unlink(file);
  }

  /** `push_to_remote`. The store is only read; the temporary bundle file is
      gone on every exit. */
  method PushToRemote(store: SessionStore, storage: Storage, tmp: TempDir, env: Env,
                      remoteName: string, branch: string) returns (ok: bool)
    requires tmp.Valid()
    modifies storage, tmp
    ensures tmp.Valid() && tmp.files == old(tmp.files)
    ensures var p := PushResult(store.Snapshot(), env, old(storage.Snapshot()));
      ok == p.ok && storage.Snapshot() == p.service && storage.log == old(storage.log) + p.requests
  {
    if !store.initialized {
      return false;
    }
    var config := GetSupabaseConfig(env);
    if config.None? {
      return false;
    }
    var file := tmp.Create();
    var bundle := store.CreateBundle();
    if bundle.None? {
      tmp.Unlink(file);
      return false;
    }
    tmp.Write(file, bundle.value);
    var url := UploadUrl(config.value);
    ghost var sv0 := storage.Snapshot();
    ghost var log0 := storage.log;
    assert tmp.files[file].value == bundle.value;
    var response := storage.HandlePost(url, tmp.files[file].value);
    ghost var post := PostExchange(sv0, url, bundle.value);
    assert post.response == response && post.service == storage.Snapshot();
    if response.Some? && response.value.status == 409 {
      response := storage.HandlePut(url, tmp.files[file].value);
      assert storage.log == log0 + [Request(Post, url), Request(Put, url)];
    }
    ok := response.Some? && !IsHttpError(response.value.status);
    tmp.Unlink(file);
  }

  /** `sync_with_remote`. */
  method SyncWithRemote(store: SessionStore, storage: Storage, tmp: TempDir, env: Env,
                        remoteName: string, branch: string) returns (ok: bool)
    requires tmp.Valid()
    modifies store, storage, tmp
    ensures tmp.Valid() && tmp.files == old(tmp.files)
    ensures var r := SyncResult(old(store.Snapshot()), env, old(storage.Snapshot()), branch);
      && ok == r.ok && store.Snapshot() == r.state && storage.Snapshot() == r.service
      && storage.log == old(storage.log) + r.requests
  {
    var config := GetSupabaseConfig(env);
    if config.None? {
      return false;
    }
    ok := PullFromRemote(store, storage, tmp, env, remoteName, branch);
    if !ok {
      ok := PushToRemote(store, storage, tmp, env, remoteName, branch);
    }
  }

  // ---------------------------------------------------------------------
  // Properties

  /** The download and the upload URL name the same object. */
  lemma UrlsNameOneObject(cfg: Config)
    ensures ObjectKey(cfg.url + PublicPrefix, DownloadUrl(cfg)) == Some(cfg.bucket + "/" + BundleFile)
    ensures ObjectKey(cfg.url + ObjectPrefix, UploadUrl(cfg)) == Some(cfg.bucket + "/" + BundleFile)
  {
    var d := DownloadUrl(cfg);
    assert d == (cfg.url + PublicPrefix) + (cfg.bucket + "/" + BundleFile);
    var u := UploadUrl(cfg);
    assert u == (cfg.url + ObjectPrefix) + (cfg.bucket + "/" + BundleFile);
  }

  /** Without a store or a configuration, pull and push fail and send nothing. */
  lemma NothingWithoutStoreOrConfig(s: State, env: Env, sv: Service, branch: string)
    requires !s.initialized || GetSupabaseConfig(env).None?
    ensures PullResult(s, env, sv, branch) == Step(s, false) && PullRequests(s, env) == []
    ensures PushResult(s, env, sv) == PushStep(false, sv, [])
  {
  }

  /** A missing object fails the pull with no fetch and no merge. */
  lemma PullNotFound(s: State, env: Env, sv: Service, branch: string)
    requires s.initialized && GetSupabaseConfig(env).Some?
    requires GetResponse(sv, DownloadUrl(GetSupabaseConfig(env).value)) == Some(Response(404, None))
    ensures PullResult(s, env, sv, branch) == Step(s, false)
  {
  }

  /** An empty bucket answers the pull with 404. */
  lemma EmptyBucketNotFound(cfg: Config, sv: Service)
    requires sv.reachable && sv.base == cfg.url && cfg.bucket + "/" + BundleFile !in sv.objects
    ensures GetResponse(sv, DownloadUrl(cfg)) == Some(Response(404, None))
  {
    UrlsNameOneObject(cfg);
  }

  /** A successful pull moved the local `branch` to the downloaded bundle's
      `branch` (never the one HEAD names) and merged it into HEAD. */
  lemma PullSuccessFetched(s: State, env: Env, sv: Service, branch: string)
    requires PullResult(s, env, sv, branch).result
    ensures var r := PullResult(s, env, sv, branch).state;
      var b := GetResponse(sv, DownloadUrl(GetSupabaseConfig(env).value)).value.body.value;
      && branch in b.branches && branch != s.head
      && FetchBundle(s, b, branch).Some?
      && r.branches[branch] == b.branches[branch]
      && MergeTheirs(FetchBundle(s, b, branch).value, branch) == Some(r)
  {
    var cfg := GetSupabaseConfig(env).value;
    var b := GetResponse(sv, DownloadUrl(cfg)).value.body.value;
    var s1 := FetchBundle(s, b, branch).value;
    assert s1.branches[branch] == b.branches[branch];
  }

  /** git will not fetch into the branch HEAD names, so a pull onto it fails
      without touching the store, whether that branch is born or unborn. */
  lemma PullOntoCheckedOutBranchFails(s: State, env: Env, sv: Service)
    ensures PullResult(s, env, sv, s.head) == Step(s, false)
  {
  }

  /** Push creates the object when it is missing, and otherwise replaces it
      with a PUT of the same bundle after the POST's 409. */
  lemma PushCreatesOrReplaces(s: State, env: Env, sv: Service)
    requires s.initialized && GetSupabaseConfig(env).Some? && CreateBundle(s).Some?
    requires sv.reachable && sv.base == GetSupabaseConfig(env).value.url
    ensures var cfg := GetSupabaseConfig(env).value;
      var key := cfg.bucket + "/" + BundleFile;
      var p := PushResult(s, env, sv);
      && p.ok
      && p.service == sv.(objects := sv.objects[key := Bundle(s.commits, s.branches)])
      && p.requests == (if key in sv.objects then [Request(Post, UploadUrl(cfg)), Request(Put, UploadUrl(cfg))]
                        else [Request(Post, UploadUrl(cfg))])
  {
    UrlsNameOneObject(GetSupabaseConfig(env).value);
  }

  /** What one client pushes, another pulls: after a push, a pull into a
      clean store whose HEAD is unborn or behind the pushed branch (and which
      does not have that branch checked out) gets the pushed branch and
      fast-forwards to it, so its files are exactly the pushed ones. */
  lemma PushThenPull(s: State, t: State, env: Env, sv: Service, branch: string)
    requires s.initialized && GetSupabaseConfig(env).Some? && CreateBundle(s).Some?
    requires sv.reachable && sv.base == GetSupabaseConfig(env).value.url
    requires branch in s.branches
    requires t.initialized && !HasChanges(t) && branch != t.head
    requires GitFetch !in t.failing && GitMerge !in t.failing
    requires HeadCommit(t).None? || Reaches(s.branches[branch], HeadCommit(t).value)
    ensures var t' := PullResult(t, env, PushResult(s, env, sv).service, branch);
      && t'.result
      && branch in t'.state.branches && t'.state.branches[branch] == s.branches[branch]
      && HeadCommit(t'.state) == Some(s.branches[branch])
      && t'.state.worktree == s.branches[branch].tree
  {
    var t1 := PulledBundle(s, t, env, sv, branch);
    MergeFastForward(t1, branch);
  }

  /** The same when the two histories have diverged: if the merge goes
      through, HEAD is a merge commit of the old HEAD and the pushed branch,
      and every file the pushed side changed since their merge base has the
      pushed content. */
  lemma PushThenPullDiverged(s: State, t: State, env: Env, sv: Service, branch: string)
    requires s.initialized && GetSupabaseConfig(env).Some? && CreateBundle(s).Some?
    requires sv.reachable && sv.base == GetSupabaseConfig(env).value.url
    requires branch in s.branches
    requires t.initialized && !HasChanges(t) && branch != t.head
    requires GitFetch !in t.failing
    requires HeadCommit(t).Some? && !Reaches(HeadCommit(t).value, s.branches[branch])
    requires !Reaches(s.branches[branch], HeadCommit(t).value)
    requires PullResult(t, env, PushResult(s, env, sv).service, branch).result
    ensures var t' := PullResult(t, env, PushResult(s, env, sv).service, branch);
      var ours := HeadCommit(t).value;
      var theirs := s.branches[branch];
      var base := MergeBaseTree(Absorb(t.commits, s.commits), ours, theirs);
      && branch in t'.state.branches && t'.state.branches[branch] == theirs
      && HeadCommit(t'.state).Some? && HeadCommit(t'.state).value.parents == [ours, theirs]
      && (forall p :: StoreModel.Get(theirs.tree, p) != StoreModel.Get(base, p) ==> StoreModel.Get(t'.state.worktree, p) == StoreModel.Get(theirs.tree, p))
      && (forall p :: StoreModel.Get(theirs.tree, p) == StoreModel.Get(base, p) ==> StoreModel.Get(t'.state.worktree, p) == StoreModel.Get(ours.tree, p))
  {
    var t1 := PulledBundle(s, t, env, sv, branch);
    MergeTheirsWins(t1, branch);
  }

  /** The fetch half of a pull that follows a push: the pulled store has the
      pushed branch and commits, and HEAD and its tree unchanged. */
  lemma PulledBundle(s: State, t: State, env: Env, sv: Service, branch: string) returns (t1: State)
    requires s.initialized && GetSupabaseConfig(env).Some? && CreateBundle(s).Some?
    requires sv.reachable && sv.base == GetSupabaseConfig(env).value.url
    requires branch in s.branches
    requires t.initialized && !HasChanges(t) && branch != t.head
    requires GitFetch !in t.failing
    ensures FetchBundle(t, Bundle(s.commits, s.branches), branch) == Some(t1)
    ensures t1 == t.(commits := Absorb(t.commits, s.commits), branches := t.branches[branch := s.branches[branch]])
    ensures !HasChanges(t1) && HeadCommit(t1) == HeadCommit(t)
    ensures PullResult(t, env, PushResult(s, env, sv).service, branch)
      == (match MergeTheirs(t1, branch) case Some(r) => Step(r, true) case None => Step(t1, false))
  {
    var cfg := GetSupabaseConfig(env).value;
    PushCreatesOrReplaces(s, env, sv);
    UrlsNameOneObject(cfg);
    var sv' := PushResult(s, env, sv).service;
    var b := Bundle(s.commits, s.branches);
    assert GetResponse(sv', DownloadUrl(cfg)) == Some(Response(200, Some(b)));
    t1 := FetchBundle(t, b, branch).value;
    assert HeadTree(t1) == HeadTree(t);
  }

  /** Sync without configuration does nothing; a successful pull is the
      whole sync; any failed pull, not only a 404, falls through to a push
      from the state the pull left. */
  lemma SyncPullsElsePushes(s: State, env: Env, sv: Service, branch: string)
    ensures GetSupabaseConfig(env).None? ==> SyncResult(s, env, sv, branch) == SyncStep(false, s, sv, [])
    ensures GetSupabaseConfig(env).Some? && PullResult(s, env, sv, branch).result ==>
      SyncResult(s, env, sv, branch)
        == SyncStep(true, PullResult(s, env, sv, branch).state, sv, PullRequests(s, env))
    ensures GetSupabaseConfig(env).Some? && !PullResult(s, env, sv, branch).result ==>
      var pull := PullResult(s, env, sv, branch);
      SyncResult(s, env, sv, branch).ok == PushResult(pull.state, env, sv).ok
  {
  }

  /** As written, a sync of the branch HEAD names never pulls: the fetch
      into that branch is refused, so the sync pushes the local history over
      the remote copy, whatever the remote holds. */
  lemma CheckedOutBranchNeverPulls(s: State, env: Env, sv: Service)
    requires GetSupabaseConfig(env).Some?
    ensures var r := SyncResult(s, env, sv, s.head);
      var push := PushResult(s, env, sv);
      && r.state == s && r.ok == push.ok && r.service == push.service
      && r.requests == PullRequests(s, env) + push.requests
  {
    PullOntoCheckedOutBranchFails(s, env, sv);
  }

  /** With the staging ref, the branch HEAD names is pulled into: a clean
      store that is unborn or behind the remote copy fast-forwards to it. */
  lemma StagedPullFastForwards(s: State, env: Env, sv: Service, remoteName: string, b: Bundle)
    requires s.initialized && GetSupabaseConfig(env).Some?
    requires GetResponse(sv, DownloadUrl(GetSupabaseConfig(env).value)) == Some(Response(200, Some(b)))
    requires s.head in b.branches && GitFetch !in s.failing && GitMerge !in s.failing && !HasChanges(s)
    requires HeadCommit(s).None? || Reaches(b.branches[s.head], HeadCommit(s).value)
    ensures var r := StagedPullResult(s, env, sv, remoteName, s.head);
      var theirs := b.branches[s.head];
      && r.result && r.state.head == s.head && HeadCommit(r.state) == Some(theirs)
      && r.state.worktree == theirs.tree && r.state.tracked == theirs.tree.Keys
  {
    var staging := StagingRef(remoteName, s.head);
    assert |staging| > |s.head|;
    var s1 := FetchInto(s, b, s.head, staging).value;
    assert HeadCommit(s1) == HeadCommit(s) && HeadTree(s1) == HeadTree(s);
    MergeFastForward(s1, staging);
  }

  /** Configuring a remote makes it visible under its name, unless the name
      is already used with an empty URL, which `git remote add` refuses. */
  lemma AddRemoteThenHasRemote(s: State, url: string, remoteName: string)
    requires s.initialized && GitRemote !in s.failing
    ensures var r := AddRemoteResult(s, url, remoteName);
      && (r.result <==> !(remoteName in s.remotes && Strip(s.remotes[remoteName]) == ""))
      && (r.result ==> GetRemoteUrl(r.state, remoteName) == Some(Strip(url)) && HasRemote(r.state, remoteName))
      && (!r.result ==> r.state == s)
  {
  }
}
