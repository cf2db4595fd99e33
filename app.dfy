/** app.py: deriving one project entry from what GitLab returns, fetching it
    through the cache, building the page for `index()`, and the two
    cache-clearing routes. */
module App {
  import opened Strings
  import opened Records
  import opened DataProcessor
  import opened ProjectCache

  /** Used when a project has no 'branches' key. */
  const DefaultBranches: seq<string> := ["develop", "staging", "main"]
  const NoPipelineFound: string := "No pipeline found"
  const NoCommitFound: string := "No commit found"
  const NotFoundCode: int := 404

  /** The branch names that are not counted as feature branches. */
  predicate IsNonFeatureBranch(b: string) {
    b == "main" || b == "develop" || b == "staging" || b == "beta"
  }

  /** What the GitLab API reports for an existing project. `latestPipeline`
      and `latestCommit` give, per ref, the instant of the newest pipeline
      (its `updated_at`) and of the newest commit (its `committed_date`); a
      ref is absent when the list is empty or its date does not parse. */
  datatype RemoteProject = RemoteProject(
    webUrl: string,
    branchNames: seq<string>,
    openMergeRequests: nat,
    latestPipeline: map<string, int>,
    latestCommit: map<string, int>)

  /** `gl.projects.get(name)`: the project or a GitlabGetError's response code. */
  datatype Lookup = Found(project: RemoteProject) | GetError(responseCode: int)

  function MapGet(m: map<string, int>, k: string): Option<int> {
    if k in m then Some(m[k]) else None
  }

  /** The index of the last '/' before position j, or -1 when there is none. */
  function LastSlash(s: string, j: nat): (k: int)
    requires j <= |s|
    ensures -1 <= k < j
    ensures k >= 0 ==> s[k] == '/'
    ensures forall i :: k < i < j ==> s[i] != '/'
  {
    if j == 0 then -1
    else if s[j - 1] == '/' then j - 1
    else LastSlash(s, j - 1)
  }

  /** `full_project_name.split('/')[-1]`: the part after the last '/', or
      the whole name when it has none. */
  function ShortName(full: string): (r: string)
    ensures |r| <= |full| && full[|full| - |r|..] == r
    ensures forall i :: 0 <= i < |r| ==> r[i] != '/'
    ensures |r| < |full| ==> full[|full| - |r| - 1] == '/'
  {
    full[LastSlash(full, |full|) + 1..]
  }

  /** The branches that are not main, develop, staging or beta, each as
      often as it occurs in the branch list. */
  function FeatureBranches(bs: seq<string>): (r: seq<string>)
    ensures |r| <= |bs|
    ensures forall b :: IsNonFeatureBranch(b) ==> multiset(r)[b] == 0
    ensures forall b :: !IsNonFeatureBranch(b) ==> multiset(r)[b] == multiset(bs)[b]
  {
    if bs == [] then []
    else
      assert bs == [bs[0]] + bs[1..];
      (if IsNonFeatureBranch(bs[0]) then [] else [bs[0]]) + FeatureBranches(bs[1..])
  }

  /** `main_synced_to_develop` from the newest develop commit and the newest
      main pipeline. */
  function MainSyncedToDevelop(developCommit: Option<int>, mainPipeline: Option<int>): (r: Sync)
    ensures r == Sync.NA <==> developCommit.None? || mainPipeline.None?
    ensures r == Synced <==>
      developCommit.Some? && mainPipeline.Some? && mainPipeline.value >= developCommit.value
    ensures r == NotSynced <==>
      developCommit.Some? && mainPipeline.Some? && mainPipeline.value < developCommit.value
  {
    match (developCommit, mainPipeline)
    case (Some(commit), Some(pipeline)) => if pipeline >= commit then Synced else NotSynced
    case _ => Sync.NA
  }

  /** One branch's record. The status does not look at the pipeline's state:
      a newer pipeline, failed or not, counts as in sync. */
  function BranchRecordFor(pipeline: Option<int>, commit: Option<int>): (r: BranchRecord)
    ensures r.status == Tick <==> pipeline.Some? && commit.Some? && pipeline.value >= commit.value
    ensures r.pipelineDate == Marker(NoPipelineFound) <==> pipeline.None?
    ensures pipeline.Some? ==> r.pipelineDate == At(pipeline.value)
    ensures r.commitDate == Marker(NoCommitFound) <==> commit.None?
    ensures commit.Some? ==> r.commitDate == At(commit.value)
  {
    var status := if pipeline.Some? && commit.Some? && pipeline.value >= commit.value then Tick else Cross;
    BranchRecord(
      status,
      if pipeline.Some? then At(pipeline.value) else Marker(NoPipelineFound),
      if commit.Some? then At(commit.value) else Marker(NoCommitFound))
  }

  function BranchFor(rp: RemoteProject, b: string): BranchRecord {
    BranchRecordFor(MapGet(rp.latestPipeline, b), MapGet(rp.latestCommit, b))
  }

  /** The loop over `branches_to_process` that fills `project_entry['branches']`:
      one record per requested branch, and no other key. */
  method BuildBranches(requested: seq<string>, rp: RemoteProject)
    returns (m: map<string, BranchRecord>)
    ensures m.Keys == set b | b in requested
    ensures forall b :: b in m ==> m[b] == BranchFor(rp, b)
  {
    m := map[];
    var i := 0;
    while i < |requested|
      invariant 0 <= i <= |requested|
      invariant m.Keys == set j | 0 <= j < i :: requested[j]
      invariant forall b :: b in m ==> m[b] == BranchFor(rp, b)
    {
      var branch := requested[i];
      var pipelineDate := MapGet(rp.latestPipeline, branch);
      var commitDate := MapGet(rp.latestCommit, branch);
      m := m[branch := BranchRecordFor(pipelineDate, commitDate)];
      i := i + 1;
    }
    assert forall b :: b in requested ==> exists j :: 0 <= j < |requested| && requested[j] == b;
  }

  /** `project_data.get('branches', default_branches)`: only a missing key
      falls back; an empty list stays empty. */
  function RequestedBranches(p: ProjectRef): (r: seq<string>)
    ensures p.branches.Some? ==> r == p.branches.value
    ensures p.branches.None? ==> r == ["develop", "staging", "main"]
  {
    if p.branches.Some? then p.branches.value else DefaultBranches
  }

  /** The entry computed on a cache miss for a project GitLab found. */
  function EntryFor(name: string, requested: seq<string>, rp: RemoteProject): (e: Entry)
    ensures e.shortName == ShortName(name) && !e.notFound && e.webUrl == Some(rp.webUrl)
    ensures e.branchCount == Num(|rp.branchNames|) && e.openMrCount == Num(rp.openMergeRequests)
    ensures e.featureBranchCount == Num(|FeatureBranches(rp.branchNames)|)
    ensures e.featureBranchCount.n <= e.branchCount.n
    ensures e.mainSynced == MainSyncedToDevelop(MapGet(rp.latestCommit, "develop"), MapGet(rp.latestPipeline, "main"))
    ensures e.branches.Keys == set b | b in requested
    ensures forall b :: b in e.branches ==> e.branches[b] == BranchFor(rp, b)
  {
    Entry(
      ShortName(name),
      false,
      Num(|FeatureBranches(rp.branchNames)|),
      Num(|rp.branchNames|),
      Num(rp.openMergeRequests),
      MainSyncedToDevelop(MapGet(rp.latestCommit, "develop"), MapGet(rp.latestPipeline, "main")),
      Some(rp.webUrl),
      map b | b in requested :: BranchFor(rp, b))
  }

  /** The entry shown for a project GitLab answers 404 for. */
  function NotFoundEntry(name: string): (e: Entry)
    ensures e.shortName == ShortName(name) && e.notFound && e.webUrl.None?
    ensures e.featureBranchCount.NA? && e.branchCount.NA? && e.openMrCount.NA?
    ensures e.mainSynced == Sync.NA && e.branches == map[]
  {
    Entry(ShortName(name), true, Count.NA, Count.NA, Count.NA, Sync.NA, None, map[])
  }

  /** An entry whose counts and sync status are all 'N/A' passes every
      numeric filter; only the search and the sync-status filters can drop
      it. */
  lemma PlaceholderFiltering(f: Filters, it: Item)
    requires it.1.featureBranchCount == Count.NA && it.1.openMrCount == Count.NA
    requires it.1.mainSynced == Sync.NA
    ensures Keep(f, it) <==>
      SearchOk(f.searchQuery, it) && f.mainSyncStatus != "synced" && f.mainSyncStatus != "not_synced"
  {
    KeepMeaning(f, it);
  }

  /** The 404 entry is such an entry. */
  lemma NotFoundEntryFiltering(f: Filters, name: string)
    ensures Keep(f, (name, NotFoundEntry(name))) <==>
      SearchOk(f.searchQuery, (name, NotFoundEntry(name)))
      && f.mainSyncStatus != "synced" && f.mainSyncStatus != "not_synced"
  {
    PlaceholderFiltering(f, (name, NotFoundEntry(name)));
  }

  /** The body of the `try` in `index()` for one project, on the cache's
      contents: the result (an entry, or the code of an error that is
      raised) and the cache afterwards. */
  function FetchSpec(cache: map<string, Entry>, upstream: string -> Lookup, p: ProjectRef)
    : (out: (Result<Entry>, map<string, Entry>))
    // a hit returns the stored entry and changes nothing
    ensures p.name in cache ==> out == (Success(cache[p.name]), cache)
    // no key but the project's own is ever touched
    ensures out.1.Keys <= cache.Keys + {p.name}
    ensures out.1 - {p.name} == cache - {p.name}
    // a computed entry is stored under the full project name
    ensures p.name !in cache && out.0.Success? && !out.0.value.notFound ==>
      out.1 == cache[p.name := out.0.value]
    // the 404 entry is returned but not stored; other errors propagate
    ensures p.name !in cache && out.0.Success? && out.0.value.notFound ==> out.1 == cache
    ensures out.0.Failure? ==> out.0.code != NotFoundCode && out.1 == cache && p.name !in cache
    ensures out.0.Failure? ==> upstream(p.name).GetError? && out.0.code == upstream(p.name).responseCode
    // a miss for a found project computes and stores its entry; a 404 gives the placeholder
    ensures p.name !in cache && upstream(p.name).Found? ==>
      var e := EntryFor(p.name, RequestedBranches(p), upstream(p.name).project);
      out == (Success(e), cache[p.name := e])
    ensures p.name !in cache && upstream(p.name) == GetError(NotFoundCode) ==>
      out == (Success(NotFoundEntry(p.name)), cache)
    ensures p.name !in cache ==>
      (out.0.Success? <==> upstream(p.name).Found? || upstream(p.name).responseCode == NotFoundCode)
  {
    if p.name in cache then (Success(cache[p.name]), cache)
    else
      var r := FetchRemote(upstream, p);
      if r.Success? && !r.value.notFound then
        UpdateFrame(cache, p.name, r.value);
        (r, cache[p.name := r.value])
      else (r, cache)
  }

  /** Storing one key leaves the rest of a map as it was. */
  lemma UpdateFrame<K, V>(m: map<K, V>, k: K, v: V)
    ensures m[k := v] - {k} == m - {k}
    ensures m[k := v].Keys == m.Keys + {k}
  {
  }

  /** Lines 52-130 on a cache miss: the derived entry of a found project, the
      404 entry, or the code of any other lookup error. */
  function FetchRemote(upstream: string -> Lookup, p: ProjectRef): (r: Result<Entry>)
    ensures r.Success? && !r.value.notFound <==> upstream(p.name).Found?
    ensures r.Success? && r.value.notFound <==> upstream(p.name) == GetError(NotFoundCode)
    ensures r.Failure? <==> upstream(p.name).GetError? && upstream(p.name).responseCode != NotFoundCode
    ensures r.Failure? ==> r.code == upstream(p.name).responseCode
    ensures upstream(p.name).Found? ==>
      r == Success(EntryFor(p.name, RequestedBranches(p), upstream(p.name).project))
    ensures upstream(p.name) == GetError(NotFoundCode) ==> r == Success(NotFoundEntry(p.name))
  {
    match upstream(p.name)
    case Found(rp) => Success(EntryFor(p.name, RequestedBranches(p), rp))
    case GetError(code) =>
      if code == NotFoundCode then Success(NotFoundEntry(p.name)) else Failure(code)
  }

  /** Lines 49-130 of `index()` for one project: look in the cache, and on a
      miss ask GitLab, derive the entry and store it. */
  method FetchEntry(c: Cache, upstream: string -> Lookup, p: ProjectRef) returns (r: Result<Entry>)
    modifies c
    ensures (r, c.entries) == FetchSpec(old(c.entries), upstream, p)
  {
    var cached := c.Get(p.name);
    if cached.Some? {
      return Success(cached.value);
    }
    match upstream(p.name)
    case GetError(code) =>
      if code == NotFoundCode {
        r := Success(NotFoundEntry(p.name));
      } else {
        r := Failure(code);
      }
      assert r == FetchRemote(upstream, p);
    case Found(rp) =>
      var branches := BuildBranches(RequestedBranches(p), rp);
      var entry := Entry(
        ShortName(p.name),
        false,
        Num(|FeatureBranches(rp.branchNames)|),
        Num(|rp.branchNames|),
        Num(rp.openMergeRequests),
        MainSyncedToDevelop(MapGet(rp.latestCommit, "develop"), MapGet(rp.latestPipeline, "main")),
        Some(rp.webUrl),
        branches);
      assert entry == EntryFor(p.name, RequestedBranches(p), rp);
      assert FetchRemote(upstream, p) == Success(entry);
      c.Set(p.name, entry);
      r := Success(entry);
  }

  // The loop of `index()` over the registry.

  function Names(ps: seq<ProjectRef>): set<string> {
    if ps == [] then {} else {ps[0].name} + Names(ps[1..])
  }

  lemma {:induction false} NamesAppend(ps: seq<ProjectRef>, p: ProjectRef)
    ensures Names(ps + [p]) == Names(ps) + {p.name}
  {
    if ps != [] {
      NamesAppend(ps[1..], p);
      assert (ps + [p])[1..] == ps[1..] + [p];
    } else {
      assert ps + [p] == [p];
    }
  }

  /** The first registry element with the given name. */
  function FirstRef(ps: seq<ProjectRef>, n: string): ProjectRef
    requires n in Names(ps)
  {
    if ps[0].name == n then ps[0] else FirstRef(ps[1..], n)
  }

  lemma {:induction false} FirstRefAppend(ps: seq<ProjectRef>, p: ProjectRef, n: string)
    requires n in Names(ps) || n == p.name
    ensures Names(ps + [p]) == Names(ps) + {p.name}
    ensures n in Names(ps) ==> FirstRef(ps + [p], n) == FirstRef(ps, n)
    ensures n !in Names(ps) ==> FirstRef(ps + [p], n) == p
  {
    NamesAppend(ps, p);
    if ps != [] {
      assert (ps + [p])[1..] == ps[1..] + [p];
      if ps[0].name != n {
        FirstRefAppend(ps[1..], p, n);
      }
    }
  }

  /** A project is resolvable when it is cached, found, or answered with 404. */
  predicate Resolvable(cache: map<string, Entry>, upstream: string -> Lookup, n: string) {
    n in cache || upstream(n).Found? || upstream(n).responseCode == NotFoundCode
  }

  predicate AllResolvable(cache: map<string, Entry>, upstream: string -> Lookup, ps: seq<ProjectRef>) {
    forall j :: 0 <= j < |ps| ==> Resolvable(cache, upstream, ps[j].name)
  }

  lemma AllResolvableAppend(cache: map<string, Entry>, upstream: string -> Lookup, ps: seq<ProjectRef>, p: ProjectRef)
    requires AllResolvable(cache, upstream, ps) && Resolvable(cache, upstream, p.name)
    ensures AllResolvable(cache, upstream, ps + [p])
  {
    var ps' := ps + [p];
    forall j | 0 <= j < |ps'| ensures Resolvable(cache, upstream, ps'[j].name) {
      if j < |ps| {
        assert ps'[j] == ps[j];
      }
    }
  }

  /** The entry `index()` shows for name n, given the cache before the
      request: the cached one if any; otherwise the one derived, with the
      branches of the first registry element of that name (later elements of
      the same name hit the cache), or the 404 entry. */
  function Expected(cache: map<string, Entry>, upstream: string -> Lookup, ps: seq<ProjectRef>, n: string): Entry
    requires n in Names(ps)
  {
    if n in cache then cache[n]
    else
      match upstream(n)
      case Found(_) => Derived(upstream, ps, n)
      case GetError(_) => NotFoundEntry(n)
  }

  /** The cache after the loop has processed ps: every entry that was there
      before, plus the derived entry of each found project that was not. */
  function Stored(cache: map<string, Entry>, upstream: string -> Lookup, ps: seq<ProjectRef>): map<string, Entry> {
    cache + map n | n in Names(ps) && n !in cache && upstream(n).Found? :: Derived(upstream, ps, n)
  }

  /** The entry derived for a found project from its first registry element. */
  function Derived(upstream: string -> Lookup, ps: seq<ProjectRef>, n: string): Entry
    requires n in Names(ps) && upstream(n).Found?
  {
    EntryFor(n, RequestedBranches(FirstRef(ps, n)), upstream(n).project)
  }

  lemma ExpectedAppend(cache: map<string, Entry>, upstream: string -> Lookup,
                       ps: seq<ProjectRef>, p: ProjectRef, n: string)
    requires n in Names(ps)
    ensures Names(ps + [p]) == Names(ps) + {p.name}
    ensures Expected(cache, upstream, ps + [p], n) == Expected(cache, upstream, ps, n)
  {
    NamesAppend(ps, p);
    FirstRefAppend(ps, p, n);
  }

  /** What Stored holds for one key. */
  lemma StoredAt(cache: map<string, Entry>, upstream: string -> Lookup, ps: seq<ProjectRef>, k: string)
    ensures k in Stored(cache, upstream, ps) <==> k in cache || (k in Names(ps) && upstream(k).Found?)
    ensures k in cache ==> Stored(cache, upstream, ps)[k] == cache[k]
    ensures k !in cache && k in Names(ps) && upstream(k).Found? ==>
      Stored(cache, upstream, ps)[k] == Derived(upstream, ps, k)
  {
  }

  lemma PrefixSnoc<T>(s: seq<T>, i: int)
    requires 0 <= i < |s|
    ensures s[..i + 1] == s[..i] + [s[i]]
  {
  }

  /** Stored never overwrites what the cache held. */
  lemma StoredKeepsCache(cache: map<string, Entry>, upstream: string -> Lookup, ps: seq<ProjectRef>)
    ensures forall k :: k in cache ==> k in Stored(cache, upstream, ps) && Stored(cache, upstream, ps)[k] == cache[k]
  {
  }

  /** Two maps with the same keys and the same value at each key are equal. */
  lemma MapExtensional<K, V>(a: map<K, V>, b: map<K, V>)
    requires forall k :: k in a <==> k in b
    requires forall k :: k in a ==> a[k] == b[k]
    ensures a == b
  {
  }

  /** The entry a registry prefix derives for a name does not change when an
      element is appended. */
  lemma StoredKeep(cache: map<string, Entry>, upstream: string -> Lookup, ps: seq<ProjectRef>, p: ProjectRef, k: string)
    requires k in Stored(cache, upstream, ps)
    ensures k in Stored(cache, upstream, ps + [p])
    ensures Stored(cache, upstream, ps + [p])[k] == Stored(cache, upstream, ps)[k]
  {
    NamesAppend(ps, p);
    StoredAt(cache, upstream, ps, k);
    StoredAt(cache, upstream, ps + [p], k);
    if k !in cache {
      FirstRefAppend(ps, p, k);
    }
  }

  /** A registry element that is cached, repeated or not found adds nothing. */
  lemma StoredUnchanged(cache: map<string, Entry>, upstream: string -> Lookup, ps: seq<ProjectRef>, p: ProjectRef)
    requires p.name in cache || p.name in Names(ps) || !upstream(p.name).Found?
    ensures Stored(cache, upstream, ps + [p]) == Stored(cache, upstream, ps)
  {
    NamesAppend(ps, p);
    var before := Stored(cache, upstream, ps);
    var after := Stored(cache, upstream, ps + [p]);
    forall k ensures k in after <==> k in before {
      StoredAt(cache, upstream, ps, k);
      StoredAt(cache, upstream, ps + [p], k);
    }
    forall k | k in after ensures after[k] == before[k] {
      StoredKeep(cache, upstream, ps, p, k);
    }
    MapExtensional(after, before);
  }

  /** A new found registry element adds its own derived entry. */
  lemma StoredExtended(cache: map<string, Entry>, upstream: string -> Lookup, ps: seq<ProjectRef>, p: ProjectRef)
    requires p.name !in cache && p.name !in Names(ps) && upstream(p.name).Found?
    ensures p.name in Names(ps + [p])
    ensures Stored(cache, upstream, ps + [p])
      == Stored(cache, upstream, ps)[p.name := Derived(upstream, ps + [p], p.name)]
  {
    NamesAppend(ps, p);
    var before := Stored(cache, upstream, ps);
    var after := Stored(cache, upstream, ps + [p]);
    var wanted := before[p.name := Derived(upstream, ps + [p], p.name)];
    forall k ensures k in after <==> k in wanted {
      StoredAt(cache, upstream, ps, k);
      StoredAt(cache, upstream, ps + [p], k);
    }
    forall k | k in after ensures after[k] == wanted[k] {
      if k == p.name {
        StoredAt(cache, upstream, ps + [p], k);
      } else {
        StoredAt(cache, upstream, ps, k);
        StoredAt(cache, upstream, ps + [p], k);
        StoredKeep(cache, upstream, ps, p, k);
      }
    }
    MapExtensional(after, wanted);
  }

  /** Processing one more registry element adds at most its own derived
      entry to what Stored describes. */
  lemma StoredAppend(cache: map<string, Entry>, upstream: string -> Lookup, ps: seq<ProjectRef>, p: ProjectRef)
    ensures Names(ps + [p]) == Names(ps) + {p.name}
    ensures p.name in cache || p.name in Names(ps) || !upstream(p.name).Found? ==>
      Stored(cache, upstream, ps + [p]) == Stored(cache, upstream, ps)
    ensures p.name !in cache && p.name !in Names(ps) && upstream(p.name).Found? ==>
      Stored(cache, upstream, ps + [p])
      == Stored(cache, upstream, ps)[p.name := EntryFor(p.name, RequestedBranches(p), upstream(p.name).project)]
  {
    NamesAppend(ps, p);
    if p.name in cache || p.name in Names(ps) || !upstream(p.name).Found? {
      StoredUnchanged(cache, upstream, ps, p);
    } else {
      StoredExtended(cache, upstream, ps, p);
      FirstRefAppend(ps, p, p.name);
    }
  }

  /** One iteration of the loop, on the cache as Stored describes it. */
  lemma FetchStep(cache: map<string, Entry>, upstream: string -> Lookup, ps: seq<ProjectRef>, p: ProjectRef)
    ensures Names(ps + [p]) == Names(ps) + {p.name}
    ensures var out := FetchSpec(Stored(cache, upstream, ps), upstream, p);
      && (out.0.Success? <==> Resolvable(cache, upstream, p.name))
      && (out.0.Failure? ==> out.1 == Stored(cache, upstream, ps))
      && (out.0.Success? ==>
            && out.1 == Stored(cache, upstream, ps + [p])
            && out.0.value == Expected(cache, upstream, ps + [p], p.name))
  {
    StoredAppend(cache, upstream, ps, p);
    FirstRefAppend(ps, p, p.name);
  }

  /** `grouped_projects` after the loop has processed ps: one key per name,
      each with the entry Expected gives. */
  predicate GroupedOk(cache: map<string, Entry>, upstream: string -> Lookup, ps: seq<ProjectRef>, grouped: Dict) {
    && DistinctKeys(grouped)
    && Keys(grouped) == Names(ps)
    && forall n :: n in Names(ps) ==> Get(grouped, n) == Some(Expected(cache, upstream, ps, n))
  }

  /** `grouped_projects[full_project_name] = project_entry` keeps GroupedOk. */
  lemma GroupedStep(cache: map<string, Entry>, upstream: string -> Lookup, ps: seq<ProjectRef>,
                    p: ProjectRef, grouped: Dict, e: Entry)
    requires Names(ps + [p]) == Names(ps) + {p.name}
    requires GroupedOk(cache, upstream, ps, grouped)
    requires e == Expected(cache, upstream, ps + [p], p.name)
    ensures GroupedOk(cache, upstream, ps + [p], Put(grouped, p.name, e))
  {
    NamesAppend(ps, p);
    forall n | n in Names(ps) {
      ExpectedAppend(cache, upstream, ps, p, n);
    }
  }

  /** What `index()` renders: the grouped entries, the branch-name list and
      the filtered entries. */
  datatype Page = Page(grouped: Dict, allBranches: seq<string>, filtered: Dict)

  /** Every branch name a registry element requests, with the `.get` fallback. */
  function RequestedBranchSet(projects: seq<ProjectRef>): set<string> {
    set i, b | 0 <= i < |projects| && b in RequestedBranches(projects[i]) :: b
  }

  /** Project i is the first of the registry that is not resolvable. */
  predicate StopsAt(cache: map<string, Entry>, upstream: string -> Lookup, ps: seq<ProjectRef>, i: int) {
    && 0 <= i < |ps|
    && AllResolvable(cache, upstream, ps[..i])
    && !Resolvable(cache, upstream, ps[i].name)
  }

  /** The loop of `index()` that fills `grouped_projects`: the dict, or the
      response code of the GitlabGetError it re-raises. */
  method GroupProjects(c: Cache, upstream: string -> Lookup, projects: seq<ProjectRef>)
    returns (r: Result<Dict>)
    modifies c
    ensures r.Success? <==> AllResolvable(old(c.entries), upstream, projects)
    ensures r.Failure? ==> r.code != NotFoundCode
    ensures r.Success? ==>
      && DistinctKeys(r.value)
      && Keys(r.value) == Names(projects)
      && (forall n :: n in Names(projects) ==>
            Get(r.value, n) == Some(Expected(old(c.entries), upstream, projects, n)))
    ensures r.Success? ==> c.entries == Stored(old(c.entries), upstream, projects)
    // a re-raised error comes from the first unresolvable project, and the
    // cache holds what the projects before it stored
    ensures r.Failure? ==> exists i :: (StopsAt(old(c.entries), upstream, projects, i)
      && r.code == upstream(projects[i].name).responseCode
      && c.entries == Stored(old(c.entries), upstream, projects[..i]))
    // entries cached before the request are never overwritten
    ensures forall k :: k in old(c.entries) ==> k in c.entries && c.entries[k] == old(c.entries)[k]
  {
    ghost var before := c.entries;
    var grouped: Dict := [];
    var i := 0;
    while i < |projects|
      invariant 0 <= i <= |projects|
      invariant c.entries == Stored(before, upstream, projects[..i])
      invariant AllResolvable(before, upstream, projects[..i])
      invariant GroupedOk(before, upstream, projects[..i], grouped)
    {
      var p := projects[i];
      PrefixSnoc(projects, i);
      FetchStep(before, upstream, projects[..i], p);
      var fetched := FetchEntry(c, upstream, p);
      if fetched.Failure? {
        assert !Resolvable(before, upstream, projects[i].name);
        StoredKeepsCache(before, upstream, projects[..i]);
        assert StopsAt(before, upstream, projects, i);
        return Failure(fetched.code);
      }
      AllResolvableAppend(before, upstream, projects[..i], p);
      GroupedStep(before, upstream, projects[..i], p, grouped, fetched.value);
      grouped := Put(grouped, p.name, fetched.value);
      i := i + 1;
    }
    assert projects[..|projects|] == projects;
    StoredKeepsCache(before, upstream, projects);
    r := Success(grouped);
  }

  /** `index()` after its query arguments are parsed and the registry is
      read: the page, or the response code of the GitlabGetError it raises. */
  method Index(c: Cache, upstream: string -> Lookup, projects: seq<ProjectRef>, f: Filters)
    returns (r: Result<Page>)
    modifies c
    ensures r.Success? <==>
      forall i :: 0 <= i < |projects| ==> Resolvable(old(c.entries), upstream, projects[i].name)
    ensures r.Failure? ==> r.code != NotFoundCode
    ensures r.Failure? ==> exists i :: (StopsAt(old(c.entries), upstream, projects, i)
      && r.code == upstream(projects[i].name).responseCode
      && c.entries == Stored(old(c.entries), upstream, projects[..i]))
    ensures r.Success? ==>
      && DistinctKeys(r.value.grouped)
      && Keys(r.value.grouped) == Names(projects)
      && (forall n :: n in Names(projects) ==>
            Get(r.value.grouped, n) == Some(Expected(old(c.entries), upstream, projects, n)))
    ensures r.Success? ==> c.entries == Stored(old(c.entries), upstream, projects)
    ensures r.Success? ==> r.value.filtered == FilterSpec(r.value.grouped, f)
    ensures r.Success? ==>
      && NoDuplicates(r.value.allBranches)
      && PrioritySorted(r.value.allBranches)
      && (forall b :: b in r.value.allBranches <==>
            exists i :: 0 <= i < |projects| && b in RequestedBranches(projects[i]))
  {
    var grouped := GroupProjects(c, upstream, projects);
    if grouped.Failure? {
      return Failure(grouped.code);
    }
    var allBranches := OrderByPriority(RequestedBranchSet(projects));
    var filtered := Filter(grouped.value, f);
    r := Success(Page(grouped.value, allBranches, filtered));
  }

  /** `clear_project_cache`: the one key goes, every other entry stays. */
  method ClearProjectCache(c: Cache, projectName: string)
    modifies c
    ensures c.entries == old(c.entries) - {projectName}
  {
    c.Delete(projectName);
  }

  /** `clear_selected_cache`: the selected keys go, every other entry stays. */
  method ClearSelectedCache(c: Cache, selected: seq<string>)
    modifies c
    ensures c.entries == old(c.entries) - (set n | n in selected)
  {
    var i := 0;
    while i < |selected|
      invariant 0 <= i <= |selected|
      invariant c.entries == old(c.entries) - (set j | 0 <= j < i :: selected[j])
    {
      c.Delete(selected[i]);
      i := i + 1;
    }
    assert (set j | 0 <= j < |selected| :: selected[j]) == (set n | n in selected);
  }
}
