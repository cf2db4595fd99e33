# GitLab project status dashboard — record derivation, cache and filter/sort

This project models, in Dafny, the self-contained logic of a Flask dashboard
that shows, for a list of GitLab projects, how many feature branches and open
merge requests each has, whether `main` has a pipeline at least as new as the
newest `develop` commit, and for each requested branch whether its newest
pipeline is at least as new as its newest commit.

What is modelled:

- **Entry derivation** (`App`, from `index()` in `app.py`): the short name,
  the feature-branch count, `main_synced_to_develop`, the per-branch records
  with their `'No pipeline found'` / `'No commit found'` markers, the default
  branch list and the 404 "Project Not Found" entry. GitLab's answers are
  inputs: a `Lookup` per project name (the project, or the response code of a
  `GitlabGetError`), and for a found project its web URL, branch names, open
  merge-request count and, per ref, the instant of the newest pipeline and of
  the newest commit. A ref missing from those maps stands for an empty list
  (`IndexError`) or an unparsable date (`ValueError`).
- **Cache** (`ProjectCache.Cache`): Flask-Caching as a class over a
  `map<string, Entry>` with `Get`, `Set` and `Delete`. `App.FetchEntry` is the
  hit/miss logic of `index()`, `App.GroupProjects` its loop over the project
  registry, and `ClearProjectCache` / `ClearSelectedCache` the two clearing
  routes.
- **Filter and sort** (`DataProcessor`, from `data_processor.py`): the four
  filters, the stable sort by lower-cased short name with the `desc` reversal,
  and the de-duplicated branch list ordered by `custom_sort`. `app.py` carries
  verbatim copies of `custom_sort` (lines 22-30) and of the filter loop (lines
  133-154); they are modelled once, in `DataProcessor`, and `App` imports them.

Modelling choices:

- Instants are integers. The conversion to Europe/Paris (app.py:100-103) does
  not change the instant, so comparing integers makes the same decisions.
- Python dicts are sequences of `(name, entry)` pairs in insertion order
  (`Records.Dict`); `Records.Put` is `d[k] = v`.
- Python's `sorted` is stable, and all stable sorts by one key give the same
  result (`DataProcessor.SortUnique`), so it is modelled as an insertion sort.
  Its contract is proved separately: the output is ascending and a
  permutation of the input, and entries with equal keys keep their input
  order.
- `sorted(list(set(...)), key=custom_sort)` orders names by rank only; inside
  one rank the order is the set's iteration order. `OrderByPriority` therefore
  picks within a rank nondeterministically and promises only what the source
  promises.
- The model follows the code in these points: an `'N/A'` count passes the minimum-feature-branch and maximum-open-MR
  filters (data_processor.py:19, 23); a branch status is `'✅'` whenever its
  pipeline is at least as new as its commit, whatever the pipeline's state
  (app.py:105-107); there is no per-key single-flight locking; and the two
  all-branches computations differ: `app.py:131` falls back to the defaults
  only when the `branches` key is missing, while `data_processor.py:40` also
  falls back when the list is empty.
- `App.Index` models `index()` after its query arguments are parsed and the
  registry is read. It returns the page, or the response code of the
  `GitlabGetError` it re-raises. `index()` filters the entries but does not sort
  them.

## Model

| member | source | states |
|---|---|---|
| `DataProcessor.CustomSort` | data_processor.py:1-9 | rank 0, 1, 2 exactly for develop, staging, main; every other name gets 3, so the rank is within 0..3 |
| `DataProcessor.KeepMeaning` | data_processor.py:14-33 | the loop keeps an entry iff (a) the query is empty or its lower-cased form occurs in the lower-cased full or short name, (b) a numeric feature count is at least the minimum, (c) a numeric MR count is at most the maximum, and (d) "synced" forces '✅' and "not_synced" forces '❌'; 'N/A' counts and other status values never exclude |
| `DataProcessor.Filter` | data_processor.py:12-33 | the filter loop builds exactly the specification sequence of kept entries, in input order |
| `DataProcessor.FilterMembership` | data_processor.py:12-33 | an entry is in the result iff it is in the input and passes; nothing is invented or altered, and nothing appears more often than in the input |
| `DataProcessor.FilterIdempotent` | data_processor.py:12-33 | filtering the result again with the same parameters gives the same result |
| `DataProcessor.NoFiltersKeepsAll` | data_processor.py:14-31 | with no filter given, every input entry is returned in order |
| `DataProcessor.SortByShortName` | data_processor.py:36 | `sorted(..., key=short name lower-cased)` returns a permutation of its input; its order is SortAscending, SortStable and SortUnique |
| `DataProcessor.SortAscending` | data_processor.py:36 | the sort output is non-decreasing by lower-cased short name and is a permutation of the input |
| `DataProcessor.SortStable` | data_processor.py:36 | for every key, the entries with that key appear in the output in their input order |
| `DataProcessor.SortOfAscending` | data_processor.py:36 | sorting an already ascending sequence leaves it unchanged |
| `DataProcessor.SortUnique` | data_processor.py:36 | any ascending sequence that keeps, for every key, the input order of that key's entries equals SortByShortName's output, so any stable sort gives the same result |
| `DataProcessor.AscendingUnique` | data_processor.py:36 | two ascending sequences with, key by key, the same entries in the same order are equal |
| `DataProcessor.Reverse` | data_processor.py:37-38 | `list.reverse()` keeps the length and the entries |
| `DataProcessor.ReverseAt` | data_processor.py:37-38 | element k of the reversed list is element n-1-k of the original |
| `DataProcessor.Arrange` | data_processor.py:36-38 | sorting, then reversing for "desc", is a permutation of the kept entries; its order is ArrangeOrder |
| `DataProcessor.ArrangeOrder` | data_processor.py:36-38 | "desc" output is exactly the reverse of the ascending output and is non-increasing; any other order value gives the ascending output; both are permutations of the kept entries |
| `DataProcessor.ArrangedFiltered` | data_processor.py:12-38 | the filtered, sorted entries are exactly the input entries meeting every filter, none more often than in the input, ascending unless the order is "desc", then descending |
| `DataProcessor.FilterAndSortIdempotent` | data_processor.py:12-38 | applying filter-and-sort to its own output returns the same entries, and in ascending order the very same sequence |
| `DataProcessor.OrderByPriority` | data_processor.py:40 | the branch list has no duplicates, holds exactly the names of the set, and is non-decreasing by custom_sort rank |
| `DataProcessor.BranchesOrDefault` | data_processor.py:40 | `p_data.get('branches') or default_branches`: the project's own list when present and non-empty, otherwise the defaults |
| `DataProcessor.FilterAndSort` | data_processor.py:11-41 | returns the kept entries in the arranged order (each kept entry, unchanged, and no other), ascending or descending as requested, and the branch list holding exactly the union of every project's branches, an absent or empty list replaced by the defaults, duplicate-free and ordered by rank |
| `Strings.Lower` | data_processor.py:15 | ASCII lower-casing keeps the length, lowers each character and leaves no upper-case ASCII letter |
| `Strings.ContainsIff` | data_processor.py:15 | Python's `sub in s` holds iff sub occurs in s at some index |
| `Strings.LexLeTotal` | data_processor.py:36 | any two sort keys are comparable under Python's string order |
| `Strings.LexLeTransitive` | data_processor.py:36 | Python's string order is transitive |
| `Strings.LexLeAntisymmetric` | data_processor.py:36 | two strings each at most the other are equal |
| `Records.Put` | app.py:115 | `d[k] = v` makes k map to v, leaves every other key's value alone, adds k to the keys and keeps keys distinct |
| `App.ShortName` | app.py:45 | the short name is a suffix of the full name containing no '/', and it is either the whole name or preceded by a '/', so it is exactly the part after the last '/' |
| `App.RequestedBranches` | app.py:42-47 | `project_data.get('branches', default_branches)`: the project's list whenever the key is present, even empty; develop, staging, main only when it is missing |
| `App.FeatureBranches` | app.py:53-56 | exactly the branches other than main, develop, staging and beta, with their multiplicities, so the count never exceeds the branch count |
| `App.MainSyncedToDevelop` | app.py:60-72 | 'N/A' iff the develop commit or the main pipeline is missing; '✅' iff both exist and pipeline >= commit; '❌' iff both exist and pipeline < commit |
| `App.BranchRecordFor` | app.py:84-113 | status '✅' iff both instants exist and pipeline >= commit, with no pipeline-state check; a missing pipeline or commit gives the 'No pipeline found' / 'No commit found' marker, a present one its instant |
| `App.BuildBranches` | app.py:84-113 | the branch map has exactly the requested branches as keys, each with its derived record |
| `App.EntryFor` | app.py:52-82 | the computed entry: short name, branch count, MR count, the feature count as the number of FeatureBranches (hence not above the branch count), main sync from develop commit and main pipeline, and branch keys exactly the requested branches |
| `App.NotFoundEntry` | app.py:117-127 | the 404 entry: the short name, the 'Project Not Found' status, every count and the sync status 'N/A', no web URL and no branches |
| `App.PlaceholderFiltering` | app.py:139-152 | an entry with 'N/A' counts and 'N/A' sync status passes both numeric filters; it is kept iff the search matches and the status filter is neither "synced" nor "not_synced" |
| `App.NotFoundEntryFiltering` | app.py:117-127 | the 404 entry ('N/A' counts, no branches) passes every numeric filter; only the search and the sync-status filters can drop it |
| `App.FetchRemote` | app.py:52-130 | on a miss: exactly the EntryFor entry (branches from the registry element) iff the project is found, exactly the 404 entry iff the lookup answers 404, otherwise a failure carrying the lookup's response code |
| `App.FetchSpec` | app.py:49-130 | a hit returns the stored entry and changes nothing; a miss for a found project returns EntryFor and stores it under the full name; a 404 returns the 404 entry and stores nothing; any other lookup error propagates with its response code and stores nothing; no other key is touched |
| `App.FetchEntry` | app.py:49-130 | the imperative cache hit/miss code returns and stores exactly what FetchSpec describes |
| `App.GroupProjects` | app.py:43-130 | succeeds iff every project is cached, found or answered with 404; the dict has one key per project name, each mapped to its cached entry, its derived entry (branches from its first registry element) or the 404 entry; the cache gains exactly the derived entries; on a re-raised error the code is that of the first unresolvable project and the cache holds exactly what the projects before it stored; entries cached before are never overwritten |
| `App.Index` | app.py:33-156 | the page holds the grouped entries as GroupProjects states (distinct keys, one per project name, each its expected entry), the filtered entries as the filter loop builds them, and the duplicate-free rank-ordered union of requested branches (defaults only for a missing key); on failure the code and the cache are as GroupProjects states |
| `App.ClearProjectCache` | app.py:158-161 | exactly the one key is removed; every other entry stays |
| `App.ClearSelectedCache` | app.py:163-168 | exactly the selected keys are removed; every other entry stays |
| `ProjectCache.Cache.Get` | app.py:50 | a hit returns the stored entry unchanged; a miss returns None |
| `ProjectCache.Cache.Set` | app.py:114 | the key now maps to the entry; every other entry stays |
| `ProjectCache.Cache.Delete` | app.py:160 | the key is gone; every other entry stays |

## Left out

- GitLab client calls (`gl.projects.get`, `branches.list`, `mergerequests.list`, `commits.list`, `pipelines.list`): foreign, networked library; their results are the `upstream` and `RemoteProject` inputs. Errors raised by the list calls are not modelled; only the `GitlabGetError` of the project lookup is.
- `dateutil` parsing, the `pytz` conversion to Europe/Paris and `strftime` formatting: foreign library code; instants are integers and the printed date strings are not produced.
- Flask routing, `request.args` parsing, reading `projects.json`, `render_template` and `redirect`: web and file plumbing.
- Flask-Caching's file-system storage, the 600 s timeout and the `CACHE_THRESHOLD` eviction: time-based and foreign; the cache is a plain map.
- Single-flight or per-key locking and concurrent fan-out: the code has none; everything is sequential.
- Unicode case folding: lower-casing covers ASCII letters only.
- The `sort_by` argument of `filter_and_sort_projects`: the source never reads it.
- gitlab_service.py is not part of this model: `get_project_data` repeats the app.py derivation around remote calls, and its success gate names an undefined `pipeline_status`; `get_default_branches` is an environment read.
- db_manager.py is not part of this model: SQLite and JSON file I/O only.
- App.GroupProjects: does not state the insertion order of `grouped_projects`, only its keys and values.
- DataProcessor.OrderByPriority: does not fix the order of names of equal rank, because the source leaves it to set iteration order.
