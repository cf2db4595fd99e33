/** data_processor.py: the filter predicates over the project entries, the
    stable case-insensitive sort by short name with its `desc` reversal, and
    the priority-ordered list of every requested branch name. */
module DataProcessor {
  import opened Strings
  import opened Records

  /** `custom_sort`: develop, staging and main come first, in that order;
      every other branch name shares the last rank. */
  function CustomSort(branch: string): (r: nat)
    ensures r <= 3
    ensures r == 0 <==> branch == "develop"
    ensures r == 1 <==> branch == "staging"
    ensures r == 2 <==> branch == "main"
  {
    if branch == "develop" then 0
    else if branch == "staging" then 1
    else if branch == "main" then 2
    else 3
  }

  /** The query parameters: an empty search query or sync status means "not
      given", as does None for the two integer bounds. */
  datatype Filters = Filters(
    searchQuery: string,
    minFeatureBranches: Option<int>,
    maxOpenMrs: Option<int>,
    mainSyncStatus: string)

  /** The body of the filter loop: true when none of its four `continue`
      conditions fires. */
  predicate Keep(f: Filters, it: Item) {
    var (name, e) := it;
    var q := Lower(f.searchQuery);
    && !(f.searchQuery != [] && !Contains(Lower(name), q) && !Contains(Lower(e.shortName), q))
    && !(f.minFeatureBranches.Some? && e.featureBranchCount.Num?
         && e.featureBranchCount.n < f.minFeatureBranches.value)
    && !(f.maxOpenMrs.Some? && e.openMrCount.Num? && e.openMrCount.n > f.maxOpenMrs.value)
    && !(f.mainSyncStatus != []
         && ((f.mainSyncStatus == "synced" && e.mainSynced != Synced)
             || (f.mainSyncStatus == "not_synced" && e.mainSynced != NotSynced)))
  }

  /** The meaning of each filter, stated independently of Keep. */
  ghost predicate IsSubstring(sub: string, s: string) {
    exists i :: OccursAt(sub, s, i)
  }

  ghost predicate SearchOk(q: string, it: Item) {
    q == [] || IsSubstring(Lower(q), Lower(it.0)) || IsSubstring(Lower(q), Lower(it.1.shortName))
  }

  /** An 'N/A' count passes any bound. */
  ghost predicate AtLeast(bound: Option<int>, c: Count) {
    match c
    case NA => true
    case Num(n) => bound.None? || n >= bound.value
  }

  ghost predicate AtMost(bound: Option<int>, c: Count) {
    match c
    case NA => true
    case Num(n) => bound.None? || n <= bound.value
  }

  /** Only the two known status values constrain anything. */
  ghost predicate SyncOk(status: string, s: Sync) {
    (status == "synced" ==> s == Synced) && (status == "not_synced" ==> s == NotSynced)
  }

  ghost predicate Meets(f: Filters, it: Item) {
    && SearchOk(f.searchQuery, it)
    && AtLeast(f.minFeatureBranches, it.1.featureBranchCount)
    && AtMost(f.maxOpenMrs, it.1.openMrCount)
    && SyncOk(f.mainSyncStatus, it.1.mainSynced)
  }

  /** The loop keeps exactly the entries that meet every filter. */
  lemma KeepMeaning(f: Filters, it: Item)
    ensures Keep(f, it) <==> Meets(f, it)
  {
    ContainsIff(Lower(it.0), Lower(f.searchQuery));
    ContainsIff(Lower(it.1.shortName), Lower(f.searchQuery));
  }

  /** No filter given. */
  predicate NoFilters(f: Filters) {
    && f.searchQuery == []
    && f.minFeatureBranches.None?
    && f.maxOpenMrs.None?
    && f.mainSyncStatus != "synced"
    && f.mainSyncStatus != "not_synced"
  }

  /** What the filter loop builds from the first |d| entries. */
  function FilterSpec(d: Dict, f: Filters): Dict {
    if d == [] then []
    else
      var last := d[|d| - 1];
      FilterSpec(d[..|d| - 1], f) + (if Keep(f, last) then [last] else [])
  }

  /** The loop of filter_and_sort_projects that fills `filtered_projects`
      (app.py repeats it verbatim). Each key is met once, so the dict
      insertion is an append. */
  method Filter(grouped: Dict, f: Filters) returns (kept: Dict)
    ensures kept == FilterSpec(grouped, f)
  {
    kept := [];
    var i := 0;
    while i < |grouped|
      invariant 0 <= i <= |grouped|
      invariant kept == FilterSpec(grouped[..i], f)
    {
      var item := grouped[i];
      assert grouped[..i + 1][..i] == grouped[..i];
      if Keep(f, item) {
        kept := kept + [item];
      }
      i := i + 1;
    }
    assert grouped[..|grouped|] == grouped;
  }

  /** The result holds exactly the input entries that pass, name and data
      unchanged, each no more often than in the input. */
  lemma {:induction false} FilterMembership(d: Dict, f: Filters)
    ensures forall it :: it in FilterSpec(d, f) <==> it in d && Keep(f, it)
    ensures multiset(FilterSpec(d, f)) <= multiset(d)
  {
    if d != [] {
      var init := d[..|d| - 1];
      FilterMembership(init, f);
      assert d == init + [d[|d| - 1]];
    }
  }

  /** Filtering a sequence every entry of which passes changes nothing. */
  lemma {:induction false} FilterAllKept(s: Dict, f: Filters)
    requires forall i :: 0 <= i < |s| ==> Keep(f, s[i])
    ensures FilterSpec(s, f) == s
  {
    if s != [] {
      var init := s[..|s| - 1];
      assert forall i :: 0 <= i < |init| ==> init[i] == s[i];
      FilterAllKept(init, f);
      assert Keep(f, s[|s| - 1]);
      assert s == init + [s[|s| - 1]];
    }
  }

  /** Filtering twice with the same parameters is filtering once. */
  lemma FilterIdempotent(d: Dict, f: Filters)
    ensures FilterSpec(FilterSpec(d, f), f) == FilterSpec(d, f)
  {
    var once := FilterSpec(d, f);
    FilterMembership(d, f);
    assert forall i :: 0 <= i < |once| ==> once[i] in once;
    FilterAllKept(once, f);
  }

  /** With no filter given every entry is returned, in order. */
  lemma NoFiltersKeepsAll(d: Dict, f: Filters)
    requires NoFilters(f)
    ensures FilterSpec(d, f) == d
  {
    forall i | 0 <= i < |d| ensures Keep(f, d[i]) {
      KeepMeaning(f, d[i]);
    }
    FilterAllKept(d, f);
  }

  // Sorting: `sorted(..., key=lambda item: item[1]['short_name'].lower())`.

  function SortKey(it: Item): string {
    Lower(it.1.shortName)
  }

  predicate Ascending(s: Dict) {
    forall i, j :: 0 <= i < j < |s| ==> LexLe(SortKey(s[i]), SortKey(s[j]))
  }

  predicate Descending(s: Dict) {
    forall i, j :: 0 <= i < j < |s| ==> LexLe(SortKey(s[j]), SortKey(s[i]))
  }

  /** The entries of s whose key is k, in their order in s. */
  function WithKey(s: Dict, k: string): Dict {
    if s == [] then [] else (if SortKey(s[0]) == k then [s[0]] else []) + WithKey(s[1..], k)
  }

  /** Puts x before the first element whose key is not smaller. */
  function Insert(x: Item, t: Dict): Dict {
    if t == [] || LexLe(SortKey(x), SortKey(t[0])) then [x] + t
    else [t[0]] + Insert(x, t[1..])
  }

  /** Python's stable sort by short name, as an insertion sort. Stable sorts
      by the same key all agree, so this is `sorted` itself; its
      properties are SortAscending and SortStable. */
  function SortByShortName(d: Dict): (r: Dict)
    ensures multiset(r) == multiset(d)
  {
    if d == [] then [] else
      var rest := SortByShortName(d[1..]);
      InsertMultiset(d[0], rest);
      assert d == [d[0]] + d[1..];
      Insert(d[0], rest)
  }

  lemma {:induction false} InsertMultiset(x: Item, t: Dict)
    ensures multiset(Insert(x, t)) == multiset(t) + multiset{x}
  {
    if t != [] && !LexLe(SortKey(x), SortKey(t[0])) {
      InsertMultiset(x, t[1..]);
      assert t == [t[0]] + t[1..];
    }
  }

  /** A bound below x and below every key of t is below every key of the result. */
  lemma {:induction false} InsertLowerBound(x: Item, t: Dict, lo: string)
    requires LexLe(lo, SortKey(x))
    requires forall j :: 0 <= j < |t| ==> LexLe(lo, SortKey(t[j]))
    ensures forall j :: 0 <= j < |Insert(x, t)| ==> LexLe(lo, SortKey(Insert(x, t)[j]))
  {
    if t != [] && !LexLe(SortKey(x), SortKey(t[0])) {
      InsertLowerBound(x, t[1..], lo);
    }
  }

  lemma {:induction false} InsertAscending(x: Item, t: Dict)
    requires Ascending(t)
    ensures Ascending(Insert(x, t))
    ensures multiset(Insert(x, t)) == multiset(t) + multiset{x}
  {
    InsertMultiset(x, t);
    if t == [] {
    } else if LexLe(SortKey(x), SortKey(t[0])) {
      forall j | 0 < j < |t| ensures LexLe(SortKey(x), SortKey(t[j])) {
        LexLeTransitive(SortKey(x), SortKey(t[0]), SortKey(t[j]));
      }
    } else {
      LexLeTotal(SortKey(x), SortKey(t[0]));
      var rest := Insert(x, t[1..]);
      InsertAscending(x, t[1..]);
      InsertLowerBound(x, t[1..], SortKey(t[0]));
      assert Insert(x, t) == [t[0]] + rest;
    }
  }

  /** The sort puts the entries in non-decreasing key order and is a
      permutation of its input. */
  lemma {:induction false} SortAscending(d: Dict)
    ensures Ascending(SortByShortName(d))
    ensures multiset(SortByShortName(d)) == multiset(d)
  {
    if d != [] {
      SortAscending(d[1..]);
      InsertAscending(d[0], SortByShortName(d[1..]));
      assert d == [d[0]] + d[1..];
    }
  }

  lemma {:induction false} WithKeyAppend(a: Dict, b: Dict, k: string)
    ensures WithKey(a + b, k) == WithKey(a, k) + WithKey(b, k)
  {
    if a != [] {
      WithKeyAppend(a[1..], b, k);
      assert (a + b)[0] == a[0];
      assert (a + b)[1..] == a[1..] + b;
      var head := if SortKey(a[0]) == k then [a[0]] else [];
      assert WithKey(a + b, k) == head + (WithKey(a[1..], k) + WithKey(b, k));
      assert head + (WithKey(a[1..], k) + WithKey(b, k)) == (head + WithKey(a[1..], k)) + WithKey(b, k);
    } else {
      assert a + b == b;
    }
  }

  lemma {:induction false} InsertWithKey(x: Item, t: Dict, k: string)
    ensures WithKey(Insert(x, t), k)
         == (if SortKey(x) == k then [x] else []) + WithKey(t, k)
  {
    if t == [] || LexLe(SortKey(x), SortKey(t[0])) {
      WithKeyAppend([x], t, k);
    } else {
      var hx := if SortKey(x) == k then [x] else [];
      var h0 := if SortKey(t[0]) == k then [t[0]] else [];
      LexLeReflexive(SortKey(x));
      assert hx == [] || h0 == [];
      assert Insert(x, t) == [t[0]] + Insert(x, t[1..]);
      InsertWithKey(x, t[1..], k);
      WithKeyAppend([t[0]], Insert(x, t[1..]), k);
      assert WithKey([t[0]], k) == h0;
      assert WithKey(t, k) == h0 + WithKey(t[1..], k);
      assert WithKey(Insert(x, t), k) == h0 + (hx + WithKey(t[1..], k));
      assert h0 + (hx + WithKey(t[1..], k)) == hx + (h0 + WithKey(t[1..], k));
    }
  }

  /** Stability: for every key, the entries with that key keep their input
      order. */
  lemma {:induction false} SortStable(d: Dict, k: string)
    ensures WithKey(SortByShortName(d), k) == WithKey(d, k)
  {
    if d != [] {
      SortStable(d[1..], k);
      InsertWithKey(d[0], SortByShortName(d[1..]), k);
    }
  }

  /** An already ascending sequence is left as it is. */
  lemma {:induction false} SortOfAscending(d: Dict)
    requires Ascending(d)
    ensures SortByShortName(d) == d
  {
    if d != [] {
      assert Ascending(d[1..]);
      SortOfAscending(d[1..]);
    }
  }

  /** The entries with key k are exactly the entries of s with that key. */
  lemma {:induction false} WithKeyIn(s: Dict, k: string, x: Item)
    requires x in WithKey(s, k)
    ensures x in s && SortKey(x) == k
  {
    if s != [] {
      if x != s[0] || SortKey(s[0]) != k {
        WithKeyIn(s[1..], k, x);
      }
    }
  }

  lemma WithKeyFirst(s: Dict)
    requires s != []
    ensures WithKey(s, SortKey(s[0])) == [s[0]] + WithKey(s[1..], SortKey(s[0]))
  {
  }

  /** Two ascending sequences that hold, key by key, the same entries in the
      same order are equal. */
  lemma {:induction false} AscendingUnique(a: Dict, b: Dict)
    requires Ascending(a) && Ascending(b)
    requires forall k :: WithKey(a, k) == WithKey(b, k)
    ensures a == b
    decreases |a| + |b|
  {
    if a == [] || b == [] {
      // a non-empty side has a non-empty WithKey for its first key
      if a != [] {
        WithKeyFirst(a);
      } else if b != [] {
        WithKeyFirst(b);
      }
    } else {
      var ka, kb := SortKey(a[0]), SortKey(b[0]);
      assert WithKey(a, ka) == [a[0]] + WithKey(a[1..], ka);
      assert WithKey(b, kb) == [b[0]] + WithKey(b[1..], kb);
      WithKeyIn(b, ka, a[0]);
      WithKeyIn(a, kb, b[0]);
      LexLeReflexive(ka);
      LexLeReflexive(kb);
      assert LexLe(kb, ka) && LexLe(ka, kb) by {
        var j :| 0 <= j < |b| && b[j] == a[0];
        var m :| 0 <= m < |a| && a[m] == b[0];
        if j > 0 { assert LexLe(SortKey(b[0]), SortKey(b[j])); }
        if m > 0 { assert LexLe(SortKey(a[0]), SortKey(a[m])); }
      }
      LexLeAntisymmetric(ka, kb);
      var wa, wb := WithKey(a[1..], ka), WithKey(b[1..], ka);
      assert WithKey(b, ka) == [b[0]] + wb;
      assert [a[0]] + wa == [b[0]] + wb;
      assert ([a[0]] + wa)[0] == a[0] && ([b[0]] + wb)[0] == b[0];
      assert ([a[0]] + wa)[1..] == wa && ([b[0]] + wb)[1..] == wb;
      assert a[0] == b[0] && wa == wb;
      forall k ensures WithKey(a[1..], k) == WithKey(b[1..], k) {
        assert WithKey(a, k) == WithKey(b, k);
        if k != ka {
          assert WithKey(a, k) == WithKey(a[1..], k);
          assert WithKey(b, k) == WithKey(b[1..], k);
        }
      }
      AscendingUnique(a[1..], b[1..]);
      assert a == [a[0]] + a[1..] && b == [b[0]] + b[1..];
    }
  }

  /** Any ascending arrangement of d that keeps, for every key, the input
      order of the entries with that key is the sort's own output: every
      stable sort by the lower-cased short name gives SortByShortName. */
  lemma SortUnique(d: Dict, r: Dict)
    requires Ascending(r)
    requires forall k :: WithKey(r, k) == WithKey(d, k)
    ensures r == SortByShortName(d)
  {
    SortAscending(d);
    forall k ensures WithKey(r, k) == WithKey(SortByShortName(d), k) {
      SortStable(d, k);
    }
    AscendingUnique(r, SortByShortName(d));
  }

  /** `list.reverse()`. */
  function Reverse(s: Dict): (r: Dict)
    ensures |r| == |s|
    ensures multiset(r) == multiset(s)
  {
    if s == [] then [] else
      assert s == [s[0]] + s[1..];
      Reverse(s[1..]) + [s[0]]
  }

  lemma {:induction false} ReverseAt(s: Dict, k: int)
    requires 0 <= k < |s|
    ensures Reverse(s)[k] == s[|s| - 1 - k]
  {
    if k < |s| - 1 {
      ReverseAt(s[1..], k);
    }
  }

  /** The order of the returned projects: ascending by short name, reversed
      as a whole for "desc". */
  function Arrange(d: Dict, sortOrder: string): (r: Dict)
    ensures multiset(r) == multiset(d)
  {
    var sorted := SortByShortName(d);
    if sortOrder == "desc" then Reverse(sorted) else sorted
  }

  /** "desc" is exactly the reverse of ascending, and is in non-increasing
      key order; both orders are permutations of the kept entries. */
  lemma ArrangeOrder(d: Dict, sortOrder: string)
    ensures multiset(Arrange(d, sortOrder)) == multiset(d)
    ensures sortOrder != "desc" ==> Ascending(Arrange(d, sortOrder))
    ensures sortOrder == "desc" ==> Descending(Arrange(d, sortOrder))
    ensures Arrange(d, "desc") == Reverse(Arrange(d, "asc"))
  {
    var sorted := SortByShortName(d);
    SortAscending(d);
    if sortOrder == "desc" {
      var r := Reverse(sorted);
      forall i, j | 0 <= i < j < |r| ensures LexLe(SortKey(r[j]), SortKey(r[i])) {
        ReverseAt(sorted, i);
        ReverseAt(sorted, j);
      }
    }
  }

  /** The filtered and arranged entries are exactly the input entries that
      meet every filter, each at most as often as in the input, in the
      requested key order. */
  lemma ArrangedFiltered(d: Dict, f: Filters, sortOrder: string)
    ensures var r := Arrange(FilterSpec(d, f), sortOrder);
      && (forall it :: it in r <==> it in d && Meets(f, it))
      && multiset(r) <= multiset(d)
      && (sortOrder != "desc" ==> Ascending(r))
      && (sortOrder == "desc" ==> Descending(r))
  {
    var kept := FilterSpec(d, f);
    var r := Arrange(kept, sortOrder);
    FilterMembership(d, f);
    ArrangeOrder(kept, sortOrder);
    forall it | it in d ensures Keep(f, it) <==> Meets(f, it) {
      KeepMeaning(f, it);
    }
    assert forall it :: it in r <==> it in multiset(kept);
  }

  /** Running the filter and the sort again on their own output with the same
      parameters returns the same entries; in ascending order it returns the
      very same sequence. */
  lemma FilterAndSortIdempotent(d: Dict, f: Filters, sortOrder: string)
    ensures var once := Arrange(FilterSpec(d, f), sortOrder);
            multiset(Arrange(FilterSpec(once, f), sortOrder)) == multiset(once)
    ensures var once := Arrange(FilterSpec(d, f), "asc");
            Arrange(FilterSpec(once, f), "asc") == once
  {
    FilterMembership(d, f);
    var kept := FilterSpec(d, f);
    ArrangeOrder(kept, sortOrder);
    ArrangeOrder(kept, "asc");
    var once := Arrange(kept, sortOrder);
    forall i | 0 <= i < |once| ensures Keep(f, once[i]) {
      assert once[i] in multiset(kept);
    }
    FilterAllKept(once, f);
    ArrangeOrder(once, sortOrder);
    var asc := Arrange(kept, "asc");
    forall i | 0 <= i < |asc| ensures Keep(f, asc[i]) {
      assert asc[i] in multiset(kept);
    }
    FilterAllKept(asc, f);
    SortOfAscending(asc);
  }

  // The branch list: `sorted(list(set(...)), key=custom_sort)`.

  /** `p_data.get('branches') or default_branches`: a missing or empty list
      falls back to the defaults. */
  function BranchesOrDefault(p: ProjectRef, defaults: seq<string>): (r: seq<string>)
    ensures p.branches.Some? && p.branches.value != [] ==> r == p.branches.value
    ensures p.branches.None? || p.branches.value == [] ==> r == defaults
  {
    if p.branches.Some? && p.branches.value != [] then p.branches.value else defaults
  }

  predicate NoDuplicates(r: seq<string>) {
    forall i, j :: 0 <= i < j < |r| ==> r[i] != r[j]
  }

  predicate PrioritySorted(r: seq<string>) {
    forall i, j :: 0 <= i < j < |r| ==> CustomSort(r[i]) <= CustomSort(r[j])
  }

  /** Lists the names of s by custom_sort rank. Within a rank the order is
      the set's iteration order, which the source leaves unspecified, so the
      choice here is nondeterministic. */
  method OrderByPriority(s: set<string>) returns (r: seq<string>)
    ensures NoDuplicates(r)
    ensures forall b :: b in r <==> b in s
    ensures PrioritySorted(r)
  {
    r := [];
    var rank := 0;
    while rank < 4
      invariant 0 <= rank <= 4
      invariant NoDuplicates(r) && PrioritySorted(r)
      invariant forall i :: 0 <= i < |r| ==> CustomSort(r[i]) < rank
      invariant forall b :: b in r <==> b in s && CustomSort(b) < rank
    {
      var bucket := set b | b in s && CustomSort(b) == rank;
      while bucket != {}
        invariant forall b :: b in bucket ==> b in s && CustomSort(b) == rank && b !in r
        invariant NoDuplicates(r) && PrioritySorted(r)
        invariant forall i :: 0 <= i < |r| ==> CustomSort(r[i]) <= rank
        invariant forall b :: b in r <==> b in s && (CustomSort(b) < rank || (CustomSort(b) == rank && b !in bucket))
        decreases bucket
      {
        var x :| x in bucket;
        r := r + [x];
        bucket := bucket - {x};
      }
      rank := rank + 1;
    }
  }

  /** Every branch name requested by some project, with the fallback. */
  function BranchSet(projects: seq<ProjectRef>, defaults: seq<string>): set<string> {
    set i, b | 0 <= i < |projects| && b in BranchesOrDefault(projects[i], defaults) :: b
  }

  /** filter_and_sort_projects (its `sort_by` argument is never read). */
  method FilterAndSort(grouped: Dict, f: Filters, sortOrder: string,
                       projectsData: seq<ProjectRef>, defaults: seq<string>)
    returns (projects: Dict, allBranches: seq<string>)
    ensures projects == Arrange(FilterSpec(grouped, f), sortOrder)
    ensures forall it :: it in projects <==> it in grouped && Meets(f, it)
    ensures multiset(projects) <= multiset(grouped)
    ensures sortOrder != "desc" ==> Ascending(projects)
    ensures sortOrder == "desc" ==> Descending(projects)
    ensures NoDuplicates(allBranches) && PrioritySorted(allBranches)
    ensures forall b :: b in allBranches <==>
      exists i :: 0 <= i < |projectsData| && b in BranchesOrDefault(projectsData[i], defaults)
  {
    var kept := Filter(grouped, f);
    projects := SortByShortName(kept);
    if sortOrder == "desc" {
      projects := Reverse(projects);
    }
    allBranches := OrderByPriority(BranchSet(projectsData, defaults));
    ArrangedFiltered(grouped, f, sortOrder);
  }
}
