/** The records the dashboard passes around. In the source they are plain
    dictionaries with sentinel strings; here each field has its own type and
    the 'N/A', '✅' and '❌' strings become constructors. */
module Records {

  datatype Option<T> = None | Some(value: T)

  /** A result or the HTTP response code of a failed GitLab lookup. */
  datatype Result<T> = Success(value: T) | Failure(code: int)

  /** A count, or 'N/A' when the project could not be found. */
  datatype Count = Num(n: nat) | NA

  /** `main_synced_to_develop`: '✅', '❌' or 'N/A'. */
  datatype Sync = Synced | NotSynced | NA

  /** A branch `status`: '✅' or '❌'. */
  datatype Mark = Tick | Cross

  /** A date cell of a branch: an instant, or a "No ... found" marker. */
  datatype Stamp = At(instant: int) | Marker(text: string)

  datatype BranchRecord = BranchRecord(status: Mark, pipelineDate: Stamp, commitDate: Stamp)

  /** A project entry as cached and displayed. `notFound` stands for the
      'status': 'Project Not Found' key of the 404 entry; `webUrl` is None
      when the entry has no 'project_web_url' key. */
  datatype Entry = Entry(
    shortName: string,
    notFound: bool,
    featureBranchCount: Count,
    branchCount: Count,
    openMrCount: Count,
    mainSynced: Sync,
    webUrl: Option<string>,
    branches: map<string, BranchRecord>)

  /** One element of the project registry: a name and, optionally, the
      branches to report on (None when the 'branches' key is absent). */
  datatype ProjectRef = ProjectRef(name: string, branches: Option<seq<string>>)

  /** A Python dict from project name to entry, in insertion order. */
  type Item = (string, Entry)
  type Dict = seq<Item>

  function Keys(d: Dict): set<string> {
    set i | 0 <= i < |d| :: d[i].0
  }

  lemma KeysCons(x: Item, d: Dict)
    ensures Keys([x] + d) == {x.0} + Keys(d)
  {
    var e := [x] + d;
    forall k | k in Keys(d) ensures k in Keys(e) {
      var i :| 0 <= i < |d| && d[i].0 == k;
      assert e[i + 1] == d[i];
    }
    forall k | k in Keys(e) ensures k in {x.0} + Keys(d) {
      var i :| 0 <= i < |e| && e[i].0 == k;
      if i > 0 { assert e[i] == d[i - 1]; }
    }
    assert e[0] == x;
  }

  predicate DistinctKeys(d: Dict) {
    forall i, j :: 0 <= i < j < |d| ==> d[i].0 != d[j].0
  }

  lemma DistinctCons(x: Item, d: Dict)
    ensures DistinctKeys([x] + d) <==> x.0 !in Keys(d) && DistinctKeys(d)
  {
    var e := [x] + d;
    KeysCons(x, d);
    if x.0 !in Keys(d) && DistinctKeys(d) {
      forall i, j | 0 <= i < j < |e| ensures e[i].0 != e[j].0 {
        assert e[j] == d[j - 1];
        if i > 0 {
          assert e[i] == d[i - 1];
        }
      }
    }
    if DistinctKeys(e) {
      forall i, j | 0 <= i < j < |d| ensures d[i].0 != d[j].0 {
        assert e[i + 1] == d[i] && e[j + 1] == d[j];
      }
      forall i | 0 <= i < |d| ensures d[i].0 != x.0 {
        assert e[0] == x && e[i + 1] == d[i];
      }
    }
  }

  /** `d.get(k)`. */
  function Get(d: Dict, k: string): (r: Option<Entry>)
    ensures r.Some? <==> k in Keys(d)
    ensures r.Some? ==> (k, r.value) in d
  {
    if d == [] then None
    else if d[0].0 == k then Some(d[0].1)
    else
      KeysCons(d[0], d[1..]);
      assert d == [d[0]] + d[1..];
      Get(d[1..], k)
  }

  lemma GetCons(x: Item, d: Dict)
    ensures forall k :: Get([x] + d, k) == if x.0 == k then Some(x.1) else Get(d, k)
  {
    assert ([x] + d)[0] == x && ([x] + d)[1..] == d;
  }

  /** `d[k] = v`: replaces the value in place when k is present, otherwise
      appends, so the insertion order of the other keys is kept. */
  function Put(d: Dict, k: string, v: Entry): (r: Dict)
    ensures Get(r, k) == Some(v)
    ensures forall k' :: k' != k ==> Get(r, k') == Get(d, k')
    ensures Keys(r) == Keys(d) + {k}
    ensures DistinctKeys(d) ==> DistinctKeys(r)
  {
    if d == [] then [(k, v)]
    else if d[0].0 == k then
      var r := [(k, v)] + d[1..];
      KeysCons(d[0], d[1..]);
      KeysCons((k, v), d[1..]);
      DistinctCons(d[0], d[1..]);
      DistinctCons((k, v), d[1..]);
      assert d == [d[0]] + d[1..];
      GetCons(d[0], d[1..]);
      GetCons((k, v), d[1..]);
      r
    else
      var rest := Put(d[1..], k, v);
      var r := [d[0]] + rest;
      KeysCons(d[0], d[1..]);
      KeysCons(d[0], rest);
      DistinctCons(d[0], d[1..]);
      DistinctCons(d[0], rest);
      assert d == [d[0]] + d[1..];
      GetCons(d[0], d[1..]);
      GetCons(d[0], rest);
      r
  }
}
