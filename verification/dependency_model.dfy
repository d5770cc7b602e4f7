/** dependency_file_manager.py: the parsed path, component and vulnerability
    records; the component and vulnerability dictionaries derived from them;
    the per-path vulnerability sets; and the adjusted-weight table. */
module DependencyModel {
  import opened Prelude

  /** `<src=".." dst=".." route=".."/>`; `route` is the raw comma-separated field. */
  datatype PathRecord = PathRecord(src: string, dst: string, route: string)

  /** `{uid, "name", "address", vul=".."}`; `vul` is the raw comma-separated field. */
  datatype ComponentRecord = ComponentRecord(uid: string, compName: string, address: string, vul: string)

  /** `{name=".." score=".."}`; `score` is the captured run of digits. */
  datatype VulnerabilityRecord = VulnerabilityRecord(name: string, score: string)

  datatype DependencyError =
    | AdjustedWeightsUnbound  // `vul_adjusted` is only bound inside the loop over paths

  // ---------------------------------------------------------------------------
  // comps_to_dict, vuls_to_int, dict(vuls)
  // ---------------------------------------------------------------------------

  /** `comps_to_dict`: component id to its raw vulnerability field. */
  function CompsToDict(comps: seq<ComponentRecord>): (d: map<string, string>)
    ensures d.Keys == set i | 0 <= i < |comps| :: comps[i].uid
    ensures forall i :: 0 <= i < |comps| && IsLastComponent(comps, i) ==> d[comps[i].uid] == comps[i].vul
  {
    var pairs := seq(|comps|, i requires 0 <= i < |comps| => (comps[i].uid, comps[i].vul));
    assert forall i :: 0 <= i < |comps| ==> pairs[i] == (comps[i].uid, comps[i].vul);
    assert forall i :: 0 <= i < |comps| && IsLastComponent(comps, i) ==> IsLastKeyBefore(pairs, |pairs|, i);
    DictOf(pairs)
  }

  /** Position `i` holds the last component record with its id. */
  predicate IsLastComponent(comps: seq<ComponentRecord>, i: nat)
    requires i < |comps|
  {
    forall j :: i < j < |comps| ==> comps[j].uid != comps[i].uid
  }

  /** The names of the first `n` vulnerability records. */
  function NamesBefore(vuls: seq<VulnerabilityRecord>, n: nat): set<string>
    requires n <= |vuls|
  {
    set i | 0 <= i < n :: vuls[i].name
  }

  lemma NamesBeforeStep(vuls: seq<VulnerabilityRecord>, n: nat)
    requires 0 < n <= |vuls|
    ensures NamesBefore(vuls, n) == NamesBefore(vuls, n - 1) + {vuls[n - 1].name}
  {
    forall x | x in NamesBefore(vuls, n)
      ensures x in NamesBefore(vuls, n - 1) + {vuls[n - 1].name}
    {
      var i :| 0 <= i < n && vuls[i].name == x;
      if i < n - 1 {
        assert x in NamesBefore(vuls, n - 1);
      }
    }
    forall x | x in NamesBefore(vuls, n - 1)
      ensures x in NamesBefore(vuls, n)
    {
      var i :| 0 <= i < n - 1 && vuls[i].name == x;
    }
    assert vuls[n - 1].name in NamesBefore(vuls, n);
  }

  /** The vulnerability names, as a set. */
  function Names(vuls: seq<VulnerabilityRecord>): set<string>
  {
    NamesBefore(vuls, |vuls|)
  }

  /** Python's `dict(vuls)`: vulnerability name to its score digits. */
  function ScoreDict(vuls: seq<VulnerabilityRecord>): (d: map<string, string>)
    ensures d.Keys == Names(vuls)
    ensures forall i :: 0 <= i < |vuls| && IsLastName(vuls, i) ==> d[vuls[i].name] == vuls[i].score
  {
    var pairs := seq(|vuls|, i requires 0 <= i < |vuls| => (vuls[i].name, vuls[i].score));
    assert forall i :: 0 <= i < |vuls| ==> pairs[i] == (vuls[i].name, vuls[i].score);
    assert forall i :: 0 <= i < |vuls| && IsLastName(vuls, i) ==> IsLastKeyBefore(pairs, |pairs|, i);
    DictOf(pairs)
  }

  /** `vuls.index(record) + 1` for the record at position `i`: the position of
      the first record equal to it (same name and same score digits), plus one. */
  function VarNumber(vuls: seq<VulnerabilityRecord>, i: nat): (k: nat)
    requires i < |vuls|
    ensures 1 <= k <= i + 1 && vuls[k - 1] == vuls[i]
    ensures forall j :: 0 <= j < k - 1 ==> vuls[j] != vuls[i]
  {
    FirstIndex(vuls, vuls[i]) + 1
  }

  /** Position `i` holds the last record with its name. */
  predicate IsLastName(vuls: seq<VulnerabilityRecord>, i: nat)
    requires i < |vuls|
  {
    forall j :: i < j < |vuls| ==> vuls[j].name != vuls[i].name
  }

  /** `vuls_to_int` over the first `n` records: `dict(zip(names, numbers))`
      built pair by pair, a later name overwriting an earlier one. */
  function NumberPrefix(vuls: seq<VulnerabilityRecord>, n: nat): map<string, string>
    requires n <= |vuls|
  {
    if n == 0 then map[]
    else NumberPrefix(vuls, n - 1)[vuls[n - 1].name := Decimal(VarNumber(vuls, n - 1))]
  }

  /** The numbered names are the names of the records read so far. */
  lemma {:induction false} NumberPrefixKeys(vuls: seq<VulnerabilityRecord>, n: nat)
    requires n <= |vuls|
    ensures NumberPrefix(vuls, n).Keys == NamesBefore(vuls, n)
  {
    if n > 0 {
      NumberPrefixKeys(vuls, n - 1);
      NamesBeforeStep(vuls, n);
    }
  }

  /** `vuls_to_int`: vulnerability name to its 1-based variable number, as
      decimal text: `str(vuls.index(record) + 1)` of the last record with that name. */
  function VulsToInt(vuls: seq<VulnerabilityRecord>): (m: map<string, string>)
    ensures m.Keys == Names(vuls)
  {
    NumberPrefixKeys(vuls, |vuls|);
    NumberPrefix(vuls, |vuls|)
  }

  lemma {:induction false} NumberPrefixLast(vuls: seq<VulnerabilityRecord>, n: nat, i: nat)
    requires i < n <= |vuls|
    requires forall j :: i < j < n ==> vuls[j].name != vuls[i].name
    ensures vuls[i].name in NumberPrefix(vuls, n)
    ensures NumberPrefix(vuls, n)[vuls[i].name] == Decimal(VarNumber(vuls, i))
  {
    if i < n - 1 {
      NumberPrefixLast(vuls, n - 1, i);
      assert vuls[n - 1].name != vuls[i].name;
    }
  }

  /** The number of a name is that of the last record carrying the name. */
  lemma VulsToIntLast(vuls: seq<VulnerabilityRecord>, i: nat)
    requires i < |vuls| && IsLastName(vuls, i)
    ensures VulsToInt(vuls)[vuls[i].name] == Decimal(VarNumber(vuls, i))
  {
    NumberPrefixLast(vuls, |vuls|, i);
  }

  lemma {:induction false} NumberPrefixNamesRecord(vuls: seq<VulnerabilityRecord>, n: nat, x: string)
    requires n <= |vuls| && x in NumberPrefix(vuls, n)
    ensures exists k :: 1 <= k <= n && vuls[k - 1].name == x && NumberPrefix(vuls, n)[x] == Decimal(k)
  {
    if vuls[n - 1].name == x {
      var k := VarNumber(vuls, n - 1);
      assert vuls[k - 1].name == x;
    } else {
      NumberPrefixNamesRecord(vuls, n - 1, x);
    }
  }

  /** Every variable number names a record with that name: the number of
      `x` is `k` with `1 <= k <= |vuls|` and `vuls[k-1].name == x`. */
  lemma VarNumberNamesRecord(vuls: seq<VulnerabilityRecord>, x: string)
    requires x in Names(vuls)
    ensures exists k :: 1 <= k <= |vuls| && vuls[k - 1].name == x && VulsToInt(vuls)[x] == Decimal(k)
  {
    NumberPrefixKeys(vuls, |vuls|);
    NumberPrefixNamesRecord(vuls, |vuls|, x);
  }

  /** Distinct names get distinct variable numbers, whatever the records. */
  lemma VulsToIntInjective(vuls: seq<VulnerabilityRecord>, x: string, y: string)
    requires x in Names(vuls) && y in Names(vuls)
    requires VulsToInt(vuls)[x] == VulsToInt(vuls)[y]
    ensures x == y
  {
    VarNumberNamesRecord(vuls, x);
    VarNumberNamesRecord(vuls, y);
    var a :| 1 <= a <= |vuls| && vuls[a - 1].name == x && VulsToInt(vuls)[x] == Decimal(a);
    var b :| 1 <= b <= |vuls| && vuls[b - 1].name == y && VulsToInt(vuls)[y] == Decimal(b);
    DecimalInjective(a, b);
  }

  predicate DistinctNames(vuls: seq<VulnerabilityRecord>)
  {
    forall i, j :: 0 <= i < j < |vuls| ==> vuls[i].name != vuls[j].name
  }

  /** With distinct names, `vuls_to_int` numbers the records 1..n in order. */
  lemma VulsToIntInOrder(vuls: seq<VulnerabilityRecord>, k: nat)
    requires DistinctNames(vuls) && 1 <= k <= |vuls|
    ensures VulsToInt(vuls)[vuls[k - 1].name] == Decimal(k)
  {
    assert IsLastName(vuls, k - 1);
    VulsToIntLast(vuls, k - 1);
    assert VarNumber(vuls, k - 1) == k;
  }

  lemma {:induction false} DistinctNamesCount(vuls: seq<VulnerabilityRecord>, n: nat)
    requires DistinctNames(vuls) && n <= |vuls|
    ensures |NamesBefore(vuls, n)| == n
  {
    if n > 0 {
      DistinctNamesCount(vuls, n - 1);
      NamesBeforeStep(vuls, n);
      assert vuls[n - 1].name !in NamesBefore(vuls, n - 1);
    }
  }

  /** The texts `"1"`..`"n"`. */
  function DecimalsUpTo(n: nat): set<string>
  {
    set k | 1 <= k <= n :: Decimal(k)
  }

  /** With distinct names, `vuls_to_int` is a bijection from the names onto
      `"1"`..`"n"`: as many keys as records, and the numbers used are exactly
      the decimal texts of 1..n. */
  lemma VulsToIntBijection(vuls: seq<VulnerabilityRecord>)
    requires DistinctNames(vuls)
    ensures |VulsToInt(vuls).Keys| == |vuls|
    ensures VulsToInt(vuls).Values == DecimalsUpTo(|vuls|)
  {
    var m := VulsToInt(vuls);
    DistinctNamesCount(vuls, |vuls|);
    var numbers := DecimalsUpTo(|vuls|);
    forall v | v in m.Values
      ensures v in numbers
    {
      var x :| x in m && m[x] == v;
      VarNumberNamesRecord(vuls, x);
    }
    forall v | v in numbers
      ensures v in m.Values
    {
      var k :| 1 <= k <= |vuls| && v == Decimal(k);
      VulsToIntInOrder(vuls, k);
    }
  }

  // ---------------------------------------------------------------------------
  // adjust_weight
  // ---------------------------------------------------------------------------

  /** `int(-100 * math.log(score / 20))` for the scores 1..20, as the Python
      float computation truncates it toward zero. */
  const AdjustedTable: seq<int> :=
    [299, 230, 189, 160, 138, 120, 104, 91, 79, 69, 59, 51, 43, 35, 28, 22, 16, 10, 5, 0]

  /** `adjust_weight`: undefined for a score of 0 (the logarithm's domain). */
  function AdjustWeight(score: nat): (w: int)
    requires 0 < score <= 20
    ensures 0 <= w < 300
    ensures score == 20 <==> w == 0
  {
    AdjustedTable[score - 1]
  }

  /** A higher score (a likelier exploit) costs strictly less. */
  lemma {:induction false} AdjustWeightDecreasing(a: nat, b: nat)
    requires 0 < a < b <= 20
    ensures AdjustWeight(a) > AdjustWeight(b)
  {
    if b > a + 1 {
      AdjustWeightDecreasing(a, b - 1);
    }
  }

  /** Every score in a name-to-score dictionary lies in 1..20. */
  predicate ScoresInRange(scores: map<string, string>)
  {
    forall x :: x in scores ==> IsDigits(scores[x]) && 0 < ParseDigits(scores[x]) <= 20
  }

  /** Every score the adjusted-weight table reads lies in 1..20. */
  predicate ValidScores(vuls: seq<VulnerabilityRecord>)
  {
    ScoresInRange(ScoreDict(vuls))
  }

  /** Each name of a score dictionary to the adjusted weight of its score. */
  function AdjustedOf(scores: map<string, string>): (adj: map<string, int>)
    requires ScoresInRange(scores)
    ensures adj.Keys == scores.Keys
    ensures forall x :: x in adj ==> 0 <= adj[x] < 300
  {
    map x | x in scores :: AdjustWeight(ParseDigits(scores[x]))
  }

  /** The table `vul_adjusted`: each vulnerability name to the adjusted weight
      of its (last) score. */
  function AdjustedWeights(vuls: seq<VulnerabilityRecord>): (adj: map<string, int>)
    requires ValidScores(vuls)
    ensures adj.Keys == Names(vuls)
    ensures forall x :: x in adj ==> 0 <= adj[x] < 300
  {
    AdjustedOf(ScoreDict(vuls))
  }

  // ---------------------------------------------------------------------------
  // determine_path_vulnerabilities
  // ---------------------------------------------------------------------------

  /** The component ids a path counts: its route followed by its source.
      The destination is not among them. */
  function PathComponents(p: PathRecord): (ids: seq<string>)
    ensures |ids| >= 2 && ids[|ids| - 1] == p.src
    ensures forall c :: c in ids <==> c == p.src || c in Split(p.route, ',')
  {
    Split(p.route, ',') + [p.src]
  }

  /** The union of the comma-split vulnerability fields of the given ids. */
  function FieldUnion(ids: seq<string>, compDict: map<string, string>): set<string>
    requires forall c :: c in ids ==> c in compDict
  {
    if |ids| == 0 then {}
    else
      var n := |ids| - 1;
      var pieces := Split(compDict[ids[n]], ',');
      FieldUnion(ids[..n], compDict) + set k | 0 <= k < |pieces| :: pieces[k]
  }

  /** Every route and source id of every path names a component. */
  predicate PathResolves(p: PathRecord, compDict: map<string, string>)
  {
    forall c :: c in PathComponents(p) ==> c in compDict
  }

  /** Every route and source id of every path names a component. */
  predicate PathsResolve(paths: seq<PathRecord>, compDict: map<string, string>)
  {
    forall i :: 0 <= i < |paths| ==> PathResolves(paths[i], compDict)
  }

  /** The vulnerabilities of one path. */
  function PathVulnerabilities(p: PathRecord, compDict: map<string, string>): set<string>
    requires PathResolves(p, compDict)
  {
    FieldUnion(PathComponents(p), compDict)
  }

  /** A name is in the union exactly when it is a piece of the field of one of the ids. */
  lemma {:induction false} FieldUnionMembers(ids: seq<string>, compDict: map<string, string>, v: string)
    requires forall c :: c in ids ==> c in compDict
    ensures v in FieldUnion(ids, compDict) <==>
      exists k :: 0 <= k < |ids| && v in Split(compDict[ids[k]], ',')
  {
    if |ids| > 0 {
      var n := |ids| - 1;
      FieldUnionMembers(ids[..n], compDict, v);
      assert forall k :: 0 <= k < n ==> ids[..n][k] == ids[k];
    }
  }

  /** A path's set is the union, over its route ids and its source id, of the
      pieces of that component's vulnerability field; the destination never
      contributes unless it is also on the route or the source. */
  lemma PathVulnerabilitiesMembers(p: PathRecord, compDict: map<string, string>, v: string)
    requires PathResolves(p, compDict)
    ensures v in PathVulnerabilities(p, compDict) <==>
      (v in Split(compDict[p.src], ',')
       || exists c :: c in Split(p.route, ',') && v in Split(compDict[c], ','))
  {
    var ids := PathComponents(p);
    FieldUnionMembers(ids, compDict, v);
    if v in PathVulnerabilities(p, compDict) && v !in Split(compDict[p.src], ',') {
      var k :| 0 <= k < |ids| && v in Split(compDict[ids[k]], ',');
      assert ids[k] in Split(p.route, ',');
    }
    if exists c :: c in Split(p.route, ',') && v in Split(compDict[c], ',') {
      var c :| c in Split(p.route, ',') && v in Split(compDict[c], ',');
      var k :| 0 <= k < |Split(p.route, ',')| && Split(p.route, ',')[k] == c;
      assert ids[k] == c;
    }
    if v in Split(compDict[p.src], ',') {
      assert ids[|ids| - 1] == p.src;
    }
  }

  /** A component whose field is empty contributes the placeholder `""`, since
      splitting `""` yields `[""]`; so no path's set is ever empty. */
  lemma EmptyFieldGivesPlaceholder(p: PathRecord, compDict: map<string, string>, c: string)
    requires PathResolves(p, compDict)
    requires c in PathComponents(p) && compDict[c] == ""
    ensures "" in PathVulnerabilities(p, compDict)
  {
    var k :| 0 <= k < |PathComponents(p)| && PathComponents(p)[k] == c;
    FieldUnionMembers(PathComponents(p), compDict, "");
  }

  /** A path's set is the lone placeholder `{""}` exactly when every one of its
      components' fields consists of commas only; it is never empty. */
  lemma PathVulnerabilitiesPlaceholderOnly(p: PathRecord, compDict: map<string, string>)
    requires PathResolves(p, compDict)
    ensures PathVulnerabilities(p, compDict) != {}
    ensures PathVulnerabilities(p, compDict) == {""} <==>
      forall k :: 0 <= k < |PathComponents(p)| ==> OnlySeparators(compDict[PathComponents(p)[k]], ',')
  {
    var ids := PathComponents(p);
    var pv := PathVulnerabilities(p, compDict);
    var first := Split(compDict[ids[0]], ',')[0];
    FieldUnionMembers(ids, compDict, first);
    assert first in pv;
    if pv == {""} {
      forall k | 0 <= k < |ids|
        ensures OnlySeparators(compDict[ids[k]], ',')
      {
        var pieces := Split(compDict[ids[k]], ',');
        forall q | 0 <= q < |pieces| ensures pieces[q] == "" {
          FieldUnionMembers(ids, compDict, pieces[q]);
        }
        SplitAllEmpty(compDict[ids[k]], ',');
      }
    }
    if forall k :: 0 <= k < |ids| ==> OnlySeparators(compDict[ids[k]], ',') {
      forall v | v in pv ensures v == "" {
        FieldUnionMembers(ids, compDict, v);
        var k :| 0 <= k < |ids| && v in Split(compDict[ids[k]], ',');
        var pieces := Split(compDict[ids[k]], ',');
        assert OnlySeparators(compDict[ids[k]], ',');
        SplitAllEmpty(compDict[ids[k]], ',');
        var q :| 0 <= q < |pieces| && pieces[q] == v;
      }
    }
  }

  /** The inner loops of `determine_path_vulnerabilities` (lines 75-79): add
      every piece of every listed component's field to the path's set. */
  method CollectPathVulnerabilities(p: PathRecord, compDict: map<string, string>)
    returns (lineVuls: set<string>)
    requires PathResolves(p, compDict)
    ensures lineVuls == PathVulnerabilities(p, compDict)
  {
    var pathComps := PathComponents(p);
    lineVuls := {};
    var j := 0;
    while j < |pathComps|
      invariant 0 <= j <= |pathComps|
      invariant lineVuls == FieldUnion(pathComps[..j], compDict)
    {
      var v := Split(compDict[pathComps[j]], ',');
      ghost var before := lineVuls;
      var k := 0;
      while k < |v|
        invariant 0 <= k <= |v|
        invariant lineVuls == before + set q | 0 <= q < k :: v[q]
      {
        if v[k] !in lineVuls {
          lineVuls := lineVuls + {v[k]};
        }
        k := k + 1;
      }
      assert pathComps[..j + 1][..j] == pathComps[..j];
      j := j + 1;
    }
    assert pathComps[..j] == pathComps;
  }

  /** The loop filling `vul_adjusted` (lines 81-83), over the keys of `dict(vuls)`
      in whatever order the dictionary hands them out. */
  method AdjustAll(vulDict: map<string, string>) returns (vulAdjusted: map<string, int>)
    requires ScoresInRange(vulDict)
    ensures vulAdjusted == AdjustedOf(vulDict)
  {
    vulAdjusted := map[];
    var pending := vulDict.Keys;
    while pending != {}
      invariant pending <= vulDict.Keys
      invariant vulAdjusted == map x | x in vulDict.Keys - pending :: AdjustWeight(ParseDigits(vulDict[x]))
      decreases |pending|
    {
      var x :| x in pending;
      vulAdjusted := vulAdjusted[x := AdjustWeight(ParseDigits(vulDict[x]))];
      pending := pending - {x};
    }
  }

  /** The result of `determine_path_vulnerabilities`. */
  datatype PathAnalysis = PathAnalysis(pathVuls: seq<set<string>>, vulAdjusted: map<string, int>)

  /** The loop of `determine_path_vulnerabilities` (lines 69-85), over the
      component and score dictionaries: each pass collects one path's set and
      rebuilds the adjusted-weight table. `adjusted` is `None` while the table
      has not been bound. */
  method PathPasses(paths: seq<PathRecord>, compDict: map<string, string>, vulDict: map<string, string>)
    returns (pathVuls: seq<set<string>>, adjusted: Option<map<string, int>>)
    requires PathsResolve(paths, compDict)
    requires |paths| > 0 ==> ScoresInRange(vulDict)
    ensures |pathVuls| == |paths|
    ensures forall k :: 0 <= k < |paths| ==> pathVuls[k] == PathVulnerabilities(paths[k], compDict)
    ensures adjusted.None? <==> |paths| == 0
    ensures adjusted.Some? ==> adjusted.value == AdjustedOf(vulDict)
  {
    pathVuls := [];
    adjusted := None;
    var i := 0;
    while i < |paths|
      invariant 0 <= i <= |paths|
      invariant |pathVuls| == i
      invariant forall k :: 0 <= k < i ==> pathVuls[k] == PathVulnerabilities(paths[k], compDict)
      invariant adjusted.None? <==> i == 0
      invariant adjusted.Some? ==> adjusted.value == AdjustedOf(vulDict)
    {
      var lineVuls := CollectPathVulnerabilities(paths[i], compDict);
      var vulAdjusted := AdjustAll(vulDict);
      adjusted := Some(vulAdjusted);
      pathVuls := pathVuls + [lineVuls];
      i := i + 1;
    }
  }

  /** `determine_path_vulnerabilities`: one vulnerability set per path, in the
      order of `paths`, and the adjusted-weight table, rebuilt identically on
      every pass; with no paths the table is never bound and the final
      `return` fails. */
  method DeterminePathVulnerabilities(paths: seq<PathRecord>, comps: seq<ComponentRecord>,
                                      vuls: seq<VulnerabilityRecord>)
    returns (r: Result<PathAnalysis, DependencyError>)
    requires PathsResolve(paths, CompsToDict(comps))
    requires |paths| > 0 ==> ValidScores(vuls)
    ensures r.Err? <==> |paths| == 0
    ensures r.Ok? ==> |r.value.pathVuls| == |paths|
    ensures r.Ok? ==> forall i :: 0 <= i < |paths| ==>
              r.value.pathVuls[i] == PathVulnerabilities(paths[i], CompsToDict(comps))
    ensures r.Ok? ==> r.value.vulAdjusted == AdjustedWeights(vuls)
  {
    var compDict := CompsToDict(comps);
    var vulDict := ScoreDict(vuls);
    var pathVuls, adjusted := PathPasses(paths, compDict, vulDict);
    if adjusted.None? {
      return Err(AdjustedWeightsUnbound);
    }
    r := Ok(PathAnalysis(pathVuls, adjusted.value));
  }
}
