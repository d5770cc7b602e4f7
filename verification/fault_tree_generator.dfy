/** FaultTreeGenerator.py: the earlier single-file generator. Its variables
    are components rather than vulnerabilities: `main` builds the table
    `comps_to_weights` of `[component id, weight]` pairs for the components
    that lie on some path, writes one hard line per path and one soft line per
    parsed component, runs the solver `reps` times on that same instance, and
    turns each assignment back into a cutset line. */
module FaultTreeGenerator {
  import opened Prelude
  import opened DependencyModel
  import opened SatSolver

  /** An entry `[component id, weight]` of `comps_to_weights`. */
  datatype Entry = Entry(comp: string, weight: int)

  // ---------------------------------------------------------------------------
  // lookup and get_weight
  // ---------------------------------------------------------------------------

  /** The position of the first entry for `comp`, if there is one. */
  function FindKey(ls: seq<Entry>, comp: string): (r: Option<nat>)
    ensures r.None? <==> forall j :: 0 <= j < |ls| ==> ls[j].comp != comp
    ensures r.Some? ==> r.value < |ls| && ls[r.value].comp == comp
    ensures r.Some? ==> forall j :: 0 <= j < r.value ==> ls[j].comp != comp
  {
    if |ls| == 0 then None
    else if ls[0].comp == comp then Some(0)
    else
      var rest := FindKey(ls[1..], comp);
      assert forall j :: 1 <= j < |ls| ==> ls[j] == ls[1..][j - 1];
      if rest.None? then None else Some(rest.value + 1)
  }

  /** `lookup(ls, comp)`: the scan stops at the first entry for `comp` and
      answers `ls.index(entry) + 1`, the position of the first entry equal to
      it, plus one; without such an entry it answers -1. Since no earlier
      entry even has that component, the two positions coincide. */
  function Lookup(ls: seq<Entry>, comp: string): (r: int)
    ensures r == -1 <==> forall j :: 0 <= j < |ls| ==> ls[j].comp != comp
    ensures r != -1 ==> 1 <= r <= |ls| && ls[r - 1].comp == comp
    ensures r != -1 ==> forall j :: 0 <= j < r - 1 ==> ls[j].comp != comp
  {
    var found := FindKey(ls, comp);
    if found.None? then -1
    else
      var k := found.value;
      var i := FirstIndex(ls, ls[k]);
      assert i == k;
      i + 1
  }

  /** `get_weight(ls, comp)`: the weight of the entry `lookup` finds, or -1. */
  function GetWeight(ls: seq<Entry>, comp: string): (r: int)
    ensures Lookup(ls, comp) == -1 ==> r == -1
    ensures Lookup(ls, comp) != -1 ==> r == ls[Lookup(ls, comp) - 1].weight
  {
    var found := FindKey(ls, comp);
    if found.None? then -1 else ls[found.value].weight
  }

  // ---------------------------------------------------------------------------
  // The weight of a component (lines 80-88)
  // ---------------------------------------------------------------------------

  /** Every score is a run of digits, as the vulnerability pattern captures it. */
  predicate AllScored(vuls: seq<VulnerabilityRecord>)
  {
    forall i :: 0 <= i < |vuls| ==> IsDigits(vuls[i].score)
  }

  /** `sum(int(vul[1]) for vul in vuls[:n])`. */
  function ScoreTotal(vuls: seq<VulnerabilityRecord>, n: nat): (t: int)
    requires n <= |vuls| && AllScored(vuls)
    ensures t >= 0
  {
    if n == 0 then 0 else ScoreTotal(vuls, n - 1) + ParseDigits(vuls[n - 1].score)
  }

  /** The scores of the records named `cv` among the first `n`, summed. */
  function MatchedScore(cv: string, vuls: seq<VulnerabilityRecord>, n: nat): int
    requires n <= |vuls| && AllScored(vuls)
  {
    if n == 0 then 0
    else MatchedScore(cv, vuls, n - 1) + (if vuls[n - 1].name == cv then ParseDigits(vuls[n - 1].score) else 0)
  }

  /** The weight contributed by the first `n` pieces of a split `vul` field. */
  function PiecesWeight(pieces: seq<string>, vuls: seq<VulnerabilityRecord>, n: nat): int
    requires n <= |pieces| && AllScored(vuls)
  {
    if n == 0 then 0 else PiecesWeight(pieces, vuls, n - 1) + MatchedScore(pieces[n - 1], vuls, |vuls|)
  }

  /** A component's weight: for every piece of its comma-split `vul` field,
      the scores of all vulnerability records of that name. */
  function ComponentWeight(vul: string, vuls: seq<VulnerabilityRecord>): int
    requires AllScored(vuls)
  {
    PiecesWeight(Split(vul, ','), vuls, |Split(vul, ',')|)
  }

  /** Lines 81-88: the two nested loops that add up a component's weight. */
  method WeighComponent(vul: string, vuls: seq<VulnerabilityRecord>) returns (weight: int)
    requires AllScored(vuls)
    ensures weight == ComponentWeight(vul, vuls)
  {
    var compVuls := Split(vul, ',');
    weight := 0;
    var i := 0;
    while i < |compVuls|
      invariant 0 <= i <= |compVuls|
      invariant weight == PiecesWeight(compVuls, vuls, i)
    {
      var cv := compVuls[i];
      var j := 0;
      while j < |vuls|
        invariant 0 <= j <= |vuls|
        invariant weight == PiecesWeight(compVuls, vuls, i) + MatchedScore(cv, vuls, j)
      {
        if cv == vuls[j].name {
          weight := weight + ParseDigits(vuls[j].score);
        }
        j := j + 1;
      }
      i := i + 1;
    }
  }

  /** The scores of the first `n` records whose name is in `names`, summed:
      each record counted once. */
  function NamedScore(vuls: seq<VulnerabilityRecord>, names: set<string>, n: nat): int
    requires n <= |vuls| && AllScored(vuls)
  {
    if n == 0 then 0
    else NamedScore(vuls, names, n - 1) + (if vuls[n - 1].name in names then ParseDigits(vuls[n - 1].score) else 0)
  }

  /** The first `n` pieces of a split field, as a set. */
  function PieceSet(pieces: seq<string>, n: nat): set<string>
    requires n <= |pieces|
  {
    set k | 0 <= k < n :: pieces[k]
  }

  predicate DistinctPieces(pieces: seq<string>)
  {
    forall i, j :: 0 <= i < j < |pieces| ==> pieces[i] != pieces[j]
  }

  lemma {:induction false} NamedScoreAdd(vuls: seq<VulnerabilityRecord>, names: set<string>, p: string, n: nat)
    requires n <= |vuls| && AllScored(vuls) && p !in names
    ensures NamedScore(vuls, names + {p}, n) == NamedScore(vuls, names, n) + MatchedScore(p, vuls, n)
  {
    if n > 0 {
      NamedScoreAdd(vuls, names, p, n - 1);
    }
  }

  lemma {:induction false} NamedScoreEmpty(vuls: seq<VulnerabilityRecord>, n: nat)
    requires n <= |vuls| && AllScored(vuls)
    ensures NamedScore(vuls, {}, n) == 0
  {
    if n > 0 {
      NamedScoreEmpty(vuls, n - 1);
    }
  }

  lemma {:induction false} NamedScoreBounds(vuls: seq<VulnerabilityRecord>, names: set<string>, n: nat)
    requires n <= |vuls| && AllScored(vuls)
    ensures 0 <= NamedScore(vuls, names, n) <= ScoreTotal(vuls, n)
  {
    if n > 0 {
      NamedScoreBounds(vuls, names, n - 1);
    }
  }

  lemma PieceSetStep(pieces: seq<string>, n: nat)
    requires 0 < n <= |pieces|
    ensures PieceSet(pieces, n) == PieceSet(pieces, n - 1) + {pieces[n - 1]}
  {
    assert pieces[n - 1] in PieceSet(pieces, n);
    forall x | x in PieceSet(pieces, n)
      ensures x in PieceSet(pieces, n - 1) + {pieces[n - 1]}
    {
      var k :| 0 <= k < n && pieces[k] == x;
      if k < n - 1 {
        assert x in PieceSet(pieces, n - 1);
      }
    }
  }

  lemma {:induction false} PiecesWeightReference(pieces: seq<string>, vuls: seq<VulnerabilityRecord>, n: nat)
    requires n <= |pieces| && AllScored(vuls) && DistinctPieces(pieces)
    ensures PiecesWeight(pieces, vuls, n) == NamedScore(vuls, PieceSet(pieces, n), |vuls|)
  {
    if n == 0 {
      assert PieceSet(pieces, 0) == {};
      NamedScoreEmpty(vuls, |vuls|);
    } else {
      PiecesWeightReference(pieces, vuls, n - 1);
      PieceSetStep(pieces, n);
      assert pieces[n - 1] !in PieceSet(pieces, n - 1);
      NamedScoreAdd(vuls, PieceSet(pieces, n - 1), pieces[n - 1], |vuls|);
    }
  }

  /** When the `vul` field names each vulnerability at most once, a component
      weighs the scores of the records whose name it lists, each record
      counted once, and so at most the sum of all scores. */
  lemma ComponentWeightReference(vul: string, vuls: seq<VulnerabilityRecord>)
    requires AllScored(vuls) && DistinctPieces(Split(vul, ','))
    ensures ComponentWeight(vul, vuls) == NamedScore(vuls, PieceSet(Split(vul, ','), |Split(vul, ',')|), |vuls|)
    ensures 0 <= ComponentWeight(vul, vuls) <= ScoreTotal(vuls, |vuls|)
  {
    var pieces := Split(vul, ',');
    PiecesWeightReference(pieces, vuls, |pieces|);
    NamedScoreBounds(vuls, PieceSet(pieces, |pieces|), |vuls|);
  }

  /** A field that repeats a name charges its score once per repetition, so a
      component can weigh more than all scores together: `"a,a"` with `a`
      scored 10 weighs 20. */
  lemma RepeatedPieceCountsTwice()
    ensures var vuls := [VulnerabilityRecord("a", "10")];
      && AllScored(vuls)
      && ComponentWeight("a,a", vuls) == 20
      && ScoreTotal(vuls, 1) == 10
  {
    var vuls := [VulnerabilityRecord("a", "10")];
    assert ParseDigits("1") == 1 by {
      assert "1"[..0] == "";
    }
    assert ParseDigits("10") == 10 by {
      assert "10"[..1] == "1";
    }
    SplitSingle("a", ',');
    assert Split(",a", ',') == ["", "a"] by {
      assert ",a"[1..] == "a";
    }
    assert Split("a,a", ',') == ["a", "a"] by {
      assert "a,a"[1..] == ",a";
      assert ['a'] + "" == "a";
    }
    assert MatchedScore("a", vuls, 1) == 10;
    var pieces := Split("a,a", ',');
    assert PiecesWeight(pieces, vuls, 1) == 10;
    assert PiecesWeight(pieces, vuls, 2) == 20;
    assert ScoreTotal(vuls, 1) == 10;
  }

  // ---------------------------------------------------------------------------
  // comps_to_weights and path_vulnerabilities (lines 58-93)
  // ---------------------------------------------------------------------------

  function EntryOf(c: ComponentRecord, vuls: seq<VulnerabilityRecord>): Entry
    requires AllScored(vuls)
  {
    Entry(c.uid, ComponentWeight(c.vul, vuls))
  }

  /** The table after the first `n` components of the loop over `comps` for a
      path touching `ids`: a component on the path adds its pair unless the
      identical pair is already there. */
  function AddComponents(t: seq<Entry>, ids: seq<string>, comps: seq<ComponentRecord>, vuls: seq<VulnerabilityRecord>,
                         n: nat): seq<Entry>
    requires n <= |comps| && AllScored(vuls)
  {
    if n == 0 then t
    else
      var before := AddComponents(t, ids, comps, vuls, n - 1);
      var e := EntryOf(comps[n - 1], vuls);
      if comps[n - 1].uid in ids && e !in before then before + [e] else before
  }

  /** The table after the first `k` paths. */
  function TableAfter(paths: seq<PathRecord>, comps: seq<ComponentRecord>, vuls: seq<VulnerabilityRecord>,
                      k: nat): seq<Entry>
    requires k <= |paths| && AllScored(vuls)
  {
    if k == 0 then []
    else AddComponents(TableAfter(paths, comps, vuls, k - 1), PathComponents(paths[k - 1]), comps, vuls, |comps|)
  }

  /** `comps_to_weights` once every path has been seen. */
  function ComponentTable(paths: seq<PathRecord>, comps: seq<ComponentRecord>, vuls: seq<VulnerabilityRecord>): seq<Entry>
    requires AllScored(vuls)
  {
    TableAfter(paths, comps, vuls, |paths|)
  }

  /** Lines 80-91: the loop over `comps` for one path. */
  method AddPathComponents(table: seq<Entry>, ids: seq<string>, comps: seq<ComponentRecord>,
                           vuls: seq<VulnerabilityRecord>) returns (t: seq<Entry>)
    requires AllScored(vuls)
    ensures t == AddComponents(table, ids, comps, vuls, |comps|)
  {
    t := table;
    var n := 0;
    while n < |comps|
      invariant 0 <= n <= |comps|
      invariant t == AddComponents(table, ids, comps, vuls, n)
    {
      var comp := comps[n];
      if comp.uid in ids {
        var weight := WeighComponent(comp.vul, vuls);
        if Entry(comp.uid, weight) !in t {
          t := t + [Entry(comp.uid, weight)];
        }
      }
      n := n + 1;
    }
  }

  /** Lines 58-93: one list of component ids per path, in order, and the
      component-weight table. */
  method BuildTables(paths: seq<PathRecord>, comps: seq<ComponentRecord>, vuls: seq<VulnerabilityRecord>)
    returns (pathVulnerabilities: seq<seq<string>>, compsToWeights: seq<Entry>)
    requires AllScored(vuls)
    ensures |pathVulnerabilities| == |paths|
    ensures forall i :: 0 <= i < |paths| ==> pathVulnerabilities[i] == PathComponents(paths[i])
    ensures compsToWeights == ComponentTable(paths, comps, vuls)
  {
    pathVulnerabilities := [];
    compsToWeights := [];
    var k := 0;
    while k < |paths|
      invariant 0 <= k <= |paths|
      invariant |pathVulnerabilities| == k
      invariant forall i :: 0 <= i < k ==> pathVulnerabilities[i] == PathComponents(paths[i])
      invariant compsToWeights == TableAfter(paths, comps, vuls, k)
    {
      var path := paths[k];
      var pathComps := Split(path.route, ',');
      pathComps := pathComps + [path.src];
      compsToWeights := AddPathComponents(compsToWeights, pathComps, comps, vuls);
      pathVulnerabilities := pathVulnerabilities + [pathComps];
      k := k + 1;
    }
  }

  /** No pair appears twice in the table. */
  predicate NoRepeatedEntry(t: seq<Entry>)
  {
    forall i, j :: 0 <= i < j < |t| ==> t[i] != t[j]
  }

  lemma {:induction false} AddComponentsNoRepeat(t: seq<Entry>, ids: seq<string>, comps: seq<ComponentRecord>,
                                                 vuls: seq<VulnerabilityRecord>, n: nat)
    requires n <= |comps| && AllScored(vuls) && NoRepeatedEntry(t)
    ensures NoRepeatedEntry(AddComponents(t, ids, comps, vuls, n))
  {
    if n > 0 {
      AddComponentsNoRepeat(t, ids, comps, vuls, n - 1);
    }
  }

  /** `comps_to_weights` never holds the same `[id, weight]` pair twice. */
  lemma {:induction false} TableNoRepeat(paths: seq<PathRecord>, comps: seq<ComponentRecord>,
                                         vuls: seq<VulnerabilityRecord>, k: nat)
    requires k <= |paths| && AllScored(vuls)
    ensures NoRepeatedEntry(TableAfter(paths, comps, vuls, k))
  {
    if k > 0 {
      TableNoRepeat(paths, comps, vuls, k - 1);
      AddComponentsNoRepeat(TableAfter(paths, comps, vuls, k - 1), PathComponents(paths[k - 1]), comps, vuls, |comps|);
    }
  }

  /** `e` is the pair of one of the first `n` components, and that component's
      id is among `ids`. */
  predicate OnPath(e: Entry, ids: seq<string>, comps: seq<ComponentRecord>, vuls: seq<VulnerabilityRecord>, n: nat)
    requires n <= |comps| && AllScored(vuls)
  {
    exists c :: 0 <= c < n && comps[c].uid in ids && e == EntryOf(comps[c], vuls)
  }

  /** `e` is the pair of a component on one of the first `k` paths. */
  predicate OnSomePath(e: Entry, paths: seq<PathRecord>, comps: seq<ComponentRecord>, vuls: seq<VulnerabilityRecord>,
                       k: nat)
    requires k <= |paths| && AllScored(vuls)
  {
    exists i :: 0 <= i < k && OnPath(e, PathComponents(paths[i]), comps, vuls, |comps|)
  }

  lemma {:induction false} AddComponentsMembers(t: seq<Entry>, ids: seq<string>, comps: seq<ComponentRecord>,
                                                vuls: seq<VulnerabilityRecord>, n: nat, e: Entry)
    requires n <= |comps| && AllScored(vuls)
    ensures e in AddComponents(t, ids, comps, vuls, n) <==> e in t || OnPath(e, ids, comps, vuls, n)
  {
    if n > 0 {
      AddComponentsMembers(t, ids, comps, vuls, n - 1, e);
      if OnPath(e, ids, comps, vuls, n) && !OnPath(e, ids, comps, vuls, n - 1) {
        var c :| 0 <= c < n && comps[c].uid in ids && e == EntryOf(comps[c], vuls);
        assert c == n - 1;
      }
      if OnPath(e, ids, comps, vuls, n - 1) {
        var c :| 0 <= c < n - 1 && comps[c].uid in ids && e == EntryOf(comps[c], vuls);
        assert OnPath(e, ids, comps, vuls, n);
      }
    }
  }

  /** The table holds exactly the pairs `[id, weight]` of the components that
      lie on the route or at the source of some path. */
  lemma {:induction false} TableMembers(paths: seq<PathRecord>, comps: seq<ComponentRecord>,
                                        vuls: seq<VulnerabilityRecord>, k: nat, e: Entry)
    requires k <= |paths| && AllScored(vuls)
    ensures e in TableAfter(paths, comps, vuls, k) <==> OnSomePath(e, paths, comps, vuls, k)
  {
    if k > 0 {
      TableMembers(paths, comps, vuls, k - 1, e);
      AddComponentsMembers(TableAfter(paths, comps, vuls, k - 1), PathComponents(paths[k - 1]), comps, vuls, |comps|, e);
      if OnSomePath(e, paths, comps, vuls, k) && !OnSomePath(e, paths, comps, vuls, k - 1) {
        var i :| 0 <= i < k && OnPath(e, PathComponents(paths[i]), comps, vuls, |comps|);
        assert i == k - 1;
      }
      if OnSomePath(e, paths, comps, vuls, k - 1) {
        var i :| 0 <= i < k - 1 && OnPath(e, PathComponents(paths[i]), comps, vuls, |comps|);
        assert OnSomePath(e, paths, comps, vuls, k);
      }
    }
  }

  /** An id on a path is found in the table exactly when some component record
      carries it; found, its 1-based position names an entry for that id. */
  lemma PathIdsFound(paths: seq<PathRecord>, comps: seq<ComponentRecord>, vuls: seq<VulnerabilityRecord>,
                     i: nat, id: string)
    requires AllScored(vuls) && i < |paths| && id in PathComponents(paths[i])
    ensures var table := ComponentTable(paths, comps, vuls);
      Lookup(table, id) != -1 <==> exists c :: 0 <= c < |comps| && comps[c].uid == id
    ensures var table := ComponentTable(paths, comps, vuls);
      Lookup(table, id) != -1 ==> 1 <= Lookup(table, id) <= |table| && table[Lookup(table, id) - 1].comp == id
  {
    var table := ComponentTable(paths, comps, vuls);
    if c :| 0 <= c < |comps| && comps[c].uid == id {
      var e := EntryOf(comps[c], vuls);
      assert OnPath(e, PathComponents(paths[i]), comps, vuls, |comps|);
      TableMembers(paths, comps, vuls, |paths|, e);
      assert table[Lookup(table, id) - 1].comp == id by {
        var j :| 0 <= j < |table| && table[j] == e;
        assert table[j].comp == id;
      }
    }
    if Lookup(table, id) != -1 {
      var e := table[Lookup(table, id) - 1];
      TableMembers(paths, comps, vuls, |paths|, e);
      var i' :| 0 <= i' < |paths| && OnPath(e, PathComponents(paths[i']), comps, vuls, |comps|);
      var c :| 0 <= c < |comps| && comps[c].uid in PathComponents(paths[i']) && e == EntryOf(comps[c], vuls);
      assert comps[c].uid == id;
    }
  }

  // ---------------------------------------------------------------------------
  // The instance (lines 104-129)
  // ---------------------------------------------------------------------------

  /** A path's hard line: the hard weight, then `str(lookup(...))` of each of
      its component ids. An id missing from the table is written `-1`. */
  function LegacyHardLine(ids: seq<string>, table: seq<Entry>, hard: int): Clause
  {
    Clause(hard, seq(|ids|, k requires 0 <= k < |ids| => Pos(IntToString(Lookup(table, ids[k])))))
  }

  /** A parsed component's soft line: the hard weight minus `get_weight`,
      then `-` and `str(lookup(...))`. */
  function LegacySoftLine(c: ComponentRecord, table: seq<Entry>, hard: int): Clause
  {
    Clause(hard - GetWeight(table, c.uid), [Neg(IntToString(Lookup(table, c.uid)))])
  }

  function LegacyHardLines(pathVulnerabilities: seq<seq<string>>, table: seq<Entry>, hard: int): (cs: seq<Clause>)
    ensures |cs| == |pathVulnerabilities|
  {
    seq(|pathVulnerabilities|, i requires 0 <= i < |pathVulnerabilities| =>
      LegacyHardLine(pathVulnerabilities[i], table, hard))
  }

  function LegacySoftLines(comps: seq<ComponentRecord>, table: seq<Entry>, hard: int): (cs: seq<Clause>)
    ensures |cs| == |comps|
  {
    seq(|comps|, i requires 0 <= i < |comps| => LegacySoftLine(comps[i], table, hard))
  }

  /** The instance `main` writes: header, one hard line per path, one soft
      line per parsed component. */
  function LegacyInstance(pathVulnerabilities: seq<seq<string>>, table: seq<Entry>, comps: seq<ComponentRecord>,
                          vuls: seq<VulnerabilityRecord>): Wcnf
    requires AllScored(vuls)
  {
    var hard := ScoreTotal(vuls, |vuls|) + 1;
    Wcnf(Header(|table|, |table| + |pathVulnerabilities|, hard),
         LegacyHardLines(pathVulnerabilities, table, hard) + LegacySoftLines(comps, table, hard))
  }

  /** Lines 120-123: the literals of one hard line. */
  method WriteHardLine(ids: seq<string>, table: seq<Entry>, hard: int) returns (c: Clause)
    ensures c == LegacyHardLine(ids, table, hard)
  {
    var lits: seq<Literal> := [];
    var k := 0;
    while k < |ids|
      invariant 0 <= k <= |ids|
      invariant |lits| == k
      invariant forall j :: 0 <= j < k ==> lits[j] == Pos(IntToString(Lookup(table, ids[j])))
    {
      lits := lits + [Pos(IntToString(Lookup(table, ids[k])))];
      k := k + 1;
    }
    c := Clause(hard, lits);
  }

  /** Lines 104-129: the header, the hard lines and the soft lines. */
  method LegacyEncode(pathVulnerabilities: seq<seq<string>>, table: seq<Entry>, comps: seq<ComponentRecord>,
                      vuls: seq<VulnerabilityRecord>) returns (inst: Wcnf)
    requires AllScored(vuls)
    ensures inst == LegacyInstance(pathVulnerabilities, table, comps, vuls)
  {
    var hard := ScoreTotal(vuls, |vuls|) + 1;
    var header := Header(|table|, |table| + |pathVulnerabilities|, hard);
    var hardLines: seq<Clause> := [];
    var i := 0;
    while i < |pathVulnerabilities|
      invariant 0 <= i <= |pathVulnerabilities|
      invariant hardLines == LegacyHardLines(pathVulnerabilities[..i], table, hard)
    {
      var line := WriteHardLine(pathVulnerabilities[i], table, hard);
      assert pathVulnerabilities[..i + 1] == pathVulnerabilities[..i] + [pathVulnerabilities[i]];
      hardLines := hardLines + [line];
      i := i + 1;
    }
    assert pathVulnerabilities[..i] == pathVulnerabilities;
    var softLines: seq<Clause> := [];
    var n := 0;
    while n < |comps|
      invariant 0 <= n <= |comps|
      invariant softLines == LegacySoftLines(comps[..n], table, hard)
    {
      assert comps[..n + 1] == comps[..n] + [comps[n]];
      softLines := softLines + [LegacySoftLine(comps[n], table, hard)];
      n := n + 1;
    }
    assert comps[..n] == comps;
    inst := Wcnf(header, hardLines + softLines);
  }

  /** The header counts the table's entries and the paths, while a soft line is
      written for every parsed component: the declared clause count is the
      number of lines written exactly when every parsed component has an entry
      of its own. */
  lemma LegacyHeaderCount(pathVulnerabilities: seq<seq<string>>, table: seq<Entry>, comps: seq<ComponentRecord>,
                          vuls: seq<VulnerabilityRecord>)
    requires AllScored(vuls)
    ensures var inst := LegacyInstance(pathVulnerabilities, table, comps, vuls);
      && |inst.clauses| == |pathVulnerabilities| + |comps|
      && inst.header.numVars == |table|
      && (inst.header.numClauses == |inst.clauses| <==> |table| == |comps|)
  {
  }

  /** No entry of the table is for a component that lies on no path. */
  lemma UncoveredNotInTable(paths: seq<PathRecord>, comps: seq<ComponentRecord>, vuls: seq<VulnerabilityRecord>,
                            uid: string)
    requires AllScored(vuls)
    requires forall i :: 0 <= i < |paths| ==> uid !in PathComponents(paths[i])
    ensures forall e :: e in ComponentTable(paths, comps, vuls) ==> e.comp != uid
  {
    forall e | e in ComponentTable(paths, comps, vuls)
      ensures e.comp != uid
    {
      TableMembers(paths, comps, vuls, |paths|, e);
      var i :| 0 <= i < |paths| && OnPath(e, PathComponents(paths[i]), comps, vuls, |comps|);
      var k :| 0 <= k < |comps| && comps[k].uid in PathComponents(paths[i]) && e == EntryOf(comps[k], vuls);
    }
  }

  /** A component that lies on no path is not in the table: its soft line
      weighs the hard weight plus one and its literal is written `--1`. */
  lemma UncoveredComponentLine(paths: seq<PathRecord>, comps: seq<ComponentRecord>, vuls: seq<VulnerabilityRecord>,
                               c: ComponentRecord, hard: int)
    requires AllScored(vuls)
    requires forall i :: 0 <= i < |paths| ==> c.uid !in PathComponents(paths[i])
    ensures var line := LegacySoftLine(c, ComponentTable(paths, comps, vuls), hard);
      line.weight == hard + 1 && RenderClause(line) == IntToString(hard + 1) + " --1 0\n"
  {
    UncoveredNotInTable(paths, comps, vuls, c.uid);
    assert IntToString(-1) == "-1";
    assert RenderLits([Neg("-1")]) == " --1" by {
      assert [Neg("-1")][..0] == [];
    }
  }

  /** One path `s -> d` over `a`, and components `a` and `b`: the table has
      the one entry for `a`, the header declares 2 lines, and 3 are written. */
  lemma HeaderUndercountExample()
    ensures var paths := [PathRecord("s", "d", "a")];
      var comps := [ComponentRecord("a", "n", "ip", "z"), ComponentRecord("b", "n", "ip", "z")];
      var table := ComponentTable(paths, comps, []);
      var inst := LegacyInstance([PathComponents(paths[0])], table, comps, []);
      table == [Entry("a", 0)] && inst.header.numClauses == 2 && |inst.clauses| == 3
  {
    var paths := [PathRecord("s", "d", "a")];
    var comps := [ComponentRecord("a", "n", "ip", "z"), ComponentRecord("b", "n", "ip", "z")];
    SplitSingle("a", ',');
    var ids := PathComponents(paths[0]);
    assert ids == ["a", "s"];
    SplitSingle("z", ',');
    assert ComponentWeight("z", []) == 0;
    assert AddComponents([], ids, comps, [], 1) == [Entry("a", 0)];
    assert "b" !in ids;
    assert AddComponents([], ids, comps, [], 2) == [Entry("a", 0)];
  }

  /** With no field naming a vulnerability twice, every entry of the table
      weighs between nothing and the sum of all scores. */
  lemma {:induction false} TableWeightsBounded(paths: seq<PathRecord>, comps: seq<ComponentRecord>, vuls: seq<VulnerabilityRecord>,
                            e: Entry)
    requires AllScored(vuls)
    requires forall k :: 0 <= k < |comps| ==> DistinctPieces(Split(comps[k].vul, ','))
    requires e in ComponentTable(paths, comps, vuls)
    ensures 0 <= e.weight <= ScoreTotal(vuls, |vuls|)
  {
    TableMembers(paths, comps, vuls, |paths|, e);
    var i :| 0 <= i < |paths| && OnPath(e, PathComponents(paths[i]), comps, vuls, |comps|);
    var k :| 0 <= k < |comps| && comps[k].uid in PathComponents(paths[i]) && e == EntryOf(comps[k], vuls);
    ComponentWeightReference(comps[k].vul, vuls);
  }

  /** With no field naming a vulnerability twice, every soft line has a weight
      between 1 and the hard weight plus one. */
  lemma {:induction false} SoftWeightsPositive(paths: seq<PathRecord>, comps: seq<ComponentRecord>, vuls: seq<VulnerabilityRecord>,
                            c: ComponentRecord)
    requires AllScored(vuls)
    requires forall k :: 0 <= k < |comps| ==> DistinctPieces(Split(comps[k].vul, ','))
    ensures var hard := ScoreTotal(vuls, |vuls|) + 1;
      1 <= LegacySoftLine(c, ComponentTable(paths, comps, vuls), hard).weight <= hard + 1
  {
    var table := ComponentTable(paths, comps, vuls);
    var r := Lookup(table, c.uid);
    if r != -1 {
      TableWeightsBounded(paths, comps, vuls, table[r - 1]);
    }
  }

  /** With a field naming `a` twice, the soft line's weight is negative: 1
      path over `x`, component `x` with field `"a,a"`, `a` scored 10. */
  lemma NegativeSoftWeightExample()
    ensures var vuls := [VulnerabilityRecord("a", "10")];
      var comps := [ComponentRecord("x", "n", "ip", "a,a")];
      var paths := [PathRecord("s", "d", "x")];
      AllScored(vuls) && LegacySoftLine(comps[0], ComponentTable(paths, comps, vuls), ScoreTotal(vuls, 1) + 1).weight == -9
  {
    var vuls := [VulnerabilityRecord("a", "10")];
    var comps := [ComponentRecord("x", "n", "ip", "a,a")];
    var paths := [PathRecord("s", "d", "x")];
    RepeatedPieceCountsTwice();
    SplitSingle("x", ',');
    assert PathComponents(paths[0]) == ["x", "s"];
    assert AddComponents([], PathComponents(paths[0]), comps, vuls, 1) == [Entry("x", 20)];
    assert ComponentTable(paths, comps, vuls) == [Entry("x", 20)];
  }

  // ---------------------------------------------------------------------------
  // Decoding an assignment (lines 153-165)
  // ---------------------------------------------------------------------------

  datatype LegacyError =
    | IndexOutOfRange(v: int)  // `comps_to_weights[i-1]` past the end of the table
    | SolverRaised(code: int)  // the `CalledProcessError` re-raised
    | NoOptimum                // `rg[0]` with no `s OPTIMUM FOUND` in the output

  /** The cutset and total weight after the first entries of `config`: every
      positive `i` appends entry `i-1`'s id to the text and adds its weight. */
  function DecodeCutset(config: seq<int>, table: seq<Entry>): Result<(string, int), LegacyError>
  {
    if |config| == 0 then Ok(("", 0))
    else DecodeLiteral(DecodeCutset(config[..|config| - 1], table), config[|config| - 1], table)
  }

  /** One pass of the decode loop: a positive `i` takes entry `i-1`. */
  function DecodeLiteral(before: Result<(string, int), LegacyError>, i: int, table: seq<Entry>)
    : Result<(string, int), LegacyError>
  {
    if before.Err? || i <= 0 then before
    else if i - 1 < |table| then Ok((before.value.0 + table[i - 1].comp, before.value.1 + table[i - 1].weight))
    else Err(IndexOutOfRange(i))
  }

  /** The decode loop of lines 157-161. */
  method LegacyDecode(config: seq<int>, table: seq<Entry>) returns (r: Result<(string, int), LegacyError>)
    ensures r == DecodeCutset(config, table)
  {
    var cutset := "";
    var totalWeight := 0;
    var n := 0;
    while n < |config|
      invariant 0 <= n <= |config|
      invariant DecodeCutset(config[..n], table) == Ok((cutset, totalWeight))
    {
      assert config[..n + 1][..n] == config[..n];
      var i := config[n];
      if i > 0 {
        if i - 1 >= |table| {
          r := Err(IndexOutOfRange(i));
          DecodeErrStays(config, table, n + 1);
          return;
        }
        cutset := cutset + table[i - 1].comp;
        totalWeight := totalWeight + table[i - 1].weight;
      }
      n := n + 1;
    }
    assert config[..n] == config;
    r := Ok((cutset, totalWeight));
  }

  /** Once decoding fails on a prefix it fails the same way on the whole. */
  lemma {:induction false} DecodeErrStays(config: seq<int>, table: seq<Entry>, n: nat)
    requires n <= |config| && DecodeCutset(config[..n], table).Err?
    ensures DecodeCutset(config, table) == DecodeCutset(config[..n], table)
    decreases |config| - n
  {
    if n < |config| {
      assert config[..n + 1][..n] == config[..n];
      assert DecodeCutset(config[..n + 1], table) == DecodeCutset(config[..n], table);
      DecodeErrStays(config, table, n + 1);
    } else {
      assert config[..n] == config;
    }
  }

  /** Decoding fails exactly when some positive literal is past the table. */
  lemma {:induction false} DecodeFailsIff(config: seq<int>, table: seq<Entry>)
    ensures DecodeCutset(config, table).Err? <==> exists j :: 0 <= j < |config| && config[j] > |table|
  {
    if |config| > 0 {
      var n := |config| - 1;
      DecodeFailsIff(config[..n], table);
      if exists j :: 0 <= j < n && config[..n][j] > |table| {
        var j :| 0 <= j < n && config[..n][j] > |table|;
        assert config[j] > |table|;
      }
      if exists j :: 0 <= j < |config| && config[j] > |table| {
        var j :| 0 <= j < |config| && config[j] > |table|;
        if j < n {
          assert config[..n][j] > |table|;
        }
      }
    }
  }

  /** The 1-based table positions of a list of component ids. */
  function Lookups(table: seq<Entry>, ids: seq<string>): (r: seq<int>)
    ensures |r| == |ids|
  {
    seq(|ids|, k requires 0 <= k < |ids| => Lookup(table, ids[k]))
  }

  /** `"".join(ids)`. */
  function Concat(ids: seq<string>): string
  {
    if |ids| == 0 then "" else Concat(ids[..|ids| - 1]) + ids[|ids| - 1]
  }

  /** The `get_weight` of each id, summed. */
  function WeightSum(table: seq<Entry>, ids: seq<string>): int
  {
    if |ids| == 0 then 0 else WeightSum(table, ids[..|ids| - 1]) + GetWeight(table, ids[|ids| - 1])
  }

  /** Decoding undoes `lookup`: the assignment that sets the variables of some
      ids in the table decodes to those ids run together, weighing the sum of
      their `get_weight`s. */
  lemma {:induction false} DecodeInvertsLookup(table: seq<Entry>, ids: seq<string>)
    requires forall k :: 0 <= k < |ids| ==> Lookup(table, ids[k]) != -1
    ensures DecodeCutset(Lookups(table, ids), table) == Ok((Concat(ids), WeightSum(table, ids)))
  {
    if |ids| > 0 {
      var n := |ids| - 1;
      var v := Lookup(table, ids[n]);
      assert Lookups(table, ids) == Lookups(table, ids[..n]) + [v];
      DecodeInvertsLookup(table, ids[..n]);
      DecodeAppend(Lookups(table, ids[..n]), v, table);
    }
  }

  /** Appending a literal within the table appends its entry. */
  lemma DecodeAppend(config: seq<int>, v: int, table: seq<Entry>)
    requires DecodeCutset(config, table).Ok? && 1 <= v <= |table|
    ensures var before := DecodeCutset(config, table).value;
      DecodeCutset(config + [v], table) == Ok((before.0 + table[v - 1].comp, before.1 + table[v - 1].weight))
  {
    assert (config + [v])[..|config|] == config;
  }

  /** `<cutset="..." weight="..."/>` and a newline. */
  function CutsetLine(cutset: string, totalWeight: int): string
  {
    "<cutset=\"" + cutset + "\" weight=\"" + IntToString(totalWeight) + "\"/>\n"
  }

  // ---------------------------------------------------------------------------
  // The repetitions (lines 139-165)
  // ---------------------------------------------------------------------------

  /** What the solver hands back for one run: its exit code, and the signed
      assignment of the `v` line when the output reports an optimum. */
  datatype SolverRun = SolverRun(code: int, optimum: Option<seq<int>>)

  /** Lines 145-151: a normal exit and exit 10 go on to decoding, any other
      exit re-raises, exit 20 included. */
  function LegacyProceeds(code: int): (proceeds: bool)
    ensures proceeds <==> ClassifyExit(code, "").Output?
    ensures code == 20 ==> !proceeds && ClassifyExit(code, "") == Fail
  {
    code == 0 || code == 10
  }

  /** The line one run adds to the output file, or why it stops. */
  function RepLine(run: SolverRun, table: seq<Entry>): Result<string, LegacyError>
  {
    if !LegacyProceeds(run.code) then Err(SolverRaised(run.code))
    else if run.optimum.None? then Err(NoOptimum)
    else
      var decoded := DecodeCutset(run.optimum.value, table);
      if decoded.Err? then Err(decoded.error) else Ok(CutsetLine(decoded.value.0, decoded.value.1))
  }

  /** Lines 145-165 for one run: classify the exit, find the optimum, decode
      it and format the cutset line. */
  method RunOnce(run: SolverRun, table: seq<Entry>) returns (r: Result<string, LegacyError>)
    ensures r == RepLine(run, table)
  {
    if !LegacyProceeds(run.code) {
      return Err(SolverRaised(run.code));
    }
    if run.optimum.None? {
      return Err(NoOptimum);
    }
    var decoded := LegacyDecode(run.optimum.value, table);
    if decoded.Err? {
      return Err(decoded.error);
    }
    r := Ok(CutsetLine(decoded.value.0, decoded.value.1));
  }

  /** Lines 139-165: `reps` runs of the solver. Before each run the tempfile
      is read back from its start, and nothing writes to it in between, so
      every run is handed the same `text` (`Render` of the instance that
      `LegacyEncode` built). The solver is a parameter that also sees the
      run's number, for whatever else may differ between runs. Returns the
      lines written, and the error that ended the loop, if any. */
  method RunRepetitions(reps: nat, text: string, table: seq<Entry>, solver: (nat, string) -> SolverRun)
    returns (lines: seq<string>, failure: Option<LegacyError>)
    ensures failure.None? ==> |lines| == reps
    ensures failure.Some? ==> |lines| < reps && RepLine(solver(|lines|, text), table) == Err(failure.value)
    ensures forall k :: 0 <= k < |lines| ==> RepLine(solver(k, text), table) == Ok(lines[k])
    ensures (forall k :: 0 <= k < reps ==> solver(k, text) == solver(0, text))
            ==> forall k :: 0 <= k < |lines| ==> lines[k] == lines[0]
  {
    lines := [];
    failure := None;
    var x := 0;
    while x < reps
      invariant 0 <= x <= reps && |lines| == x
      invariant forall k :: 0 <= k < x ==> RepLine(solver(k, text), table) == Ok(lines[k])
    {
      var line := RunOnce(solver(x, text), table);
      if line.Err? {
        failure := Some(line.error);
        return;
      }
      lines := lines + [line.value];
      x := x + 1;
    }
  }
}
