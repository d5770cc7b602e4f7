/** sat_solver_manager.py: the weighted partial MaxSAT instance handed to the
    maxino solver (DIMACS `p wcnf`), the classification of the solver's exit
    code, and the decoding of its assignment back into a cutset of
    vulnerability names with a reported weight. */
module SatSolver {
  import opened Prelude
  import opened DependencyModel

  // ---------------------------------------------------------------------------
  // The instance: clause records and their text
  // ---------------------------------------------------------------------------

  /** A literal as written to the instance: the variable's decimal text, with
      a leading `-` when negated. */
  datatype Literal = Pos(v: string) | Neg(v: string)

  /** One instance line: its weight, then its literals, then the sentinel `0`. */
  datatype Clause = Clause(weight: int, lits: seq<Literal>)

  /** `p wcnf <variables> <clauses> <hard weight>`. */
  datatype Header = Header(numVars: int, numClauses: int, top: int)

  datatype Wcnf = Wcnf(header: Header, clauses: seq<Clause>)

  function RenderLiteral(l: Literal): string
  {
    match l
    case Pos(v) => v
    case Neg(v) => "-" + v
  }

  /** The literals of a line, each preceded by one space. */
  function RenderLits(lits: seq<Literal>): string
  {
    if |lits| == 0 then ""
    else RenderLits(lits[..|lits| - 1]) + " " + RenderLiteral(lits[|lits| - 1])
  }

  function RenderClause(c: Clause): string
  {
    IntToString(c.weight) + RenderLits(c.lits) + " 0\n"
  }

  function RenderHeader(h: Header): string
  {
    "p wcnf " + IntToString(h.numVars) + " " + IntToString(h.numClauses) + " " + IntToString(h.top) + "\n"
  }

  function RenderClauses(cs: seq<Clause>): string
  {
    if |cs| == 0 then "" else RenderClauses(cs[..|cs| - 1]) + RenderClause(cs[|cs| - 1])
  }

  /** The text written to the temporary file. */
  function Render(inst: Wcnf): string
  {
    RenderHeader(inst.header) + RenderClauses(inst.clauses)
  }

  predicate NoNewline(s: string) { forall j :: 0 <= j < |s| ==> s[j] != '\n' }

  lemma {:induction false} RenderLitsNoNewline(lits: seq<Literal>)
    requires forall k :: 0 <= k < |lits| ==> NoNewline(lits[k].v)
    ensures NoNewline(RenderLits(lits))
  {
    if |lits| > 0 {
      RenderLitsNoNewline(lits[..|lits| - 1]);
    }
  }

  /** Every clause is written as exactly one line ending in the sentinel
      ` 0`: the only newline is the last character. */
  lemma ClauseIsOneLine(c: Clause)
    requires forall k :: 0 <= k < |c.lits| ==> NoNewline(c.lits[k].v)
    ensures var line := RenderClause(c);
      |line| >= 3 && line[|line| - 3..] == " 0\n" && NoNewline(line[..|line| - 1])
  {
    RenderLitsNoNewline(c.lits);
    var w := IntToString(c.weight);
    assert forall j :: 0 <= j < |w| ==> w[j] == '-' || IsDigit(w[j]);
  }

  // ---------------------------------------------------------------------------
  // Clause families
  // ---------------------------------------------------------------------------

  /** A path's hard line: its non-placeholder vulnerabilities, in the order the
      set hands them out, as positive literals. */
  function CoverageClause(order: seq<string>, vulToInt: map<string, string>, hard: int): (c: Clause)
    requires forall k :: 0 <= k < |order| ==> order[k] in vulToInt
    ensures c.weight == hard && |c.lits| == |order|
    ensures forall k :: 0 <= k < |order| ==> c.lits[k] == Pos(vulToInt[order[k]])
  {
    Clause(hard, seq(|order|, k requires 0 <= k < |order| => Pos(vulToInt[order[k]])))
  }

  /** The negated literals of a prior cutset's non-placeholder members, in order. */
  function NegLits(ct: seq<string>, vulToInt: map<string, string>): seq<Literal>
    requires forall k :: 0 <= k < |ct| && ct[k] != "" ==> ct[k] in vulToInt
  {
    if |ct| == 0 then []
    else
      var n := |ct| - 1;
      NegLits(ct[..n], vulToInt) + (if ct[n] == "" then [] else [Neg(vulToInt[ct[n]])])
  }

  /** A prior cutset's hard line. */
  function ExclusionClause(ct: seq<string>, vulToInt: map<string, string>, hard: int): Clause
    requires forall k :: 0 <= k < |ct| && ct[k] != "" ==> ct[k] in vulToInt
  {
    Clause(hard, NegLits(ct, vulToInt))
  }

  /** A vulnerability's soft unit line: its adjusted weight on its negated variable. */
  function SoftClause(x: string, vulAdjusted: map<string, int>, vulToInt: map<string, string>): Clause
    requires x in vulAdjusted && x in vulToInt
  {
    Clause(vulAdjusted[x], [Neg(vulToInt[x])])
  }

  function SoftClauses(order: seq<string>, vulAdjusted: map<string, int>, vulToInt: map<string, string>): (cs: seq<Clause>)
    requires forall k :: 0 <= k < |order| ==> order[k] in vulAdjusted && order[k] in vulToInt
    ensures |cs| == |order|
    ensures forall k :: 0 <= k < |order| ==> cs[k] == SoftClause(order[k], vulAdjusted, vulToInt)
  {
    seq(|order|, k requires 0 <= k < |order| => SoftClause(order[k], vulAdjusted, vulToInt))
  }

  // ---------------------------------------------------------------------------
  // sum(vul_adjusted.values())
  // ---------------------------------------------------------------------------

  /** The sum of a dictionary's values, counted once per key. */
  ghost function SumValues(m: map<string, int>): int
    decreases |m.Keys|
  {
    if m.Keys == {} then 0
    else
      var k :| k in m.Keys;
      assert (m - {k}).Keys == m.Keys - {k};
      m[k] + SumValues(m - {k})
  }

  /** The sum does not depend on which key is taken first. */
  lemma {:induction false} SumValuesRemove(m: map<string, int>, k: string)
    requires k in m
    ensures SumValues(m) == m[k] + SumValues(m - {k})
    decreases |m.Keys|
  {
    var k' :| k' in m.Keys && SumValues(m) == m[k'] + SumValues(m - {k'});
    if k' != k {
      RemoveBoth(m, k, k');
      SumValuesRemove(m - {k'}, k);
      SumValuesRemove(m - {k}, k');
    }
  }

  /** Removing two distinct keys in either order leaves the same map. */
  lemma RemoveBoth(m: map<string, int>, k: string, k': string)
    requires k in m && k' in m && k != k'
    ensures |(m - {k}).Keys| < |m.Keys| && |(m - {k'}).Keys| < |m.Keys|
    ensures k in m - {k'} && (m - {k'})[k] == m[k]
    ensures k' in m - {k} && (m - {k})[k'] == m[k']
    ensures m - {k'} - {k} == m - {k} - {k'}
  {
    assert (m - {k'}).Keys == m.Keys - {k'};
    assert (m - {k}).Keys == m.Keys - {k};
  }

  function Restrict(m: map<string, int>, s: set<string>): map<string, int>
  {
    map x | x in s && x in m :: m[x]
  }

  /** Python's `sum(vul_adjusted.values())`, over the keys in dictionary order. */
  method SumAdjusted(vulAdjusted: map<string, int>) returns (total: int)
    ensures total == SumValues(vulAdjusted)
  {
    total := 0;
    var pending := vulAdjusted.Keys;
    assert Restrict(vulAdjusted, pending) == vulAdjusted;
    while pending != {}
      invariant pending <= vulAdjusted.Keys
      invariant total + SumValues(Restrict(vulAdjusted, pending)) == SumValues(vulAdjusted)
      decreases |pending|
    {
      var x :| x in pending;
      SumValuesRemove(Restrict(vulAdjusted, pending), x);
      assert Restrict(vulAdjusted, pending) - {x} == Restrict(vulAdjusted, pending - {x});
      total := total + vulAdjusted[x];
      pending := pending - {x};
    }
    assert Restrict(vulAdjusted, pending) == map[];
  }

  /** `str(sum(vul_adjusted.values()) + 1)`. */
  ghost function HardWeight(vulAdjusted: map<string, int>): int
  {
    SumValues(vulAdjusted) + 1
  }

  // ---------------------------------------------------------------------------
  // assemble_SATinput
  // ---------------------------------------------------------------------------

  /** Every name listed in some order is numbered. */
  predicate OrdersWithin(orders: seq<seq<string>>, names: set<string>)
  {
    forall i :: 0 <= i < |orders| ==> forall k :: 0 <= k < |orders[i]| ==> orders[i][k] in names
  }

  /** Every non-placeholder member of every prior cutset is numbered. */
  predicate CutsetsWithin(cutsets: seq<seq<string>>, names: set<string>)
  {
    forall i :: 0 <= i < |cutsets| ==> forall k :: 0 <= k < |cutsets[i]| && cutsets[i][k] != "" ==> cutsets[i][k] in names
  }

  /** The hard lines of the paths, one per path order. */
  function CoverageClauses(orders: seq<seq<string>>, vulToInt: map<string, string>, hard: int): (cs: seq<Clause>)
    requires OrdersWithin(orders, vulToInt.Keys)
    ensures |cs| == |orders|
    ensures forall i :: 0 <= i < |orders| ==> cs[i] == CoverageClause(orders[i], vulToInt, hard)
  {
    if |orders| == 0 then []
    else
      var n := |orders| - 1;
      assert OrdersWithin(orders[..n], vulToInt.Keys);
      CoverageClauses(orders[..n], vulToInt, hard) + [CoverageClause(orders[n], vulToInt, hard)]
  }

  /** The hard lines of the prior cutsets, one per cutset. */
  function ExclusionClauses(cutsets: seq<seq<string>>, vulToInt: map<string, string>, hard: int): (cs: seq<Clause>)
    requires CutsetsWithin(cutsets, vulToInt.Keys)
    ensures |cs| == |cutsets|
    ensures forall i :: 0 <= i < |cutsets| ==> cs[i] == ExclusionClause(cutsets[i], vulToInt, hard)
  {
    if |cutsets| == 0 then []
    else
      var n := |cutsets| - 1;
      assert CutsetsWithin(cutsets[..n], vulToInt.Keys);
      ExclusionClauses(cutsets[..n], vulToInt, hard) + [ExclusionClause(cutsets[n], vulToInt, hard)]
  }

  /** The instance `assemble_SATinput` writes, given the orders in which the
      path sets and the adjusted-weight dictionary hand out their members. */
  ghost function Encode(vuls: seq<VulnerabilityRecord>, vulAdjusted: map<string, int>, cutsets: seq<seq<string>>,
                        pathOrders: seq<seq<string>>, softOrder: seq<string>): Wcnf
    requires OrdersWithin(pathOrders, Names(vuls))
    requires CutsetsWithin(cutsets, Names(vuls))
    requires forall k :: 0 <= k < |softOrder| ==> softOrder[k] in vulAdjusted && softOrder[k] in Names(vuls)
  {
    var m := VulsToInt(vuls);
    var hard := HardWeight(vulAdjusted);
    var nv := |ScoreDict(vuls)|;
    Wcnf(Header(nv, |pathOrders| + nv + |cutsets|, hard),
         CoverageClauses(pathOrders, m, hard) + ExclusionClauses(cutsets, m, hard)
         + SoftClauses(softOrder, vulAdjusted, m))
  }

  /** Every name the encoder looks up has a variable number. */
  predicate EncodableInput(pathVuls: seq<set<string>>, vuls: seq<VulnerabilityRecord>,
                           vulAdjusted: map<string, int>, cutsets: seq<seq<string>>)
  {
    && (forall i :: 0 <= i < |pathVuls| ==> pathVuls[i] - {""} <= Names(vuls))
    && CutsetsWithin(cutsets, Names(vuls))
    && vulAdjusted.Keys <= Names(vuls)
  }

  /** The first loop of `assemble_SATinput` for one path (lines 37-41). */
  method CoverageLine(path: set<string>, vulToInt: map<string, string>, hard: int)
    returns (c: Clause, ghost order: seq<string>)
    requires path - {""} <= vulToInt.Keys
    ensures IsEnumeration(order, path - {""})
    ensures forall k :: 0 <= k < |order| ==> order[k] in vulToInt
    ensures c == CoverageClause(order, vulToInt, hard)
  {
    var lits: seq<Literal> := [];
    order := [];
    ghost var seen: set<string> := {};
    var rest := path;
    while rest != {}
      invariant rest <= path
      invariant IsEnumeration(order, seen)
      invariant forall x :: x in seen <==> x in path && x !in rest && x != ""
      invariant forall k :: 0 <= k < |order| ==> order[k] in vulToInt
      invariant |lits| == |order|
      invariant forall k :: 0 <= k < |order| ==> lits[k] == Pos(vulToInt[order[k]])
      decreases |rest|
    {
      var vul :| vul in rest;
      if vul != "" {
        EnumerationAppend(order, seen, vul);
        lits := lits + [Pos(vulToInt[vul])];
        order := order + [vul];
        seen := seen + {vul};
      }
      rest := rest - {vul};
    }
    assert seen == path - {""};
    c := Clause(hard, lits);
  }

  /** Whatever order the set hands out its members in, a path's hard line
      carries the hard weight and one positive literal per non-placeholder
      member, and the literals are exactly those members' variable numbers. */
  lemma CoverageClauseShape(path: set<string>, order: seq<string>, vulToInt: map<string, string>, hard: int)
    requires IsEnumeration(order, path - {""}) && path - {""} <= vulToInt.Keys
    ensures forall k :: 0 <= k < |order| ==> order[k] in vulToInt
    ensures CoverageClause(order, vulToInt, hard).weight == hard
    ensures |CoverageClause(order, vulToInt, hard).lits| == |path - {""}|
    ensures forall l :: l in CoverageClause(order, vulToInt, hard).lits <==>
      exists x :: x in path && x != "" && x in vulToInt && l == Pos(vulToInt[x])
  {
    EnumerationLength(order, path - {""});
    var c := CoverageClause(order, vulToInt, hard);
    forall l
      ensures l in c.lits <==> exists x :: x in path && x != "" && x in vulToInt && l == Pos(vulToInt[x])
    {
      if l in c.lits {
        var k :| 0 <= k < |c.lits| && c.lits[k] == l;
        assert order[k] in path - {""};
      }
      if exists x :: x in path && x != "" && x in vulToInt && l == Pos(vulToInt[x]) {
        var x :| x in path && x != "" && x in vulToInt && l == Pos(vulToInt[x]);
        assert x in order;
        var k :| 0 <= k < |order| && order[k] == x;
        assert c.lits[k] == l;
      }
    }
  }

  /** The second loop of `assemble_SATinput` for one prior cutset (lines 46-50). */
  method ExclusionLine(ct: seq<string>, vulToInt: map<string, string>, hard: int) returns (c: Clause)
    requires forall k :: 0 <= k < |ct| && ct[k] != "" ==> ct[k] in vulToInt
    ensures c == ExclusionClause(ct, vulToInt, hard)
  {
    var lits: seq<Literal> := [];
    var k := 0;
    while k < |ct|
      invariant 0 <= k <= |ct|
      invariant lits == NegLits(ct[..k], vulToInt)
    {
      if ct[k] != "" {
        lits := lits + [Neg(vulToInt[ct[k]])];
      }
      assert ct[..k + 1][..k] == ct[..k];
      k := k + 1;
    }
    assert ct[..k] == ct;
    c := Clause(hard, lits);
  }

  /** The third loop of `assemble_SATinput` (lines 53-55), over the keys of
      `vul_adjusted` in dictionary order. */
  method SoftLines(vulAdjusted: map<string, int>, vulToInt: map<string, string>)
    returns (lines: seq<Clause>, ghost order: seq<string>)
    requires vulAdjusted.Keys <= vulToInt.Keys
    ensures IsEnumeration(order, vulAdjusted.Keys)
    ensures forall k :: 0 <= k < |order| ==> order[k] in vulAdjusted && order[k] in vulToInt
    ensures lines == SoftClauses(order, vulAdjusted, vulToInt)
    ensures |lines| == |vulAdjusted.Keys|
  {
    lines := [];
    order := [];
    var pending := vulAdjusted.Keys;
    while pending != {}
      invariant pending <= vulAdjusted.Keys
      invariant IsEnumeration(order, vulAdjusted.Keys - pending)
      invariant forall k :: 0 <= k < |order| ==> order[k] in vulAdjusted && order[k] in vulToInt
      invariant |lines| == |order|
      invariant forall k :: 0 <= k < |order| ==> lines[k] == SoftClause(order[k], vulAdjusted, vulToInt)
      decreases |pending|
    {
      var vul :| vul in pending;
      lines := lines + [SoftClause(vul, vulAdjusted, vulToInt)];
      order := order + [vul];
      pending := pending - {vul};
    }
    EnumerationLength(order, vulAdjusted.Keys);
  }

  /** Whatever order the dictionary hands out its keys in, there is one soft
      line per key, every key's line is among them, and there are no others. */
  lemma SoftClausesShape(order: seq<string>, vulAdjusted: map<string, int>, vulToInt: map<string, string>)
    requires IsEnumeration(order, vulAdjusted.Keys) && vulAdjusted.Keys <= vulToInt.Keys
    ensures forall k :: 0 <= k < |order| ==> order[k] in vulAdjusted && order[k] in vulToInt
    ensures |SoftClauses(order, vulAdjusted, vulToInt)| == |vulAdjusted.Keys|
    ensures forall x :: x in vulAdjusted ==> SoftClause(x, vulAdjusted, vulToInt) in SoftClauses(order, vulAdjusted, vulToInt)
    ensures forall k :: 0 <= k < |order| ==>
      exists x :: x in vulAdjusted && SoftClauses(order, vulAdjusted, vulToInt)[k] == SoftClause(x, vulAdjusted, vulToInt)
  {
    EnumerationLength(order, vulAdjusted.Keys);
    var cs := SoftClauses(order, vulAdjusted, vulToInt);
    forall x | x in vulAdjusted
      ensures SoftClause(x, vulAdjusted, vulToInt) in cs
    {
      var k :| 0 <= k < |order| && order[k] == x;
      assert cs[k] == SoftClause(x, vulAdjusted, vulToInt);
    }
  }

  /** The first loop of `assemble_SATinput` (lines 36-41): one hard line per path. */
  method CoverageLines(pathVuls: seq<set<string>>, vulToInt: map<string, string>, hard: int)
    returns (lines: seq<Clause>, ghost orders: seq<seq<string>>)
    requires forall i :: 0 <= i < |pathVuls| ==> pathVuls[i] - {""} <= vulToInt.Keys
    ensures |orders| == |pathVuls|
    ensures forall i :: 0 <= i < |pathVuls| ==> IsEnumeration(orders[i], pathVuls[i] - {""})
    ensures OrdersWithin(orders, vulToInt.Keys)
    ensures lines == CoverageClauses(orders, vulToInt, hard)
    ensures |lines| == |pathVuls|
    ensures forall i :: 0 <= i < |pathVuls| ==> lines[i].weight == hard
  {
    lines := [];
    orders := [];
    var i := 0;
    while i < |pathVuls|
      invariant 0 <= i <= |pathVuls|
      invariant |orders| == i
      invariant forall j :: 0 <= j < i ==> IsEnumeration(orders[j], pathVuls[j] - {""})
      invariant OrdersWithin(orders, vulToInt.Keys)
      invariant lines == CoverageClauses(orders, vulToInt, hard)
    {
      var c, order := CoverageLine(pathVuls[i], vulToInt, hard);
      assert (orders + [order])[..i] == orders;
      lines := lines + [c];
      orders := orders + [order];
      i := i + 1;
    }
  }

  /** The second loop of `assemble_SATinput` (lines 45-50): one hard line per prior cutset. */
  method ExclusionLines(cutsets: seq<seq<string>>, vulToInt: map<string, string>, hard: int)
    returns (lines: seq<Clause>)
    requires CutsetsWithin(cutsets, vulToInt.Keys)
    ensures lines == ExclusionClauses(cutsets, vulToInt, hard)
  {
    lines := [];
    var i := 0;
    while i < |cutsets|
      invariant 0 <= i <= |cutsets|
      invariant CutsetsWithin(cutsets[..i], vulToInt.Keys)
      invariant lines == ExclusionClauses(cutsets[..i], vulToInt, hard)
    {
      var c := ExclusionLine(cutsets[i], vulToInt, hard);
      assert cutsets[..i + 1][..i] == cutsets[..i];
      lines := lines + [c];
      i := i + 1;
    }
    assert cutsets[..i] == cutsets;
  }

  /** `Encode` spelled out, for a hard weight computed separately. */
  lemma EncodeUnfolded(vuls: seq<VulnerabilityRecord>, vulAdjusted: map<string, int>, cutsets: seq<seq<string>>,
                       pathOrders: seq<seq<string>>, softOrder: seq<string>, hard: int)
    requires OrdersWithin(pathOrders, Names(vuls))
    requires CutsetsWithin(cutsets, Names(vuls))
    requires forall k :: 0 <= k < |softOrder| ==> softOrder[k] in vulAdjusted && softOrder[k] in Names(vuls)
    requires hard == SumValues(vulAdjusted) + 1
    ensures Encode(vuls, vulAdjusted, cutsets, pathOrders, softOrder)
      == Wcnf(Header(|ScoreDict(vuls)|, |pathOrders| + |ScoreDict(vuls)| + |cutsets|, hard),
              CoverageClauses(pathOrders, VulsToInt(vuls), hard) + ExclusionClauses(cutsets, VulsToInt(vuls), hard)
              + SoftClauses(softOrder, vulAdjusted, VulsToInt(vuls)))
  {
  }

  /** `assemble_SATinput`: the header, one hard line per path, one hard line per
      prior cutset, one soft line per adjusted weight, in that order. The
      orders in which the path sets and the weight dictionary are iterated are
      returned alongside. */
  method AssembleSatInput(pathVuls: seq<set<string>>, vuls: seq<VulnerabilityRecord>,
                          vulAdjusted: map<string, int>, cutsets: seq<seq<string>>)
    returns (inst: Wcnf, ghost pathOrders: seq<seq<string>>, ghost softOrder: seq<string>)
    requires EncodableInput(pathVuls, vuls, vulAdjusted, cutsets)
    ensures |pathOrders| == |pathVuls|
    ensures forall i :: 0 <= i < |pathVuls| ==> IsEnumeration(pathOrders[i], pathVuls[i] - {""})
    ensures IsEnumeration(softOrder, vulAdjusted.Keys)
    ensures OrdersWithin(pathOrders, Names(vuls))
    ensures forall k :: 0 <= k < |softOrder| ==> softOrder[k] in vulAdjusted && softOrder[k] in Names(vuls)
    ensures inst == Encode(vuls, vulAdjusted, cutsets, pathOrders, softOrder)
    ensures inst.header == Header(|ScoreDict(vuls)|, |pathVuls| + |ScoreDict(vuls)| + |cutsets|, HardWeight(vulAdjusted))
  {
    var vulDict := ScoreDict(vuls);
    var vulToInt := VulsToInt(vuls);
    assert vulToInt.Keys == Names(vuls);
    var total := SumAdjusted(vulAdjusted);
    var hard := total + 1;
    var header := Header(|vulDict|, |pathVuls| + |vulDict| + |cutsets|, hard);
    var hardLines;
    hardLines, pathOrders := CoverageLines(pathVuls, vulToInt, hard);
    var exclusionLines := ExclusionLines(cutsets, vulToInt, hard);
    var softLines;
    softLines, softOrder := SoftLines(vulAdjusted, vulToInt);
    inst := Wcnf(header, hardLines + exclusionLines + softLines);
    EncodeUnfolded(vuls, vulAdjusted, cutsets, pathOrders, softOrder, hard);
  }

  // ---------------------------------------------------------------------------
  // What the instance means
  // ---------------------------------------------------------------------------

  predicate LiteralHolds(l: Literal, trueVars: set<string>)
  {
    match l
    case Pos(v) => v in trueVars
    case Neg(v) => v !in trueVars
  }

  /** A clause holds when one of its literals does; a line without literals never holds. */
  predicate ClauseHolds(c: Clause, trueVars: set<string>)
  {
    exists k :: 0 <= k < |c.lits| && LiteralHolds(c.lits[k], trueVars)
  }

  /** The variables set true by selecting the given vulnerabilities. */
  function Selected(chosen: set<string>, vulToInt: map<string, string>): set<string>
  {
    set x | x in chosen && x in vulToInt :: vulToInt[x]
  }

  /** A path's hard line holds exactly when the selection hits one of the
      path's non-placeholder vulnerabilities. */
  lemma CoverageClauseMeaning(vuls: seq<VulnerabilityRecord>, path: set<string>, order: seq<string>,
                              hard: int, chosen: set<string>)
    requires IsEnumeration(order, path - {""})
    requires path - {""} <= Names(vuls)
    ensures ClauseHolds(CoverageClause(order, VulsToInt(vuls), hard), Selected(chosen, VulsToInt(vuls)))
            <==> exists x :: x in path && x != "" && x in chosen
  {
    var m := VulsToInt(vuls);
    var c := CoverageClause(order, m, hard);
    var sel := Selected(chosen, m);
    if ClauseHolds(c, sel) {
      var k :| 0 <= k < |c.lits| && LiteralHolds(c.lits[k], sel);
      var y :| y in chosen && y in m && m[y] == m[order[k]];
      VulsToIntInjective(vuls, y, order[k]);
      assert order[k] in path - {""};
    }
    if exists x :: x in path && x != "" && x in chosen {
      var x :| x in path && x != "" && x in chosen;
      assert x in (set y | y in order);
      var k :| 0 <= k < |order| && order[k] == x;
      assert LiteralHolds(c.lits[k], sel);
    }
  }

  /** A path whose set holds nothing but the placeholder `''` (or nothing at
      all) gets a hard line with no literal: just the hard weight and `0`. */
  lemma PlaceholderPathLine(path: set<string>, order: seq<string>, vulToInt: map<string, string>, hard: int)
    requires IsEnumeration(order, path - {""}) && path <= {""}
    ensures forall k :: 0 <= k < |order| ==> order[k] in vulToInt
    ensures RenderClause(CoverageClause(order, vulToInt, hard)) == IntToString(hard) + " 0\n"
  {
    assert path - {""} == {};
    EnumerationLength(order, path - {""});
    assert CoverageClause(order, vulToInt, hard).lits == [];
  }

  lemma {:induction false} NegLitsMembers(ct: seq<string>, vulToInt: map<string, string>, l: Literal)
    requires forall k :: 0 <= k < |ct| && ct[k] != "" ==> ct[k] in vulToInt
    ensures l in NegLits(ct, vulToInt) <==>
      exists k :: 0 <= k < |ct| && ct[k] != "" && l == Neg(vulToInt[ct[k]])
  {
    if |ct| > 0 {
      var n := |ct| - 1;
      NegLitsMembers(ct[..n], vulToInt, l);
      assert forall k :: 0 <= k < n ==> ct[..n][k] == ct[k];
    }
  }

  /** A prior cutset's hard line holds exactly when the selection leaves out
      one of that cutset's non-placeholder members. */
  lemma ExclusionClauseMeaning(vuls: seq<VulnerabilityRecord>, ct: seq<string>, hard: int, chosen: set<string>)
    requires forall k :: 0 <= k < |ct| && ct[k] != "" ==> ct[k] in Names(vuls)
    ensures ClauseHolds(ExclusionClause(ct, VulsToInt(vuls), hard), Selected(chosen, VulsToInt(vuls)))
            <==> exists k :: 0 <= k < |ct| && ct[k] != "" && ct[k] !in chosen
  {
    var m := VulsToInt(vuls);
    var c := ExclusionClause(ct, m, hard);
    var sel := Selected(chosen, m);
    if ClauseHolds(c, sel) {
      var q :| 0 <= q < |c.lits| && LiteralHolds(c.lits[q], sel);
      NegLitsMembers(ct, m, c.lits[q]);
      var k :| 0 <= k < |ct| && ct[k] != "" && c.lits[q] == Neg(m[ct[k]]);
      assert ct[k] !in chosen;
    }
    if exists k :: 0 <= k < |ct| && ct[k] != "" && ct[k] !in chosen {
      var k :| 0 <= k < |ct| && ct[k] != "" && ct[k] !in chosen;
      NegLitsMembers(ct, m, Neg(m[ct[k]]));
      var q :| 0 <= q < |c.lits| && c.lits[q] == Neg(m[ct[k]]);
      if m[ct[k]] in sel {
        var y :| y in chosen && y in m && m[y] == m[ct[k]];
        VulsToIntInjective(vuls, y, ct[k]);
      }
      assert LiteralHolds(c.lits[q], sel);
    }
  }

  /** Selecting exactly the members of a prior cutset violates its exclusion
      line, so no later round can report that cutset again. */
  lemma ExclusionForbidsRepeat(vuls: seq<VulnerabilityRecord>, ct: seq<string>, hard: int)
    requires forall k :: 0 <= k < |ct| && ct[k] != "" ==> ct[k] in Names(vuls)
    ensures !ClauseHolds(ExclusionClause(ct, VulsToInt(vuls), hard),
                         Selected((set x | x in ct) - {""}, VulsToInt(vuls)))
  {
    ExclusionClauseMeaning(vuls, ct, hard, (set x | x in ct) - {""});
  }

  /** A vulnerability's soft line holds exactly when it is not selected. */
  lemma SoftClauseMeaning(vuls: seq<VulnerabilityRecord>, vulAdjusted: map<string, int>, x: string,
                          chosen: set<string>)
    requires x in vulAdjusted && x in Names(vuls)
    ensures ClauseHolds(SoftClause(x, vulAdjusted, VulsToInt(vuls)), Selected(chosen, VulsToInt(vuls)))
            <==> x !in chosen
  {
    var m := VulsToInt(vuls);
    var c := SoftClause(x, vulAdjusted, m);
    if x in chosen {
      assert m[x] in Selected(chosen, m);
    } else {
      if m[x] in Selected(chosen, m) {
        var y :| y in chosen && y in m && m[y] == m[x];
        VulsToIntInjective(vuls, y, x);
      }
      assert LiteralHolds(c.lits[0], Selected(chosen, m));
    }
  }

  // ---------------------------------------------------------------------------
  // Counting and the dominance of the hard weight
  // ---------------------------------------------------------------------------

  /** Removing the last element of an enumeration enumerates the rest of the set. */
  lemma EnumerationDropLast(order: seq<string>, s: set<string>)
    requires IsEnumeration(order, s) && |order| > 0
    ensures order[|order| - 1] in s
    ensures IsEnumeration(order[..|order| - 1], s - {order[|order| - 1]})
  {
    var n := |order| - 1;
    forall y
      ensures y in order[..n] <==> y in s - {order[n]}
    {
      if y in order[..n] {
        var j :| 0 <= j < n && order[..n][j] == y;
        assert order[j] != order[n];
      }
      if y in s - {order[n]} {
        var j :| 0 <= j < |order| && order[j] == y;
        assert order[..n][j] == y;
      }
    }
  }

  lemma {:induction false} EnumerationLength(order: seq<string>, s: set<string>)
    requires IsEnumeration(order, s)
    ensures |order| == |s|
  {
    if |order| == 0 {
      assert s == {};
    } else {
      var n := |order| - 1;
      EnumerationDropLast(order, s);
      EnumerationLength(order[..n], s - {order[n]});
    }
  }

  /** When the weights cover every vulnerability name, the header's clause count
      is the number of lines written: paths + prior cutsets + vulnerabilities. */
  lemma HeaderCountsClauses(vuls: seq<VulnerabilityRecord>, vulAdjusted: map<string, int>, cutsets: seq<seq<string>>,
                            pathOrders: seq<seq<string>>, softOrder: seq<string>)
    requires OrdersWithin(pathOrders, Names(vuls))
    requires CutsetsWithin(cutsets, Names(vuls))
    requires vulAdjusted.Keys == Names(vuls)
    requires IsEnumeration(softOrder, vulAdjusted.Keys)
    ensures var inst := Encode(vuls, vulAdjusted, cutsets, pathOrders, softOrder);
      && |inst.clauses| == inst.header.numClauses
      && inst.header.numVars == |Names(vuls)|
  {
    EnumerationLength(softOrder, vulAdjusted.Keys);
    assert |ScoreDict(vuls)| == |ScoreDict(vuls).Keys|;
  }

  function SumWeights(cs: seq<Clause>): int
  {
    if |cs| == 0 then 0 else SumWeights(cs[..|cs| - 1]) + cs[|cs| - 1].weight
  }

  /** The total weight of the clauses that do not hold. */
  function ViolatedWeight(cs: seq<Clause>, trueVars: set<string>): int
  {
    if |cs| == 0 then 0
    else
      var last := cs[|cs| - 1];
      ViolatedWeight(cs[..|cs| - 1], trueVars) + (if ClauseHolds(last, trueVars) then 0 else last.weight)
  }

  lemma {:induction false} ViolatedAtMostTotal(cs: seq<Clause>, trueVars: set<string>)
    requires forall k :: 0 <= k < |cs| ==> cs[k].weight >= 0
    ensures 0 <= ViolatedWeight(cs, trueVars) <= SumWeights(cs)
  {
    if |cs| > 0 {
      ViolatedAtMostTotal(cs[..|cs| - 1], trueVars);
    }
  }

  function SumOver(order: seq<string>, m: map<string, int>): int
    requires forall k :: 0 <= k < |order| ==> order[k] in m
  {
    if |order| == 0 then 0 else SumOver(order[..|order| - 1], m) + m[order[|order| - 1]]
  }

  lemma {:induction false} SumOverAgree(order: seq<string>, m1: map<string, int>, m2: map<string, int>)
    requires forall k :: 0 <= k < |order| ==> order[k] in m1 && order[k] in m2 && m1[order[k]] == m2[order[k]]
    ensures SumOver(order, m1) == SumOver(order, m2)
  {
    if |order| > 0 {
      SumOverAgree(order[..|order| - 1], m1, m2);
    }
  }

  /** Summing along any enumeration of the keys gives the sum of the values. */
  lemma {:induction false} SumOverEnumeration(order: seq<string>, m: map<string, int>)
    requires IsEnumeration(order, m.Keys)
    ensures SumOver(order, m) == SumValues(m)
  {
    if |order| == 0 {
      assert m.Keys == {};
    } else {
      var n := |order| - 1;
      var x := order[n];
      var rest := m - {x};
      EnumerationDropLast(order, m.Keys);
      assert rest.Keys == m.Keys - {x};
      SumOverEnumeration(order[..n], rest);
      SumOverAgree(order[..n], m, rest);
      SumValuesRemove(m, x);
    }
  }

  lemma {:induction false} SoftWeightsSum(order: seq<string>, vulAdjusted: map<string, int>, vulToInt: map<string, string>)
    requires forall k :: 0 <= k < |order| ==> order[k] in vulAdjusted && order[k] in vulToInt
    ensures SumWeights(SoftClauses(order, vulAdjusted, vulToInt)) == SumOver(order, vulAdjusted)
  {
    if |order| > 0 {
      var n := |order| - 1;
      SoftWeightsSum(order[..n], vulAdjusted, vulToInt);
      assert SoftClauses(order, vulAdjusted, vulToInt)[..n] == SoftClauses(order[..n], vulAdjusted, vulToInt);
    }
  }

  /** Lines of weight `hard` followed by soft lines: the first part keeps its
      weights and the tail is the soft part. */
  lemma HardThenSoft(cover: seq<Clause>, excl: seq<Clause>, soft: seq<Clause>, hard: int)
    requires forall i :: 0 <= i < |cover| ==> cover[i].weight == hard
    requires forall i :: 0 <= i < |excl| ==> excl[i].weight == hard
    ensures (cover + excl + soft)[|cover| + |excl|..] == soft
    ensures forall k :: 0 <= k < |cover| + |excl| ==> (cover + excl + soft)[k].weight == hard
  {
    forall k | 0 <= k < |cover| + |excl|
      ensures (cover + excl + soft)[k].weight == hard
    {
      if k < |cover| {
        assert (cover + excl + soft)[k] == cover[k];
      } else {
        assert (cover + excl + soft)[k] == excl[k - |cover|];
      }
    }
  }

  /** The soft lines weigh the sum of the adjusted weights in all, and the
      violated ones weigh between nothing and that sum. */
  lemma SoftLinesTotal(softOrder: seq<string>, vulAdjusted: map<string, int>, vulToInt: map<string, string>, trueVars: set<string>)
    requires IsEnumeration(softOrder, vulAdjusted.Keys)
    requires vulAdjusted.Keys <= vulToInt.Keys
    requires forall x :: x in vulAdjusted ==> vulAdjusted[x] >= 0
    ensures SumWeights(SoftClauses(softOrder, vulAdjusted, vulToInt)) == SumValues(vulAdjusted)
    ensures 0 <= ViolatedWeight(SoftClauses(softOrder, vulAdjusted, vulToInt), trueVars) <= SumValues(vulAdjusted)
  {
    var soft := SoftClauses(softOrder, vulAdjusted, vulToInt);
    SoftWeightsSum(softOrder, vulAdjusted, vulToInt);
    SumOverEnumeration(softOrder, vulAdjusted);
    forall k | 0 <= k < |soft|
      ensures soft[k].weight >= 0
    {
      assert soft[k] == SoftClause(softOrder[k], vulAdjusted, vulToInt);
    }
    ViolatedAtMostTotal(soft, trueVars);
  }

  /** The hard weight is one more than the total soft weight; with the
      non-negative adjusted weights, every line that is not soft carries the
      hard weight, and whatever the assignment, the weight of the violated soft
      lines stays strictly below it, so the solver never gives up a hard line
      to save soft weight. */
  lemma HardWeightDominates(vuls: seq<VulnerabilityRecord>, vulAdjusted: map<string, int>, cutsets: seq<seq<string>>,
                            pathOrders: seq<seq<string>>, softOrder: seq<string>, trueVars: set<string>)
    requires OrdersWithin(pathOrders, Names(vuls))
    requires CutsetsWithin(cutsets, Names(vuls))
    requires vulAdjusted.Keys <= Names(vuls)
    requires IsEnumeration(softOrder, vulAdjusted.Keys)
    requires forall x :: x in vulAdjusted ==> vulAdjusted[x] >= 0
    ensures var inst := Encode(vuls, vulAdjusted, cutsets, pathOrders, softOrder);
      var soft := inst.clauses[|pathOrders| + |cutsets|..];
      && SumWeights(soft) == inst.header.top - 1
      && (forall k :: 0 <= k < |pathOrders| + |cutsets| ==> inst.clauses[k].weight == inst.header.top)
      && ViolatedWeight(soft, trueVars) < inst.header.top
  {
    var m := VulsToInt(vuls);
    var hard := HardWeight(vulAdjusted);
    var cover := CoverageClauses(pathOrders, m, hard);
    var excl := ExclusionClauses(cutsets, m, hard);
    var soft := SoftClauses(softOrder, vulAdjusted, m);
    HardThenSoft(cover, excl, soft, hard);
    SoftLinesTotal(softOrder, vulAdjusted, m, trueVars);
  }

  /** With distinct names, every number `vuls_to_int` hands out is one of
      `"1"`..`"n"`, `n` being the number of scored names. */
  lemma NumbersWithinVariableCount(vuls: seq<VulnerabilityRecord>)
    requires DistinctNames(vuls)
    ensures forall x :: x in Names(vuls) ==> VulsToInt(vuls)[x] in DecimalsUpTo(|ScoreDict(vuls)|)
  {
    var m := VulsToInt(vuls);
    VulsToIntBijection(vuls);
    assert |ScoreDict(vuls)| == |ScoreDict(vuls).Keys| == |Names(vuls)| == |vuls|;
    assert forall x :: x in m ==> m[x] in m.Values;
  }

  /** Every literal of every clause names a variable in `vars`. */
  predicate LitsWithin(cs: seq<Clause>, vars: set<string>)
  {
    forall q :: 0 <= q < |cs| ==> forall j :: 0 <= j < |cs[q].lits| ==> cs[q].lits[j].v in vars
  }

  predicate ValuesWithin(vulToInt: map<string, string>, vars: set<string>)
  {
    forall x :: x in vulToInt ==> vulToInt[x] in vars
  }

  lemma CoverageLitsWithin(orders: seq<seq<string>>, vulToInt: map<string, string>, hard: int, vars: set<string>)
    requires OrdersWithin(orders, vulToInt.Keys) && ValuesWithin(vulToInt, vars)
    ensures LitsWithin(CoverageClauses(orders, vulToInt, hard), vars)
  {
    var cs := CoverageClauses(orders, vulToInt, hard);
    forall q, j | 0 <= q < |cs| && 0 <= j < |cs[q].lits|
      ensures cs[q].lits[j].v in vars
    {
      assert cs[q].lits[j] == Pos(vulToInt[orders[q][j]]);
    }
  }

  lemma ExclusionLitsWithin(cutsets: seq<seq<string>>, vulToInt: map<string, string>, hard: int, vars: set<string>)
    requires CutsetsWithin(cutsets, vulToInt.Keys) && ValuesWithin(vulToInt, vars)
    ensures LitsWithin(ExclusionClauses(cutsets, vulToInt, hard), vars)
  {
    var cs := ExclusionClauses(cutsets, vulToInt, hard);
    forall q, j | 0 <= q < |cs| && 0 <= j < |cs[q].lits|
      ensures cs[q].lits[j].v in vars
    {
      NegLitsMembers(cutsets[q], vulToInt, cs[q].lits[j]);
    }
  }

  lemma SoftLitsWithin(order: seq<string>, vulAdjusted: map<string, int>, vulToInt: map<string, string>, vars: set<string>)
    requires forall k :: 0 <= k < |order| ==> order[k] in vulAdjusted && order[k] in vulToInt
    requires ValuesWithin(vulToInt, vars)
    ensures LitsWithin(SoftClauses(order, vulAdjusted, vulToInt), vars)
  {
  }

  /** With distinct vulnerability names every literal's variable is one of
      `"1"`..`"n"`, `n` being the variable count the header declares. */
  lemma LiteralsWithinDeclaredVariables(vuls: seq<VulnerabilityRecord>, vulAdjusted: map<string, int>,
                                        cutsets: seq<seq<string>>, pathOrders: seq<seq<string>>, softOrder: seq<string>)
    requires DistinctNames(vuls)
    requires OrdersWithin(pathOrders, Names(vuls))
    requires CutsetsWithin(cutsets, Names(vuls))
    requires forall k :: 0 <= k < |softOrder| ==> softOrder[k] in vulAdjusted && softOrder[k] in Names(vuls)
    ensures var inst := Encode(vuls, vulAdjusted, cutsets, pathOrders, softOrder);
      LitsWithin(inst.clauses, DecimalsUpTo(inst.header.numVars))
  {
    var m := VulsToInt(vuls);
    var hard := HardWeight(vulAdjusted);
    var vars := DecimalsUpTo(|ScoreDict(vuls)|);
    NumbersWithinVariableCount(vuls);
    assert ValuesWithin(m, vars);
    var cover := CoverageClauses(pathOrders, m, hard);
    var excl := ExclusionClauses(cutsets, m, hard);
    var soft := SoftClauses(softOrder, vulAdjusted, m);
    CoverageLitsWithin(pathOrders, m, hard, vars);
    ExclusionLitsWithin(cutsets, m, hard, vars);
    SoftLitsWithin(softOrder, vulAdjusted, m, vars);
    LitsWithinConcat(cover, excl, vars);
    LitsWithinConcat(cover + excl, soft, vars);
  }

  lemma LitsWithinConcat(a: seq<Clause>, b: seq<Clause>, vars: set<string>)
    requires LitsWithin(a, vars) && LitsWithin(b, vars)
    ensures LitsWithin(a + b, vars)
  {
    forall q | 0 <= q < |a + b|
      ensures forall j :: 0 <= j < |(a + b)[q].lits| ==> (a + b)[q].lits[j].v in vars
    {
      if q >= |a| {
        assert (a + b)[q] == b[q - |a|];
      }
    }
  }

  // ---------------------------------------------------------------------------
  // run_satsolver: the exit-code classification
  // ---------------------------------------------------------------------------

  /** What `run_satsolver` does with the solver's exit: hand back its output,
      return `"fail"`, or re-raise the `CalledProcessError`. */
  datatype SolverOutcome = Output(text: string) | Fail | Raised(code: int)

  /** `run_satsolver`: a normal exit (0) and exit 10 give the output, exit 20
      gives `"fail"`, any other code re-raises. */
  function ClassifyExit(code: int, output: string): (r: SolverOutcome)
    ensures r.Output? <==> code == 0 || code == 10
    ensures r == Fail <==> code == 20
    ensures r.Raised? <==> code != 0 && code != 10 && code != 20
    ensures r.Output? ==> r.text == output
    ensures r.Raised? ==> r.code == code
  {
    if code == 0 then Output(output)
    else if code == 20 then Fail
    else if code != 10 then Raised(code)
    else Output(output)
  }

  // ---------------------------------------------------------------------------
  // process_output
  // ---------------------------------------------------------------------------

  /** Every variable the assignment sets is the number of some vulnerability. */
  predicate Decodable(config: seq<int>, vulToInt: map<string, string>)
  {
    forall j :: 0 <= j < |config| && config[j] > 0 ==> Decimal(config[j]) in vulToInt.Values
  }

  /** `names` is a decoding of the assignment: one name per positive literal,
      in assignment order, each a key whose variable number is that literal. */
  ghost predicate DecodesTo(config: seq<int>, vulToInt: map<string, string>, names: seq<string>)
    ensures DecodesTo(config, vulToInt, names) ==> forall k :: 0 <= k < |names| ==> names[k] in vulToInt
    decreases |config|
  {
    if |config| == 0 then names == []
    else
      var n := |config| - 1;
      if config[n] > 0 then
        && |names| > 0
        && names[|names| - 1] in vulToInt
        && vulToInt[names[|names| - 1]] == Decimal(config[n])
        && DecodesTo(config[..n], vulToInt, names[..|names| - 1])
      else
        DecodesTo(config[..n], vulToInt, names)
  }

  /** `int(vul_dict[x])`: a vulnerability's score. */
  function Score(x: string, vulDict: map<string, string>): nat
    requires x in vulDict && IsDigits(vulDict[x])
  {
    ParseDigits(vulDict[x])
  }

  /** Every listed name has a numeric score. */
  predicate Scored(names: seq<string>, vulDict: map<string, string>)
  {
    forall i :: 0 <= i < |names| ==> names[i] in vulDict && IsDigits(vulDict[names[i]])
  }

  /** `float(score) / 20.0`. */
  function Factor(score: nat): real
  {
    score as real / 20.0
  }

  /** The scores of the listed names, in order. */
  function Scores(names: seq<string>, vulDict: map<string, string>): (r: seq<nat>)
    requires Scored(names, vulDict)
    ensures |r| == |names|
  {
    seq(|names|, i requires 0 <= i < |names| => Score(names[i], vulDict))
  }

  /** The product of `score / 20` over a list of scores. */
  function Product(scores: seq<nat>): real
  {
    if |scores| == 0 then 1.0 else Product(scores[..|scores| - 1]) * Factor(scores[|scores| - 1])
  }

  /** The product of `score / 20` over the selected names. */
  function ScoreProduct(names: seq<string>, vulDict: map<string, string>): real
    requires Scored(names, vulDict)
  {
    Product(Scores(names, vulDict))
  }

  /** The display threshold below which the reported weight is replaced by 1. */
  const WeightFloor: real := 0.00001

  /** The reported weight: the product, or 1 when it falls below `1e-5`. */
  function ReportedWeight(names: seq<string>, vulDict: map<string, string>): real
    requires Scored(names, vulDict)
  {
    var p := ScoreProduct(names, vulDict);
    if p < WeightFloor then 1.0 else p
  }

  /** Every listed name has a score in 1..20. */
  predicate ScoresInTable(names: seq<string>, vulDict: map<string, string>)
    requires Scored(names, vulDict)
  {
    forall i :: 0 <= i < |names| ==> 0 < Score(names[i], vulDict) <= 20
  }

  /** A product of factors of scores in 1..20 lies in (0, 1]. */
  lemma {:induction false} ProductBounds(scores: seq<nat>)
    requires forall i :: 0 <= i < |scores| ==> 0 < scores[i] <= 20
    ensures 0.0 < Product(scores) <= 1.0
  {
    if |scores| > 0 {
      var n := |scores| - 1;
      ProductBounds(scores[..n]);
      FactorStep(Product(scores[..n]), scores[n], Product(scores));
    }
  }

  /** Multiplying a product in (0, 1] by the factor of a score in 1..20 keeps it in (0, 1]. */
  lemma FactorStep(p: real, score: nat, q: real)
    requires 0.0 < p <= 1.0 && 0 < score <= 20 && q == p * Factor(score)
    ensures 0.0 < q <= p
  {
    var f := Factor(score);
    assert 0.0 < f <= 1.0;
    assert p * f <= p * 1.0 by {
      assert p * (1.0 - f) >= 0.0;
    }
  }

  lemma ScoreProductBounds(names: seq<string>, vulDict: map<string, string>)
    requires Scored(names, vulDict) && ScoresInTable(names, vulDict)
    ensures 0.0 < ScoreProduct(names, vulDict) <= 1.0
  {
    var scores := Scores(names, vulDict);
    assert forall i :: 0 <= i < |scores| ==> scores[i] == Score(names[i], vulDict);
    ProductBounds(scores);
  }

  /** With scores in 1..20 the reported weight lies between `1e-5` and 1, and
      an empty selection reports exactly 1. */
  lemma ReportedWeightBounds(names: seq<string>, vulDict: map<string, string>)
    requires Scored(names, vulDict) && ScoresInTable(names, vulDict)
    ensures WeightFloor <= ReportedWeight(names, vulDict) <= 1.0
    ensures |names| == 0 ==> ReportedWeight(names, vulDict) == 1.0
  {
    ScoreProductBounds(names, vulDict);
  }

  datatype DecodeError =
    | UnmappedVariable(v: int)  // `.index(str(v))` finds no such variable
    | MissingOptimum            // `rg[0]` with no `s OPTIMUM FOUND` in the output

  datatype Cutset = Cutset(names: seq<string>, weight: real)

  /** The state of the loop of `process_output` after the first `n` entries:
      they all decode, to `names`, and `weight` is the product over `names`. */
  ghost predicate DecodedPrefix(config: seq<int>, n: nat, vulDict: map<string, string>, vulToInt: map<string, string>,
                                names: seq<string>, weight: real)
    requires n <= |config|
  {
    && Decodable(config[..n], vulToInt)
    && DecodesTo(config[..n], vulToInt, names)
    && Scored(names, vulDict)
    && weight == ScoreProduct(names, vulDict)
  }

  /** One pass of the loop of `process_output` (lines 95-98). */
  method DecodeEntry(config: seq<int>, i: nat, vulDict: map<string, string>, vulToInt: map<string, string>,
                     names: seq<string>, weight: real)
    returns (r: Result<(seq<string>, real), DecodeError>)
    requires forall x :: x in vulToInt ==> x in vulDict && IsDigits(vulDict[x])
    requires i < |config| && DecodedPrefix(config, i, vulDict, vulToInt, names, weight)
    ensures r.Err? ==> !Decodable(config, vulToInt) && r.error == UnmappedVariable(config[i])
    ensures r.Err? ==> config[i] > 0 && Decimal(config[i]) !in vulToInt.Values
    ensures r.Ok? ==> DecodedPrefix(config, i + 1, vulDict, vulToInt, r.value.0, r.value.1)
  {
    var v := config[i];
    if v <= 0 {
      DecodedPrefixSkipped(config, i, vulDict, vulToInt, names, weight);
      return Ok((names, weight));
    }
    var text := Decimal(v);
    if text !in vulToInt.Values {
      UnmappedEntry(config, i, vulToInt);
      return Err(UnmappedVariable(v));
    }
    var name :| name in vulToInt && vulToInt[name] == text;
    DecodedPrefixTaken(config, i, vulDict, vulToInt, names, weight, name);
    r := Ok((names + [name], weight * Factor(Score(name, vulDict))));
  }

  /** A positive literal that numbers no vulnerability makes the whole
      assignment undecodable. */
  lemma UnmappedEntry(config: seq<int>, i: nat, vulToInt: map<string, string>)
    requires i < |config| && config[i] > 0 && Decimal(config[i]) !in vulToInt.Values
    ensures !Decodable(config, vulToInt)
  {
  }

  lemma DecodedPrefixSkipped(config: seq<int>, i: nat, vulDict: map<string, string>, vulToInt: map<string, string>,
                             names: seq<string>, weight: real)
    requires i < |config| && config[i] <= 0 && DecodedPrefix(config, i, vulDict, vulToInt, names, weight)
    ensures DecodedPrefix(config, i + 1, vulDict, vulToInt, names, weight)
  {
    DecodeStep(config, i, vulToInt, names, []);
    assert names + [] == names;
  }

  lemma DecodedPrefixTaken(config: seq<int>, i: nat, vulDict: map<string, string>, vulToInt: map<string, string>,
                           names: seq<string>, weight: real, name: string)
    requires forall x :: x in vulToInt ==> x in vulDict && IsDigits(vulDict[x])
    requires i < |config| && config[i] > 0 && DecodedPrefix(config, i, vulDict, vulToInt, names, weight)
    requires name in vulToInt && vulToInt[name] == Decimal(config[i])
    ensures DecodedPrefix(config, i + 1, vulDict, vulToInt, names + [name], weight * Factor(Score(name, vulDict)))
  {
    DecodeStep(config, i, vulToInt, names, [name]);
    ScoreProductStep(names, name, vulDict);
  }

  /** The loop of `process_output` (lines 94-98): the names whose variable is
      set, in assignment order, with the running product of their factors. */
  method DecodeAssignment(config: seq<int>, vulDict: map<string, string>, vulToInt: map<string, string>)
    returns (r: Result<(seq<string>, real), DecodeError>)
    requires forall x :: x in vulToInt ==> x in vulDict && IsDigits(vulDict[x])
    ensures r.Err? <==> !Decodable(config, vulToInt)
    ensures r.Err? ==> r.error.UnmappedVariable? && r.error.v > 0 && Decimal(r.error.v) !in vulToInt.Values
    ensures r.Err? ==> exists j :: 0 <= j < |config| && config[j] == r.error.v && Decodable(config[..j], vulToInt)
    ensures r.Ok? ==> DecodesTo(config, vulToInt, r.value.0) && Scored(r.value.0, vulDict)
    ensures r.Ok? ==> r.value.1 == ScoreProduct(r.value.0, vulDict)
  {
    var cutset: seq<string> := [];
    var weight: real := 1.0;
    var i := 0;
    while i < |config|
      invariant 0 <= i <= |config|
      invariant DecodedPrefix(config, i, vulDict, vulToInt, cutset, weight)
    {
      var next := DecodeEntry(config, i, vulDict, vulToInt, cutset, weight);
      if next.Err? {
        assert config[i] == next.error.v && Decodable(config[..i], vulToInt);
        return Err(next.error);
      }
      cutset, weight := next.value.0, next.value.1;
      i := i + 1;
    }
    assert config[..i] == config;
    r := Ok((cutset, weight));
  }

  /** `process_output`, given the signed assignment of the `v` line when the
      output reports an optimum: no optimum fails at `rg[0]`; otherwise the
      names whose variable is set, in assignment order, and the reported
      weight, or the first positive literal that numbers no vulnerability. */
  method ProcessOutput(optimum: Option<seq<int>>, vulDict: map<string, string>, vulToInt: map<string, string>)
    returns (r: Result<Cutset, DecodeError>)
    requires forall x :: x in vulToInt ==> x in vulDict && IsDigits(vulDict[x])
    ensures optimum.None? ==> r == Err(MissingOptimum)
    ensures optimum.Some? ==> (r.Err? <==> !Decodable(optimum.value, vulToInt))
    ensures optimum.Some? && r.Err? ==>
      && r.error.UnmappedVariable? && r.error.v > 0 && Decimal(r.error.v) !in vulToInt.Values
      && exists j :: 0 <= j < |optimum.value| && optimum.value[j] == r.error.v && Decodable(optimum.value[..j], vulToInt)
    ensures r.Ok? ==> optimum.Some? && DecodesTo(optimum.value, vulToInt, r.value.names) && Scored(r.value.names, vulDict)
    ensures r.Ok? ==> r.value.weight == ReportedWeight(r.value.names, vulDict)
  {
    if optimum.None? {
      return Err(MissingOptimum);
    }
    var config := optimum.value;
    var decoded := DecodeAssignment(config, vulDict, vulToInt);
    if decoded.Err? {
      return Err(decoded.error);
    }
    var (cutset, weight) := decoded.value;
    if weight < WeightFloor {
      weight := 1.0;
    }
    r := Ok(Cutset(cutset, weight));
  }

  /** Reading one more entry of the assignment extends the decoding by the
      name that entry selects, if any. */
  lemma DecodeStep(config: seq<int>, i: nat, vulToInt: map<string, string>, names: seq<string>, added: seq<string>)
    requires i < |config|
    requires Decodable(config[..i], vulToInt)
    requires DecodesTo(config[..i], vulToInt, names)
    requires config[i] <= 0 ==> added == []
    requires config[i] > 0 ==> |added| == 1 && added[0] in vulToInt && vulToInt[added[0]] == Decimal(config[i])
    ensures Decodable(config[..i + 1], vulToInt)
    ensures DecodesTo(config[..i + 1], vulToInt, names + added)
  {
    assert config[..i + 1][..i] == config[..i];
    if |added| == 1 {
      assert (names + added)[..|names|] == names;
    } else {
      assert names + added == names;
    }
  }

  lemma ScoreProductStep(names: seq<string>, name: string, vulDict: map<string, string>)
    requires Scored(names, vulDict) && name in vulDict && IsDigits(vulDict[name])
    ensures Scored(names + [name], vulDict)
    ensures ScoreProduct(names + [name], vulDict) == ScoreProduct(names, vulDict) * Factor(Score(name, vulDict))
  {
    var scores := Scores(names + [name], vulDict);
    assert scores[..|names|] == Scores(names, vulDict);
    assert scores[|names|] == Score(name, vulDict);
  }

  /** With `vuls_to_int`'s numbering, an assignment has at most one decoding. */
  lemma {:induction false} DecodingIsUnique(config: seq<int>, vuls: seq<VulnerabilityRecord>, a: seq<string>, b: seq<string>)
    requires DecodesTo(config, VulsToInt(vuls), a) && DecodesTo(config, VulsToInt(vuls), b)
    ensures a == b
    decreases |config|
  {
    if |config| > 0 {
      var n := |config| - 1;
      if config[n] > 0 {
        DecodingIsUnique(config[..n], vuls, a[..|a| - 1], b[..|b| - 1]);
        VulsToIntInjective(vuls, a[|a| - 1], b[|b| - 1]);
        assert a == a[..|a| - 1] + [a[|a| - 1]];
        assert b == b[..|b| - 1] + [b[|b| - 1]];
      } else {
        DecodingIsUnique(config[..n], vuls, a, b);
      }
    }
  }

  /** The variables an assignment sets true. */
  function AssignedTrue(config: seq<int>): set<string>
  {
    set j | 0 <= j < |config| && config[j] > 0 :: Decimal(config[j])
  }

  /** Every decoded name's variable is set by the assignment. */
  lemma {:induction false} DecodedNamesAssigned(config: seq<int>, vulToInt: map<string, string>, names: seq<string>, k: nat)
    requires DecodesTo(config, vulToInt, names) && k < |names|
    ensures vulToInt[names[k]] in AssignedTrue(config)
    decreases |config|
  {
    var n := |config| - 1;
    if config[n] > 0 && k == |names| - 1 {
      assert Decimal(config[n]) in AssignedTrue(config);
    } else {
      var rest := if config[n] > 0 then names[..|names| - 1] else names;
      DecodedNamesAssigned(config[..n], vulToInt, rest, k);
      assert rest[k] == names[k];
      var j :| 0 <= j < n && config[..n][j] > 0 && vulToInt[names[k]] == Decimal(config[..n][j]);
      assert config[j] == config[..n][j];
    }
  }

  /** Decoding a solution and feeding the cutset back as a prior cutset yields
      an exclusion line that this same solution violates. */
  lemma DecodedCutsetIsExcluded(config: seq<int>, vulToInt: map<string, string>, names: seq<string>, hard: int)
    requires DecodesTo(config, vulToInt, names)
    ensures !ClauseHolds(ExclusionClause(names, vulToInt, hard), AssignedTrue(config))
  {
    var c := ExclusionClause(names, vulToInt, hard);
    forall q | 0 <= q < |c.lits|
      ensures !LiteralHolds(c.lits[q], AssignedTrue(config))
    {
      NegLitsMembers(names, vulToInt, c.lits[q]);
      var k :| 0 <= k < |names| && names[k] != "" && c.lits[q] == Neg(vulToInt[names[k]]);
      DecodedNamesAssigned(config, vulToInt, names, k);
    }
  }
}
