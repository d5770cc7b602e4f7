# Fault-tree analysis: the dependency model, the MaxSAT encoding and its decoding

This project models, in Dafny, the combinatorial core of a small fault-tree analysis tool. The tool reads:

- the network paths of a system (source, destination and a comma-separated route of component ids);
- its components (id, name, address and a comma-separated field of vulnerability names);
- its vulnerabilities (name and a numeric score).

From these it builds a weighted partial MaxSAT instance in the DIMACS `p wcnf` format. The instance is handed to the external solver `maxino`, whose optimal assignment is read back as a *cutset*: a set of vulnerabilities (or, in the earlier single-file generator, components) that together cut every path.

Four modules:

- `Prelude` (`prelude.dfy`) states the Python built-ins the scripts rely on. These are `str.split` on one character, `str()` and `int()` on non-negative integers, `list.index` and `dict(zip(...))` with later keys overwriting earlier ones. It also defines the `Result` and `Option` types that carry the scripts' exceptions.
- `DependencyModel` (`dependency_model.dfy`) models `dependency_file_manager.py`:
  - the component dictionary;
  - the numbering of vulnerabilities as solver variables;
  - the adjusted weights;
  - each path's set of vulnerabilities.
- `SatSolver` (`sat_solver.dfy`) models `sat_solver_manager.py`:
  - the instance as a header plus clause records, with a rendering to text;
  - the three clause families and what each clause means for a selection of vulnerabilities;
  - the exit-code classification of `run_satsolver`;
  - `process_output`, which decodes an assignment into names and a reported weight.
- `FaultTreeGenerator` (`fault_tree_generator.dfy`) models the earlier single-file generator `FaultTreeGenerator.py`:
  - the linear searches `lookup` and `get_weight`;
  - the component/weight table;
  - the instance whose variables are components;
  - the decoding of an assignment into a cutset line;
  - the repetition loop.

Python's sets and dictionaries hand out their members in an order the program does not control. The loops over them pick members with `:|`, and the methods return that order as a ghost enumeration, so contracts hold for every order. A lookup of a missing key (a `KeyError`) is a precondition. Errors the scripts run into on inputs they accept become `Err` values:

- an empty path list leaves `vul_adjusted` unbound;
- a variable outside the numbering makes `list.index` raise;
- an index past the end of the table, a re-raised solver error and a missing optimum stop the repetition loop.

Behaviours of the earlier generator that differ from the later module are stated as lemmas about the code as written. The header's clause count undercounts the soft lines when a parsed component lies on no path. Such a component's soft line is written with the literal `--1`. A vulnerability named twice in one field is counted twice, which can make a soft weight negative. Every repetition solves the same instance, because no clause excluding earlier cutsets is ever added.

## Model

| member | source | states |
|---|---|---|
| DependencyModel.CompsToDict | dependency_file_manager.py:39-42 | The keys are exactly the component ids; each id maps to the vulnerability field of its last record, so later records overwrite earlier ones. |
| DependencyModel.ScoreDict | dependency_file_manager.py:62 | `dict(vuls)`: the keys are exactly the vulnerability names; each name maps to the score of its last record. |
| DependencyModel.VarNumber | dependency_file_manager.py:48-49 | `vuls.index(x) + 1` for record i lies in 1..i+1, names a record equal to record i, and no earlier record equals it: the first occurrence. |
| DependencyModel.VulsToInt | dependency_file_manager.py:45-49 | The numbering is defined on exactly the vulnerability names. |
| DependencyModel.VulsToIntLast | dependency_file_manager.py:45-49 | A name maps to the decimal text of 1 + the position of the first record equal to its last record. |
| DependencyModel.VarNumberNamesRecord | dependency_file_manager.py:45-49 | Every name's number is `str(k)` for some record k (1-based) bearing that name. |
| DependencyModel.VulsToIntInjective | dependency_file_manager.py:45-49 | Different names never share a variable number. |
| DependencyModel.VulsToIntInOrder | dependency_file_manager.py:45-49 | With distinct names, the k-th record's name is numbered `str(k)`. |
| DependencyModel.VulsToIntBijection | dependency_file_manager.py:45-49 | With distinct names, the numbering is a bijection from the n names onto "1".."n". |
| DependencyModel.AdjustWeight | dependency_file_manager.py:52-55 | For scores 1..20 the truncated `-100·ln(score/20)` is in 0..299, and it is 0 exactly at score 20. |
| DependencyModel.AdjustWeightDecreasing | dependency_file_manager.py:52-55 | A higher score gets a strictly smaller adjusted weight. |
| DependencyModel.AdjustedOf | dependency_file_manager.py:81-83 | `vul_adjusted` has exactly the keys of `vul_dict`, each with a weight in 0..299. |
| DependencyModel.AdjustedWeights | dependency_file_manager.py:81-83 | The adjusted weights of `dict(vuls)` are keyed by exactly the vulnerability names, with weights in 0..299. |
| DependencyModel.PathComponents | dependency_file_manager.py:71-72 | The ids visited for a path are the route's comma-split pieces followed by the source; the destination is not among them unless the route or source names it. |
| DependencyModel.FieldUnionMembers | dependency_file_manager.py:75-79 | A name is collected exactly when it is a piece of the split field of some visited component. |
| DependencyModel.PathVulnerabilitiesMembers | dependency_file_manager.py:70-79 | A path's set holds exactly the pieces of the source's field and of the fields of the route's components. |
| DependencyModel.EmptyFieldGivesPlaceholder | dependency_file_manager.py:76 | A visited component with an empty field puts the placeholder `''` into the path's set. |
| DependencyModel.PathVulnerabilitiesPlaceholderOnly | dependency_file_manager.py:70-79 | A path's set is never empty, and it is `{''}` exactly when every visited field consists of commas only. |
| DependencyModel.CollectPathVulnerabilities | dependency_file_manager.py:70-79 | The nested loops for one path build exactly the union of its visited fields. |
| DependencyModel.AdjustAll | dependency_file_manager.py:81-83 | The loop over `vul_dict` fills `vul_adjusted` with every key's adjusted weight. |
| DependencyModel.PathPasses | dependency_file_manager.py:69-85 | The path loop appends one set per path, in path order. It leaves the adjusted weights of the last pass, identical on every pass, and none when there is no path. |
| DependencyModel.DeterminePathVulnerabilities | dependency_file_manager.py:58-87 | The result is an error exactly when there is no path (`vul_adjusted` unbound). Otherwise there is one set per path, in order, each the union of its visited fields, and the adjusted weights of all names. |
| SatSolver.ClauseIsOneLine | sat_solver_manager.py:36-55 | Every clause is written as a single line ending in the sentinel ` 0`. |
| SatSolver.SumAdjusted | sat_solver_manager.py:29 | Summing the adjusted weights in dictionary order gives the sum of the values, whatever the order. |
| SatSolver.CoverageClauses | sat_solver_manager.py:36-41 | One hard line per path, in path order. |
| SatSolver.ExclusionClauses | sat_solver_manager.py:45-50 | One hard line per prior cutset, in cutset order. |
| SatSolver.CoverageLine | sat_solver_manager.py:37-41 | The loop over a path's set lists each non-placeholder member once, in some order, and writes that path's hard line. |
| SatSolver.ExclusionLine | sat_solver_manager.py:46-50 | The loop over a prior cutset writes the hard weight and the negated number of each non-placeholder member, in order. |
| SatSolver.SoftLines | sat_solver_manager.py:53-55 | The loop over `vul_adjusted` visits each key once and writes its adjusted weight on its negated variable: one line per key. |
| SatSolver.CoverageLines | sat_solver_manager.py:36-41 | The path loop writes one hard line per path, in path order, each carrying the hard weight. |
| SatSolver.ExclusionLines | sat_solver_manager.py:45-50 | The cutset loop writes one hard line per prior cutset, in order. |
| SatSolver.AssembleSatInput | sat_solver_manager.py:21-57 | The instance written is the header, then the path lines, then the cutset lines, then the soft lines, for the orders in which sets and dictionaries were traversed. The header declares the number of distinct names, paths + names + cutsets clauses, and the sum of adjusted weights + 1. |
| SatSolver.CoverageClauseShape | sat_solver_manager.py:37-41 | Whatever order the set hands out its members in, a path's hard line has the hard weight and one literal per non-placeholder member, and its literals are exactly those members' positive variable numbers. |
| SatSolver.SoftClausesShape | sat_solver_manager.py:53-55 | Whatever order the dictionary hands out its keys in, there is one soft line per key, every key's unit line is among them, and there is no other. |
| SatSolver.CoverageClauseMeaning | sat_solver_manager.py:36-41 | A path's hard line is satisfied by a selection exactly when the selection contains a non-placeholder vulnerability of that path. |
| SatSolver.PlaceholderPathLine | sat_solver_manager.py:37-41 | A path whose set holds only `''` gets a literal-free hard line: the hard weight and `0`. |
| SatSolver.ExclusionClauseMeaning | sat_solver_manager.py:45-50 | A cutset's hard line is satisfied exactly when the selection leaves out one of the cutset's non-placeholder members. |
| SatSolver.ExclusionForbidsRepeat | sat_solver_manager.py:43-50 | Selecting a prior cutset again violates its exclusion line. |
| SatSolver.SoftClauseMeaning | sat_solver_manager.py:53-55 | A vulnerability's soft line is satisfied exactly when that vulnerability is not selected. |
| SatSolver.HeaderCountsClauses | sat_solver_manager.py:32-33 | When `vul_adjusted` has exactly the vulnerability names as keys, the header's clause count equals the number of lines written, and its variable count is the number of distinct names. |
| SatSolver.HardWeightDominates | sat_solver_manager.py:29-55 | Every path and cutset line carries the hard weight, the soft lines' weights add up to exactly the hard weight minus 1, and any set of violated soft lines weighs less than one hard line. |
| SatSolver.NumbersWithinVariableCount | sat_solver_manager.py:25-33 | With distinct names, every variable number is among "1".."n" for the declared count n. |
| SatSolver.LiteralsWithinDeclaredVariables | sat_solver_manager.py:32-55 | With distinct names, every literal written names a variable among those the header declares. |
| SatSolver.ClassifyExit | sat_solver_manager.py:60-75 | A normal exit and exit 10 hand back the output; exit 20 returns `"fail"`; any other code re-raises. |
| SatSolver.ScoreProductStep | sat_solver_manager.py:98 | Taking one more name multiplies the product by that name's `score/20`. |
| SatSolver.ScoreProductBounds | sat_solver_manager.py:90-98 | With scores in 1..20 the product of `score/20` lies in (0, 1]. |
| SatSolver.ReportedWeightBounds | sat_solver_manager.py:90-102 | The reported weight lies between 1e-5 and 1, and an empty selection reports 1. |
| SatSolver.DecodeEntry | sat_solver_manager.py:94-98 | One step of the decode loop: a positive literal with no vulnerability is the `ValueError`; otherwise the decoded prefix grows by one entry. |
| SatSolver.DecodeAssignment | sat_solver_manager.py:90-98 | The loop fails exactly when some positive literal is no variable number, and it fails at the first such literal: every literal before it decodes. Otherwise it returns, in assignment order, the names of the positive literals, with the product of their `score/20`. |
| SatSolver.ProcessOutput | sat_solver_manager.py:78-104 | `process_output`: output without an optimum line fails, as `rg[0]` does on an empty list. Given the assignment, it fails exactly when DecodeAssignment does, at the same first unmapped literal. Otherwise the cutset decodes the assignment and carries the reported weight. |
| SatSolver.DecodingIsUnique | sat_solver_manager.py:94-97 | An assignment decodes to only one list of names. |
| SatSolver.DecodedNamesAssigned | sat_solver_manager.py:94-97 | Every decoded name's variable is set true by the assignment. |
| SatSolver.DecodedCutsetIsExcluded | sat_solver_manager.py:45-50 | Once a decoded cutset is fed back as a prior cutset, its exclusion line rejects the assignment it came from. |
| FaultTreeGenerator.Lookup | FaultTreeGenerator.py:27-33 | The result is -1 exactly when no entry has the key; otherwise it is 1 + the index of the first entry with that key, in 1..len. |
| FaultTreeGenerator.GetWeight | FaultTreeGenerator.py:35-40 | The result is -1 when no entry has the key; otherwise it is the weight of the first entry with that key. |
| FaultTreeGenerator.WeighComponent | FaultTreeGenerator.py:81-88 | The nested loops sum the scores of all vulnerability records matching any piece of the component's field. |
| FaultTreeGenerator.ComponentWeightReference | FaultTreeGenerator.py:81-88 | With no piece repeated, a component's weight is the total score of the set of names in its field, between 0 and the sum of all scores. |
| FaultTreeGenerator.RepeatedPieceCountsTwice | FaultTreeGenerator.py:83-88 | A field naming `a` twice weighs twice `a`'s score, more than the sum of all scores. |
| FaultTreeGenerator.AddPathComponents | FaultTreeGenerator.py:80-91 | The component loop for one path appends each component on the path whose `[id, weight]` pair is new. |
| FaultTreeGenerator.BuildTables | FaultTreeGenerator.py:58-93 | `path_vulnerabilities` holds, per path in order, the route ids then the source id; the table is the one the loops build. |
| FaultTreeGenerator.AddComponentsMembers | FaultTreeGenerator.py:80-91 | After one path's loop, an entry is in the table exactly when it was there before or belongs to a component on that path. |
| FaultTreeGenerator.TableNoRepeat | FaultTreeGenerator.py:90-91 | The table never holds the same `[id, weight]` pair twice. |
| FaultTreeGenerator.TableMembers | FaultTreeGenerator.py:64-93 | An entry is in the table exactly when it belongs to a component lying on some path's route or source. |
| FaultTreeGenerator.PathIdsFound | FaultTreeGenerator.py:119-123 | An id on a path is found by `lookup` exactly when some parsed component has that id, and then the index points at its entry. |
| FaultTreeGenerator.WriteHardLine | FaultTreeGenerator.py:119-123 | A path's hard line is the hard weight followed by `str(lookup(...))` of each of its ids, in order. |
| FaultTreeGenerator.LegacyEncode | FaultTreeGenerator.py:104-129 | The instance written is the header, one hard line per path and one soft line per parsed component. |
| FaultTreeGenerator.LegacyHeaderCount | FaultTreeGenerator.py:104-129 | The lines written number paths + parsed components and the header declares one variable per table entry. The declared clause count is right exactly when the table has as many entries as there are parsed components. |
| FaultTreeGenerator.HeaderUndercountExample | FaultTreeGenerator.py:104-129 | With a component on no path, the header declares 2 clauses while 3 lines are written. |
| FaultTreeGenerator.UncoveredComponentLine | FaultTreeGenerator.py:127-129 | A component on no path gets weight hard + 1 on the literal `--1`. |
| FaultTreeGenerator.TableWeightsBounded | FaultTreeGenerator.py:80-91 | With no field repeating a name, every table weight lies between 0 and the sum of all scores. |
| FaultTreeGenerator.SoftWeightsPositive | FaultTreeGenerator.py:106-129 | With no field repeating a name, every soft line weighs between 1 and hard + 1. |
| FaultTreeGenerator.NegativeSoftWeightExample | FaultTreeGenerator.py:106-129 | A field naming the only vulnerability (score 10) twice gives that component's soft line the weight -9. |
| FaultTreeGenerator.LegacyDecode | FaultTreeGenerator.py:154-161 | The decode loop concatenates the ids of the selected entries and sums their weights, failing on an index past the table. |
| FaultTreeGenerator.DecodeFailsIff | FaultTreeGenerator.py:157-161 | Decoding fails exactly when some literal exceeds the table's length; zero and negative literals are skipped. |
| FaultTreeGenerator.DecodeInvertsLookup | FaultTreeGenerator.py:153-161 | Decoding the `lookup` indices of found ids gives their concatenation and the sum of their weights. |
| FaultTreeGenerator.LegacyProceeds | FaultTreeGenerator.py:145-151 | Here a normal exit and exit 10 go on to decoding, as in `run_satsolver`; exit 20 re-raises rather than giving `"fail"`. |
| FaultTreeGenerator.RunOnce | FaultTreeGenerator.py:145-165 | One repetition: the re-raise, the missing optimum, the decode error, or the `<cutset=... weight=.../>` line. |
| FaultTreeGenerator.RunRepetitions | FaultTreeGenerator.py:139-165 | Without an error, one line per repetition; an error stops the loop at the first failing run. Each line is that run's result on the same instance text, so a solver that depends only on the instance gives the same line every time. |

## Left out

- Reading the input file and extracting records with regular expressions are not modelled. Records arrive already parsed as datatypes, and scores are the digit strings that `\d+` captures.
- Writing the temporary file and running `maxino` through `check_output` are not modelled. The instance is a header plus clause records with a rendering to text. The solver is a function parameter that receives the run number and the instance text and returns an exit code and an optional assignment. The MaxSAT optimisation itself is not modelled.
- The solver's output text is not parsed. The `s OPTIMUM FOUND` / `v ...` line appears as an already-split list of integers, or as its absence (`None`).
- The argument parsing, `sanity_check`, the output file (its lines are returned instead) and the debug prints are not modelled.
- The driver that feeds found cutsets back into `assemble_SATinput` round after round is not part of this model. Prior cutsets are an input.
- DependencyModel.AdjustWeight: `math.log` is replaced by a table of the truncated values for scores 1..20. Score 0 (outside the logarithm's domain) and scores above 20 (negative weights) are excluded by the precondition.
- SatSolver.ReportedWeightBounds: the float product is modelled with exact reals, with no IEEE rounding. ScoreProductBounds and ReportedWeightBounds assume scores in 1..20.
- DependencyModel.PathVulnerabilitiesPlaceholderOnly: a component whose field is empty contributes the placeholder `''`, because that is what `"".split(',')` gives. The model keeps `''` in the set, as the code does, rather than treating the set as empty. The encoder skips it.
- SatSolver.NumbersWithinVariableCount: with repeated vulnerability names, a number can exceed the header's variable count. Only the distinct-names case is stated.
- SatSolver.AssembleSatInput: a name missing from the numbering (a `KeyError` in the source) is excluded by a precondition rather than modelled as an error.
- FaultTreeGenerator.RunRepetitions: lines written before an error are returned. The propagated exception itself is returned as a value.
