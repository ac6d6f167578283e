# STTF — a verified model of the SAT Transformation Trace Format core

STTF describes how a CNF formula **A** (`original.cnf`) was simplified into a
formula **B** (`simplified.cnf`). The description is a *transform log* of
numbered steps (`<step> <opcode> <args>`) and a *reconstruct map* of reverse
rules (`rev_map`, `rev_elim`, `rev_elim_expr`, `rev_clause_add`). A model of B
is lifted back to a model of A by applying the reverse rules in order; a
*replay engine* re-applies the log to A to rebuild B; a *generator* writes
both files from a sequence of calls.

This project models that core in Dafny and proves properties of it:

| file | models |
|---|---|
| `wrappers.dfy` | `Option`, `Result` and `Outcome` (pass or fail with an error) |
| `text.dfy` | the Python string operations the core relies on: `str.isspace`, `strip`, `split()` with and without `maxsplit`, `split(sep)`, `join`, `int()`, `str(int)` |
| `expr.dfy` | the expression evaluator `Expr._eval` and `Expr._split_args` |
| `bundle.dfy` | the bundle loader: the line parsers, the skip-blank-and-`#` reading loop, manifest validation, `lift_model` and `get_transform_summary`, with the `STTFBundle` class |
| `cnf.dfy` | `CNFFormula` as a class over a value-level `State`, with one specification function per operation and the invariant it keeps |
| `replay.dfy` | `STTFReplayEngine`: `load_original`, the seven step handlers, `_apply_transform_step` and `replay_transformation` |
| `generate.dfy` | `STTFBundleGenerator`: the `add_*` methods and `compute_simplified_cnf` |
| `validate.dfy` | the `normalize_cnf` comparison of the validator |

Clause ids can be reused. `load_original` passes explicit ids `1..n` to
`add_clause`. Those calls never advance `next_clause_id`, so the first
`clause_add` or `unit_derive` after loading reuses id 1. The first original clause then stays in `clauses` but
loses its id (`Replay.IdReuse`). The model reproduces this.

Errors are values. Where the source raises `ValueError`, the model returns
`Err(...)` or `Fail(...)` with the cause, plus the state the source would
have reached when it raised. Every load or replay step applied before the
failing line stays in effect.

## Model

| member | source | states |
|---|---|---|
| Text.IntToStringRoundTrip | src/sttf_core.py:39-40 | `int(str(i)) == i` for every integer, positive, zero and negative |
| Text.StripIdempotent | src/sttf_core.py:36 | stripping twice is stripping once, so an already stripped text passes through `_eval`'s strip unchanged |
| Text.WordsOfJoin | src/sttf_validate.py:144-145 | `split()` undoes `' '.join` of words that have no blanks |
| Text.SplitOnJoin | src/sttf_generate.py:111 | `split(sep)` undoes `sep.join` of parts that do not contain `sep` |
| Expr.TopCommaFrom | src/sttf_core.py:69-76 | the result is a comma at parenthesis depth 0, and no earlier position from the start point is one |
| Expr.TopLevelSplit | src/sttf_core.py:67-77 | the split fails exactly when no comma sits at depth 0; both parts are shorter than the argument text |
| Expr.SplitArgs | src/sttf_core.py:67-77 | the depth-counting loop returns exactly `TopLevelSplit` |
| Expr.SplitAtFirstTopComma | src/sttf_core.py:75-76 | the split is at the first depth-0 comma, with both sides stripped |
| Expr.NoTopCommaMalformed | src/sttf_core.py:77 | without a depth-0 comma the result is `MalformedArguments` carrying the argument text |
| Expr.SplitRendered | src/sttf_core.py:67-77 | commas inside nested calls are skipped: `r1, r2` splits into `r1` and `r2` whenever both are balanced and every comma in them is inside parentheses |
| Expr.EvalRender | src/sttf_core.py:35-65 | evaluating the text of any formula tree equals the tree's meaning (`Denote`): literals read the model and negate for a minus sign, NOT negates, AND and OR short-circuit, XOR evaluates both sides |
| Expr.EvalIgnoresPadding | src/sttf_core.py:36 | surrounding whitespace never changes the result |
| Expr.UndefinedMeansAbsent | src/sttf_core.py:41-43 | an `UndefinedVariable(v)` error implies `v` is missing from the model |
| Expr.EvalExtends | src/sttf_core.py:35-65 | adding variables to the model keeps every successful result |
| Expr.DefinedWhenCovered | src/sttf_core.py:41-43 | a formula whose variables are all in the model evaluates without error |
| Expr.LiteralTable | src/sttf_core.py:39-44 | a literal `n` gives `model[|n|]` for positive `n` and its negation otherwise, or `UndefinedVariable(|n|)` |
| Expr.ZeroLiteral | src/sttf_core.py:39-44 | the literal `0` reads variable 0 and negates it, since `0 > 0` is false |
| Expr.NotTable | tests/test_sttf.py:38-44 | `NOT(i)` is the negation of `i` |
| Expr.AndTable | tests/test_sttf.py:46-51 | `AND(i, j)` is the conjunction, for all four rows |
| Expr.OrTable | tests/test_sttf.py:53-58 | `OR(i, j)` is the disjunction, for all four rows |
| Expr.XorTable | tests/test_sttf.py:60-65 | `XOR(i, j)` is the exclusive or, for all four rows |
| Expr.NestedTable | tests/test_sttf.py:67-71 | `AND(OR(i, j), NOT(k))` is `(x or y) and not z` |
| Expr.TestTextsFlat | tests/test_sttf.py:22-65 | the expression texts of the unit tests are the rendered formula trees |
| Expr.TestTextNested | tests/test_sttf.py:67-68 | the nested expression text of the unit tests is the rendered tree |
| Expr.ShortCircuitAnd | src/sttf_core.py:53 | `AND` with a false left side is false even when the right variable is undefined |
| Expr.ShortCircuitOr | src/sttf_core.py:58 | `OR` with a true left side is true even when the right variable is undefined |
| Expr.XorNoShortCircuit | src/sttf_core.py:63 | `XOR` evaluates its right side too, so an undefined right variable is an error |
| Expr.InvalidText | src/sttf_core.py:65 | text that is neither a literal nor ends in `)` is `InvalidExpression` |
| Expr.MalformedText | src/sttf_core.py:50-77 | a binary operator whose arguments contain no comma is `MalformedArguments` |
| Bundle.MatchStep | src/sttf_core.py:180 | a match splits the line into digits, blanks, a word, blanks and the rest, and concatenating them gives back the line |
| Bundle.TransformLineRoundTrip | src/sttf_core.py:178-198 | a line `<step> <opcode> <args>` parses back to that step, opcode and argument text |
| Bundle.TransformLineSound | src/sttf_core.py:178-198 | a parsed line has the shape of the regular expression, with its step number, a known opcode and a one-line argument text |
| Bundle.UnknownOpcodeRejected | src/sttf_core.py:195-196 | a well-shaped line with an unknown word is rejected with that word |
| Bundle.MissingArgumentsRejected | src/sttf_core.py:180-182 | a line without the blank and arguments after the opcode does not match |
| Bundle.NoStepRejected | src/sttf_core.py:180-182 | a line that does not start with a digit does not match |
| Bundle.RevMapRoundTrip | src/sttf_core.py:203-207 | `rev_map b -> a` parses to `RevMap(b, a)` |
| Bundle.RevElimRoundTrip | src/sttf_core.py:210-214 | `rev_elim v = true/false` parses to `RevElim(v, value)` |
| Bundle.RevElimExprRoundTrip | src/sttf_core.py:217-221 | `rev_elim_expr v = e` parses to `RevElimExpr(v, e)`, with `e` stripped as `Expr` does |
| Bundle.RevClauseAddRoundTrip | src/sttf_core.py:224-229 | `rev_clause_add id [lits]` parses to `RevClauseAdd(id, lits)`, negative literals included |
| Bundle.FindIntsOfInts | src/sttf_core.py:228 | `findall(-?\d+)` over space-separated integers returns exactly those integers |
| Bundle.RevElimNeedsBlank | src/sttf_core.py:210 | `rev_elim` followed by anything but a blank or `_` is not a rule |
| Bundle.UnknownRuleRejected | src/sttf_core.py:231 | a line that does not start with `rev_` is rejected |
| Bundle.ParseLinesSucceedsIff | src/sttf_core.py:127-147 | reading a file succeeds exactly when every line that is not blank or `#` parses |
| Bundle.ParseLinesItems | src/sttf_core.py:127-147 | on success the items are the parses of the relevant lines, in order |
| Bundle.ParseLinesFailure | src/sttf_core.py:132-136 | on failure the reported line number is 1-based, names the first relevant line that does not parse, and carries its error |
| Bundle.LogFailureStops | src/sttf_core.py:132-136 | a failing line stops the reading; later lines are not looked at and the items read so far are kept |
| Bundle.ReadLines | src/sttf_core.py:127-147 | the reading loop computes `ParseLines` |
| Bundle.FirstMissing | src/sttf_core.py:157-160 | the reported key is the first required key that is absent; none is reported only when all are present |
| Bundle.ManifestValidIff | src/sttf_core.py:155-176 | validation passes exactly when all four keys are present, both metadata records are complete and all four counts are positive |
| Bundle.MissingKeyFirst | src/sttf_core.py:157-160 | a missing `version` is reported before any other problem |
| Bundle.LoadPassesIff | src/sttf_core.py:124-153 | loading passes exactly when the log parses, the map parses and the manifest is valid |
| Bundle.SttfBundle.Load | src/sttf_core.py:124-153 | the outcome is `LoadOutcome`; the steps read before a failure stay appended, and the map and manifest are loaded only when the earlier files succeed |
| Bundle.ApplyRuleFrame | src/sttf_core.py:249-270 | a rule keeps every key, adds at most the one variable it writes, and leaves every other value alone |
| Bundle.RevMapEffect | src/sttf_core.py:252-256 | `rev_map b -> a` copies `b`'s value to `a` when `b` is defined and is a no-op otherwise |
| Bundle.RevElimEffect | src/sttf_core.py:258-261 | `rev_elim` sets the variable to the constant |
| Bundle.RevElimExprEffect | src/sttf_core.py:263-266 | `rev_elim_expr` sets the variable to the expression's value over the current model, or fails with the expression's error |
| Bundle.RevClauseAddEffect | src/sttf_core.py:268-270 | `rev_clause_add` leaves the model unchanged |
| Bundle.LiftAppend | src/sttf_core.py:249 | rules apply in order: lifting through `r1 + r2` is lifting through `r1`, then `r2` |
| Bundle.LiftStops | src/sttf_core.py:266 | the first rule that fails ends the lift with its error |
| Bundle.LiftKeepsKeys | src/sttf_core.py:246-272 | every variable of model B is still defined in the lifted model |
| Bundle.LiftUntouched | src/sttf_core.py:246-272 | a variable no rule writes keeps its value from model B, and stays undefined if it was undefined |
| Bundle.ForwardReference | src/sttf_core.py:263-266 | an expression naming a variable not yet defined makes the lift fail with `UndefinedVariable` |
| Bundle.SubstitutionLifts | src/sttf_core.py:263-266 | a `rev_elim_expr` rule whose text renders a formula assigns the formula's meaning |
| Bundle.SttfBundle.LiftModel | src/sttf_core.py:233-272 | the loop over the rules computes `Lift`, on a copy of the model |
| Bundle.CountsAreOccurrences | src/sttf_core.py:276-278 | each opcode's count is its number of occurrences; opcodes that never occur have no entry |
| Bundle.CountsSum | src/sttf_core.py:276-281 | the counts add up to `total_steps` |
| Bundle.SttfBundle.TransformSummary | src/sttf_core.py:274-288 | the summary holds the step and rule counts, the opcode counts and the four manifest numbers |
| Cnf.WithClauseFresh | src/sttf_replay.py:23-31 | without an id, the clause gets `next_clause_id`, which then grows by 1; the clause is appended and mapped, and the id is new when all ids are below the counter |
| Cnf.WithClauseExplicit | src/sttf_replay.py:23-31 | with an explicit id, the counter is untouched, and the id is (re)bound to the clause, which is appended |
| Cnf.WithoutClauseEffect | src/sttf_replay.py:33-39 | removing a known id drops its mapping and one copy of its clause; an unknown id changes nothing |
| Cnf.RenamedClearsOld | src/sttf_replay.py:41-57 | after a rename to a different variable, no clause in the list or the id map mentions the old variable; counts and ids stay |
| Cnf.RenamedVars | src/sttf_replay.py:46-50 | renaming replaces the old variable by the new one in the set of variables |
| Cnf.StrengthenedEffect | src/sttf_replay.py:68-75 | a known id is rebound, and the first equal clause in the list is replaced; an unknown id changes nothing |
| Cnf.MentioningFacts | src/sttf_replay.py:198-201 | the ids collected for removal are exactly the known ids whose clause mentions the variable, each once |
| Cnf.PurgeEffect | src/sttf_replay.py:197-204 | after the removal loop, the surviving ids are exactly those whose clause does not mention the variable, with their clauses unchanged |
| Cnf.RemoveAllEffect | src/sttf_replay.py:203-204 | removing distinct known ids one by one drops exactly those ids and as many clauses |
| Cnf.EmptyValid | src/sttf_replay.py:14-21 | a new formula satisfies the invariant: each mapped clause is still in the list |
| Cnf.WithClauseValid | src/sttf_replay.py:23-31 | `add_clause` keeps the invariant |
| Cnf.WithoutClauseValid | src/sttf_replay.py:33-39 | `remove_clause` keeps the invariant |
| Cnf.RenamedValid | src/sttf_replay.py:41-57 | `rename_var` keeps the invariant |
| Cnf.StrengthenedValid | src/sttf_replay.py:68-75 | `strengthen_clause` keeps the invariant |
| Cnf.EliminatedValid | src/sttf_replay.py:59-61 | `eliminate_var` keeps the invariant |
| Cnf.SubstitutedValid | src/sttf_replay.py:63-66 | `substitute_var` keeps the invariant |
| Cnf.MaxVarBounds | src/sttf_replay.py:91-92 | the header's variable count is the largest active variable, or 0 when there is none |
| Cnf.DimacsShape | src/sttf_replay.py:95-97 | DIMACS output is the header line followed by one `lits 0` line per clause, in order |
| Cnf.VarsIn | src/sttf_replay.py:81-87 | the loop collects exactly the variables of the clauses |
| Cnf.CNFFormula.constructor | src/sttf_replay.py:14-21 | a new formula is empty, with the counter at 1 |
| Cnf.CNFFormula.AddClause | src/sttf_replay.py:23-31 | the new state and the returned id are `WithClause`; the invariant holds |
| Cnf.CNFFormula.RemoveClause | src/sttf_replay.py:33-39 | the new state is `WithoutClause`; the invariant holds |
| Cnf.CNFFormula.RenameVar | src/sttf_replay.py:41-57 | the two loops produce `Renamed`; the invariant holds |
| Cnf.CNFFormula.EliminateVar | src/sttf_replay.py:59-61 | the new state is `Eliminated` |
| Cnf.CNFFormula.SubstituteVar | src/sttf_replay.py:63-66 | the new state is `Substituted` |
| Cnf.CNFFormula.StrengthenClause | src/sttf_replay.py:68-75 | the new state is `Strengthened` |
| Cnf.CNFFormula.AddUnit | src/sttf_replay.py:77-79 | the new state is a fresh-id `add_clause` of the one literal |
| Cnf.CNFFormula.ActiveVars | src/sttf_replay.py:81-87 | the result is the set of variables of the clauses |
| Cnf.CNFFormula.ToDimacs | src/sttf_replay.py:89-99 | the result is `DimacsText` of the clauses |
| Replay.StepsFailure | src/sttf_replay.py:142-151 | a failing pass stops at the first failing line and keeps the state reached before it |
| Replay.LoadNumbered | src/sttf_replay.py:112-131 | after loading, the clauses are numbered `1..n` in file order |
| Replay.LoadValid | src/sttf_replay.py:112-131 | loading keeps the formula invariant |
| Replay.LoadDimacs | src/sttf_replay.py:112-131 | loading the output of `to_dimacs` gives back the clauses, numbered `1..n`, and the header's variable count |
| Replay.IdReuse | src/sttf_replay.py:25-27 | after loading at least one clause, the next fresh id is 1, which overwrites the mapping of the first original clause |
| Replay.VarRenameValid | src/sttf_replay.py:184-188 | `var_rename` keeps the invariant and leaves the counter alone |
| Replay.VarElimValid | src/sttf_replay.py:190-204 | `var_elim` keeps the invariant and leaves the counter alone |
| Replay.VarSubstValid | src/sttf_replay.py:206-223 | `var_subst` keeps the invariant and leaves the counter alone |
| Replay.ClauseRemoveValid | src/sttf_replay.py:225-230 | `clause_remove` keeps the invariant and leaves the counter alone |
| Replay.ClauseAddValid | src/sttf_replay.py:232-240 | `clause_add` keeps the invariant and bumps the counter by 1 |
| Replay.ClauseStrengthenValid | src/sttf_replay.py:242-253 | `clause_strengthen` keeps the invariant and leaves the counter alone |
| Replay.UnitDeriveValid | src/sttf_replay.py:255-260 | `unit_derive` keeps the invariant and bumps the counter by 1 |
| Replay.DispatchValid | src/sttf_replay.py:166-182 | only `clause_add` and `unit_derive` move the clause counter, by 1 each |
| Replay.ApplyStepValid | src/sttf_replay.py:155-182 | a successful step keeps the invariant and never lowers the counter |
| Replay.ReplayValid | src/sttf_replay.py:142-151 | replaying any log keeps the invariant and never lowers the counter |
| Replay.ReplayFailure | src/sttf_replay.py:142-151 | a failed replay names the first relevant line whose step fails, with its error, and keeps the state reached before it |
| Replay.ReplayEngine.LoadOriginalLine | src/sttf_replay.py:116-131 | one line is skipped, read as the header, or added as a clause under the running id, as `LoadLine` says |
| Replay.ReplayEngine.LoadOriginal | src/sttf_replay.py:112-131 | the loop computes `LoadLines`; a line that fails leaves the clauses loaded so far |
| Replay.ReplayEngine.RemoveMentioning | src/sttf_replay.py:197-204 | collecting the ids and then removing them gives `Purge` |
| Replay.ReplayEngine.CollectMentioning | src/sttf_replay.py:198-201 | the collected ids are exactly those, in dictionary order, whose clause has a literal on the variable (`Mentioning`), and nothing changes |
| Replay.ReplayEngine.RemoveEach | src/sttf_replay.py:203-204 | removing the ids one by one gives `RemoveAll` of the old formula and keeps the formula's invariant |
| Replay.ReplayEngine.HandleVarRename | src/sttf_replay.py:184-188 | the new state and the outcome are `VarRenameStep`'s |
| Replay.ReplayEngine.HandleVarElim | src/sttf_replay.py:190-204 | the new state and the outcome are `VarElimStep`'s |
| Replay.ReplayEngine.HandleVarSubst | src/sttf_replay.py:206-223 | the new state and the outcome are `VarSubstStep`'s |
| Replay.ReplayEngine.HandleClauseRemove | src/sttf_replay.py:225-230 | the new state and the outcome are `ClauseRemoveStep`'s |
| Replay.ReplayEngine.HandleClauseAdd | src/sttf_replay.py:232-240 | the new state and the outcome are `ClauseAddStep`'s |
| Replay.ReplayEngine.HandleClauseStrengthen | src/sttf_replay.py:242-253 | the new state and the outcome are `ClauseStrengthenStep`'s |
| Replay.ReplayEngine.HandleUnitDerive | src/sttf_replay.py:255-260 | the new state and the outcome are `UnitDeriveStep`'s |
| Replay.ReplayEngine.ApplyTransformStep | src/sttf_replay.py:155-182 | the new state and the outcome are `ApplyStep`'s |
| Replay.ReplayEngine.ReplayTransformation | src/sttf_replay.py:133-153 | load, then replay of the relevant log lines, computes `ReplayAll`; the invariant holds at the end |
| Replay.ReplayEngine.Simplified | src/sttf_replay.py:262-266 | the text written is `to_dimacs` of the replayed clauses |
| Generate.BundleGenerator.constructor | src/sttf_generate.py:15-23 | a new generator has no steps and no rules, and the counter is at 1 |
| Generate.BundleGenerator.SetOriginalCnf | src/sttf_generate.py:25-28 | only the original formula changes |
| Generate.BundleGenerator.Append | src/sttf_generate.py:30-84 | one step line numbered by the counter is appended, its reverse rules follow, and the counter grows by 1 |
| Generate.BundleGenerator.AddVarRename | src/sttf_generate.py:30-36 | appends `n var_rename old new` and `rev_map new -> old` |
| Generate.BundleGenerator.AddVarElim | src/sttf_generate.py:38-46 | appends `n var_elim v reason` and `rev_elim v = false` |
| Generate.BundleGenerator.AddVarSubst | src/sttf_generate.py:48-54 | appends `n var_subst v = e` and `rev_elim_expr v = e` |
| Generate.BundleGenerator.AddClauseRemove | src/sttf_generate.py:56-61 | appends `n clause_remove id reason` and no rule |
| Generate.BundleGenerator.AddClauseAdd | src/sttf_generate.py:63-69 | appends `n clause_add [lits] source` and no rule |
| Generate.BundleGenerator.AddClauseStrengthen | src/sttf_generate.py:71-77 | appends `n clause_strengthen id [lits]` and no rule |
| Generate.BundleGenerator.AddUnitDerive | src/sttf_generate.py:79-84 | appends `n unit_derive lit source` and no rule |
| Generate.LinesNumbered | src/sttf_generate.py:30-84 | the i-th generated line holds neither a line feed nor a carriage return, so it is read back as one line; it is never skipped as blank or comment, and, stripped as the loader reads it, parses back as step `i + 1` with the call's opcode and its arguments without their trailing whitespace |
| Generate.RevRulesParse | src/sttf_generate.py:30-54 | every reverse rule the generator writes parses back to the intended rule |
| Generate.CallLineReplays | src/sttf_generate.py:30-84 | the replay engine, which strips each line, applies each generated line as the call that wrote it; only a substituted expression loses its trailing whitespace |
| Generate.LoopEnds | src/sttf_generate.py:130-131 | `Settles(m, v)` holds exactly when the `while var in renamed` loop from `v` stops after some number of steps |
| Generate.CycleNeverSettles | src/sttf_generate.py:130-131 | the loop from a variable on a two-variable rename cycle never stops |
| Generate.ResolveFacts | src/sttf_generate.py:130-131 | where the loop stops, it stops at a variable that is not renamed; it is the identity off the map, and from a renamed variable it also stops from the new name, at the same variable |
| Generate.FollowRenames | src/sttf_generate.py:130-131 | the `while var in renamed` loop, started where it stops, computes `Resolve` |
| Generate.RewriteClause | src/sttf_generate.py:122-133 | the inner loop, where the rename loop stops for each literal it reaches, computes `Rewritten` |
| Generate.TrackSteps | src/sttf_generate.py:97-117 | the step loop computes `TrackAll` |
| Generate.CollectClauses | src/sttf_generate.py:120-135 | the clause loop, where the rename loop stops for every literal it reaches, computes `Collect` |
| Generate.ComputeSimplifiedCnf | src/sttf_generate.py:86-145 | on every run that ends, the result is `SimplifiedCnf` of the original clauses and the steps |
| Generate.UnreachedCycleAllowed | src/sttf_generate.py:119-131 | `RenamesSettle` holds after a two-variable rename cycle on a clause that mentions neither variable: a cycle the clause loop never reaches does not stop the computation |
| Generate.TrackClauses | src/sttf_generate.py:92-117 | the surviving ids are those in `1..n` that no step removes, with their original clauses |
| Generate.TrackEliminated | src/sttf_generate.py:106-112 | the eliminated set is the variables of the `var_elim` and `var_subst` steps |
| Generate.TrackRenamed | src/sttf_generate.py:102-104 | each renamed variable maps to the target of its last rename |
| Generate.RewrittenFacts | src/sttf_generate.py:121-133 | where the rename loop stops, a clause is dropped exactly when it mentions an eliminated variable; otherwise each literal becomes its variable's final name, positive for a positive literal and negated otherwise |
| Generate.CollectMembers | src/sttf_generate.py:120-135 | the output holds exactly the non-empty rewrites of the surviving clauses; it has one entry per surviving id with a non-empty rewrite, in increasing id order, so equal rewrites of different ids are all kept |
| Generate.CollectOriginal | src/sttf_generate.py:86-135 | after the effects of the steps, the output holds exactly the non-empty rewrites of the original clauses that no step deletes, one entry per such id, in increasing id order, and each entry is the rewrite of that id's original clause (`SimplifiedOutput`) |
| Generate.SimplifiedFacts | src/sttf_generate.py:86-145 | the computation fails only on unreadable steps; otherwise its clauses are `SimplifiedOutput` for the effects of the steps (the non-empty rewrites of the surviving original clauses, one per surviving id in id order, duplicates kept), and its variable count is the largest variable in them, or 0 |
| Generate.SimplifiedNonEmpty | src/sttf_generate.py:134 | no empty clause is output |
| Generate.GeneratedSimplified | src/sttf_generate.py:86-117 | the steps the generator writes are always readable, so the computation succeeds |
| Generate.IgnoredCall | src/sttf_generate.py:102-117 | `clause_add`, `clause_strengthen` and `unit_derive` steps do not change the computed formula |
| Validate.BelowTotal | src/sttf_validate.py:146 | Python's string order is total |
| Validate.BelowAntisymmetric | src/sttf_validate.py:146 | Python's string order is antisymmetric |
| Validate.BelowTransitive | src/sttf_validate.py:146 | Python's string order is transitive |
| Validate.SortSorted | src/sttf_validate.py:146 | `sorted` returns an ordered permutation of its input |
| Validate.SortedUnique | src/sttf_validate.py:146 | two ordered permutations of the same lines are equal |
| Validate.KeepFacts | src/sttf_validate.py:141-145 | a line is dropped exactly when it is blank or a comment; a kept line is its words joined by single blanks |
| Validate.NormalizeFacts | src/sttf_validate.py:138-146 | the result is sorted, a permutation of the kept lines, no longer than the input, and holds exactly the kept lines |
| Validate.NormalizeCnf | src/sttf_validate.py:138-146 | the loop and sort compute `Normalized` |
| Validate.NormalizePermutation | src/sttf_validate.py:138-146 | reordering the input lines does not change the result |
| Validate.DimacsNormalized | src/sttf_validate.py:140 | normalizing `to_dimacs` output is normalizing its lines |
| Validate.ClauseOrderIgnored | src/sttf_validate.py:151 | two formulas with the same clauses in a different order compare equal |
| Validate.HeaderCompared | src/sttf_validate.py:151 | two `to_dimacs` outputs that compare equal agree on variable count and clause count |

## Left out

- File access is replaced by sequences of lines. `open`, `Path`, `_validate_structure` and directory creation are left out: the loaders take the lines of each file as parameters.
- `json.load` is replaced by the `Manifest` record: the set of top-level keys present, plus the `original` and `simplified` metadata, each as a set of keys present and two integer counts. Non-integer JSON values, and comparing them with `0`, are not modelled.
- `Text.IsDigit`: `\d` and `\w` are restricted to ASCII. Python also accepts other Unicode digits and letters.
- `Text.ParseInt`: `int()` is restricted to an optional sign and ASCII digits after stripping. Underscores between digits and non-ASCII digits are not accepted.
- `re.match`'s backtracking is modelled by greedy spans. In each pattern a repeated class is followed either by a class or literal disjoint from it (`\d+` then `\s`, `\s*` then `=`) or by a trailing `.*`, which accepts whatever follows up to the first line feed; so the greedy spans are the match, and `\s+(.*)` and `\s*(.*)` leave a captured text that does not start with whitespace. In `(\[.*\])` the `.*` backs off to the last `]` of the line, which `Bundle.LastIndexOf` finds.
- Exceptions other than the `ValueError`s the core raises are folded into them. An `IndexError` from a missing argument (`parts[1]`) or a failed `int()` becomes `BadArguments`, and the engine reports it on the failing line as the source does.
- `write_bundle`, `replay_bundle`, `write_simplified`'s file write, the command-line tools, printing and timestamps are left out. `Simplified` returns the text that would be written.
- Python's `sorted` is modelled by an insertion sort. The proof that sorted permutations are unique makes the result independent of the algorithm.
- Generate.ComputeSimplifiedCnf: requires `RenamesSettle`, which holds exactly for the runs that end. The only runs it excludes are those where the clause loop reaches a literal whose variable leads into a rename cycle, such as variable 1 after `add_var_rename(1, 2)` and `add_var_rename(2, 1)`. There the source's `while var in renamed` loop never ends (`CycleNeverSettles`), and the model does not describe a run that never ends. A cycle the loop does not reach is allowed (`UnreachedCycleAllowed`).
- Generate.LinesNumbered: requires `Plain` calls, whose free texts (a reason, a source or an expression) hold neither a line feed nor a carriage return. A text that holds either makes the generator write a call that Python's text-mode reading splits into more than one line, and the model does not say how those lines are read.
- Generate.CallLineReplays: requires `Plain` calls, as `LinesNumbered` does, and a substituted expression that does not start with whitespace and a variable that is not negative. The replay's `\s*` after `=` drops an expression's leading whitespace, and its `\d+` cannot read a negative variable; the model does not state those two replays.
- The `num_vars` field that `load_original` reads from the header is only stored. `to_dimacs` recomputes the count from the clauses, as the source does.
- The generator's agreement with the replay engine is stated per line (`CallLineReplays`). The two are not equivalent as whole programs, so the model does not claim that replaying a generated bundle gives `compute_simplified_cnf`'s formula. Among the differences:
  - `var_elim` in the replay removes the clauses that mention the variable after earlier renames.
  - `clause_add` clauses are kept by the replay but ignored by `compute_simplified_cnf`.
  - `unit_derive` and `clause_strengthen` change the replayed formula but are ignored by `compute_simplified_cnf`.
  - The replay applies renames in step order; `compute_simplified_cnf` follows them transitively at the end. On the original `[[1]]`, `var_rename 2 3` then `var_rename 1 2` replays to `[[2]]` but computes `[[3]]`.
  - `load_original` gives no id to an empty original clause, while `compute_simplified_cnf` numbers every original clause, so a later `clause_remove` id can name different clauses in the two.
