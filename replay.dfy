/** `STTFReplayEngine`: reads the original DIMACS formula into a
    `CNFFormula`, then applies the transform log to it line by line.  Each
    step is first described by a function on `Cnf.State`; the class
    `ReplayEngine` at the end performs those functions on its formula. */
module Replay {
  import opened Wrappers
  import opened Text
  import opened Bundle
  import opened Cnf

  // ---------------------------------------------------------------------
  // Reading a file line by line

  /** A pass over the lines of a file: the state after the lines read, and
      the first failure with its 1-based line number. */
  datatype Run<S, E> = Run(state: S, failure: Option<(nat, E)>)

  /** `step` applied to each line in turn, stopping at the first line it
      rejects with the state from before that line. */
  function Steps<S, E>(s: S, lines: seq<string>, step: (S, string) -> Result<S, E>): (r: Run<S, E>)
    ensures r.failure.Some? ==> 1 <= r.failure.value.0 <= |lines|
    decreases |lines|
  {
    if lines == [] then Run(s, None)
    else
      var n := |lines|;
      var prev := Steps(s, lines[..n - 1], step);
      if prev.failure.Some? then prev
      else
        match step(prev.state, lines[n - 1])
        case Err(e) => Run(prev.state, Some((n, e)))
        case Ok(next) => Run(next, None)
  }

  /** A property every successful step keeps holds after the whole pass. */
  lemma {:induction false} StepsKeep<S, E>(s: S, lines: seq<string>, step: (S, string) -> Result<S, E>, inv: S -> bool)
    requires inv(s)
    requires forall t, l :: inv(t) && step(t, l).Ok? ==> inv(step(t, l).value)
    ensures inv(Steps(s, lines, step).state)
    decreases |lines|
  {
    if lines != [] {
      var n := |lines|;
      StepsKeep(s, lines[..n - 1], step, inv);
      var prev := Steps(s, lines[..n - 1], step);
      if prev.failure.None? && step(prev.state, lines[n - 1]).Ok? {
        StepKeeps(prev.state, lines[n - 1], step, inv);
      }
    }
  }

  /** One more line that the step accepts. */
  lemma StepsSnoc<S, E>(s: S, lines: seq<string>, step: (S, string) -> Result<S, E>, next: S)
    requires lines != []
    requires Steps(s, lines[..|lines| - 1], step).failure.None?
    requires step(Steps(s, lines[..|lines| - 1], step).state, lines[|lines| - 1]) == Ok(next)
    ensures Steps(s, lines, step) == Run(next, None)
  {
  }

  /** The pass over one more line, in terms of the pass over the lines
      before it. */
  lemma StepsPrefix<S, E>(s: S, lines: seq<string>, step: (S, string) -> Result<S, E>, i: nat)
    requires i < |lines|
    ensures Steps(s, lines[..i + 1], step) ==
      var prev := Steps(s, lines[..i], step);
      if prev.failure.Some? then prev
      else
        match step(prev.state, lines[i])
        case Err(e) => Run(prev.state, Some((i + 1, e)))
        case Ok(next) => Run(next, None)
  {
    assert lines[..i + 1][..i] == lines[..i];
  }

  /** Once a pass has failed, the lines after the failure change nothing. */
  lemma {:induction false} StepsStop<S, E>(s: S, lines: seq<string>, step: (S, string) -> Result<S, E>, i: nat)
    requires i <= |lines| && Steps(s, lines[..i], step).failure.Some?
    ensures Steps(s, lines, step) == Steps(s, lines[..i], step)
    decreases |lines| - i
  {
    if i < |lines| {
      StepsPrefix(s, lines, step, i);
      StepsStop(s, lines, step, i + 1);
    } else {
      assert lines[..i] == lines;
    }
  }

  lemma StepKeeps<S, E>(t: S, l: string, step: (S, string) -> Result<S, E>, inv: S -> bool)
    requires forall t, l :: inv(t) && step(t, l).Ok? ==> inv(step(t, l).value)
    requires inv(t) && step(t, l).Ok?
    ensures inv(step(t, l).value)
  {
  }

  /** The failure names the first line `step` rejects: the lines before it
      all passed, and the state is the one they produced. */
  lemma {:induction false} StepsFailure<S, E>(s: S, lines: seq<string>, step: (S, string) -> Result<S, E>)
    requires Steps(s, lines, step).failure.Some?
    ensures var (n, e) := Steps(s, lines, step).failure.value;
      var before := Steps(s, lines[..n - 1], step);
      && before.failure.None?
      && step(before.state, lines[n - 1]) == Err(e)
      && Steps(s, lines, step).state == before.state
    decreases |lines|
  {
    var n := |lines|;
    var prev := Steps(s, lines[..n - 1], step);
    if prev.failure.Some? {
      StepsFailure(s, lines[..n - 1], step);
      var k := prev.failure.value.0;
      assert lines[..n - 1][..k - 1] == lines[..k - 1];
    }
  }

  // ---------------------------------------------------------------------
  // Reading the original formula

  datatype CnfProblem =
    | BadHeader(line: string)
    | BadLiteral(line: string)

  /** The tokens of a clause line except the literal text `"0"`. */
  function NonZero(tokens: seq<string>): (r: seq<string>)
    ensures |r| <= |tokens|
    decreases |tokens|
  {
    if tokens == [] then []
    else
      var prev := NonZero(tokens[..|tokens| - 1]);
      var t := tokens[|tokens| - 1];
      if t == "0" then prev else prev + [t]
  }

  /** `[int(x) for x in tokens]`, which raises when a token is not an
      integer. */
  function ParseAll(tokens: seq<string>): (r: Option<seq<int>>)
    ensures r.Some? ==> |r.value| == |tokens|
  {
    if forall i :: 0 <= i < |tokens| ==> ParseInt(tokens[i]).Some? then
      Some(seq(|tokens|, i requires 0 <= i < |tokens| => ParseInt(tokens[i]).value))
    else None
  }

  /** One line of `load_original`, with `nextId` the local id counter:
      blank lines and lines starting with `c` are skipped, a line starting
      with `p` sets the variable count from its third field, and any other
      line is a clause whose literals (without the `0` tokens) are stored
      under the next id unless there are none. */
  function LoadLine(p: (State, int), line: string): Result<(State, int), CnfProblem> {
    var s, nextId := p.0, p.1;
    var t := Strip(line);
    if t == [] || t[0] == 'c' then Ok((s, nextId))
    else if t[0] == 'p' then
      var parts := Words(t);
      if |parts| < 3 then Err(BadHeader(t))
      else
        match ParseInt(parts[2])
        case None => Err(BadHeader(t))
        case Some(n) => Ok((s.(numVars := n), nextId))
    else
      match ParseAll(NonZero(Words(t)))
      case None => Err(BadLiteral(t))
      case Some(lits) =>
        if lits == [] then Ok((s, nextId)) else Ok((WithClause(s, lits, Some(nextId)).0, nextId + 1))
  }

  /** `load_original` on the lines of the file, starting from `s` with the
      local counter at 1: the formula and the counter after the lines read,
      and the error that stopped it, if any. */
  function LoadLines(s: State, lines: seq<string>): Run<(State, int), CnfProblem> {
    Steps((s, 1), lines, LoadLine)
  }

  // ---------------------------------------------------------------------
  // One transform step

  datatype StepError =
    | InvalidTransformLine(line: string)
    | UnknownOpcode(name: string)
    | BadArguments(opcode: Opcode, args: string)

  /** `re.search(r"\[([^\]]*)\]", s)`: the text between the first `[` and
      the first `]` after it. */
  function BracketGroup(s: string): (r: Option<string>)
    ensures r.Some? ==> ']' !in r.value
  {
    var p := Span(s, NotChar('['));
    if p == |s| then None
    else
      var after := s[p + 1..];
      var q := Span(after, NotChar(']'));
      if q == |after| then None
      else
        assert forall i :: 0 <= i < q ==> after[..q][i] != ']';
        Some(after[..q])
  }

  /** `_handle_var_rename`: two integer fields. */
  function VarRenameStep(s: State, args: string): Result<State, StepError> {
    var e := BadArguments(VarRename, args);
    var parts := Words(args);
    if |parts| < 2 then Err(e)
    else
      var a :- Expect(ParseInt(parts[0]), e);
      var b :- Expect(ParseInt(parts[1]), e);
      Ok(Renamed(s, a, b))
  }

  /** `_handle_var_elim`: an integer, then an optional reason. */
  function VarElimStep(s: State, args: string): Result<State, StepError> {
    var e := BadArguments(VarElim, args);
    var parts := Split(args, 1);
    if parts == [] then Err(e)
    else
      var v :- Expect(ParseInt(parts[0]), e);
      Ok(Purge(Eliminated(s, v), v))
  }

  /** `_handle_var_subst`: `re.match(r"(\d+)\s*=\s*(.*)", args)`. */
  function VarSubstStep(s: State, args: string): Result<State, StepError> {
    var e := BadArguments(VarSubst, args);
    var lead :- Expect(Number(args), e);
    var rest :- Expect(EqualsSign(lead.1), e);
    Ok(Purge(Substituted(s, lead.0, RestOfLine(rest)), lead.0))
  }

  /** `_handle_clause_remove`: an integer, then an optional reason. */
  function ClauseRemoveStep(s: State, args: string): Result<State, StepError> {
    var e := BadArguments(ClauseRemove, args);
    var parts := Split(args, 1);
    if parts == [] then Err(e)
    else
      var id :- Expect(ParseInt(parts[0]), e);
      Ok(WithoutClause(s, id))
  }

  /** The literals written between brackets somewhere in `text`. */
  function BracketLiterals(text: string): Option<seq<int>> {
    var inner :- BracketGroup(text);
    ParseAll(Words(inner))
  }

  /** `_handle_clause_add`: a bracketed clause, added under a counter id. */
  function ClauseAddStep(s: State, args: string): Result<State, StepError> {
    var lits :- Expect(BracketLiterals(args), BadArguments(ClauseAdd, args));
    Ok(WithClause(s, lits, None).0)
  }

  /** `_handle_clause_strengthen`: an integer id, then a bracketed clause in
      the rest. */
  function ClauseStrengthenStep(s: State, args: string): Result<State, StepError> {
    var e := BadArguments(ClauseStrengthen, args);
    var parts := Split(args, 1);
    if parts == [] then Err(e)
    else
      var id :- Expect(ParseInt(parts[0]), e);
      if |parts| < 2 then Err(e)
      else
        var lits :- Expect(BracketLiterals(parts[1]), e);
        Ok(Strengthened(s, id, lits))
  }

  /** `_handle_unit_derive`: a literal, then an optional integer source. */
  function UnitDeriveStep(s: State, args: string): Result<State, StepError> {
    var e := BadArguments(UnitDerive, args);
    var parts := Words(args);
    if parts == [] then Err(e)
    else
      var lit :- Expect(ParseInt(parts[0]), e);
      if |parts| > 1 && ParseInt(parts[1]).None? then Err(e)
      else Ok(WithUnit(s, lit))
  }

  function Dispatch(s: State, op: Opcode, args: string): Result<State, StepError> {
    match op
    case VarRename => VarRenameStep(s, args)
    case VarElim => VarElimStep(s, args)
    case VarSubst => VarSubstStep(s, args)
    case ClauseRemove => ClauseRemoveStep(s, args)
    case ClauseAdd => ClauseAddStep(s, args)
    case ClauseStrengthen => ClauseStrengthenStep(s, args)
    case UnitDerive => UnitDeriveStep(s, args)
  }

  /** `_apply_transform_step`: the line grammar is the one of the bundle's
      transform log, and the opcode selects the handler. */
  function ApplyStep(s: State, line: string): Result<State, StepError> {
    match ParseTransformLine(line)
    case Err(BadOpcode(name)) => Err(UnknownOpcode(name))
    case Err(_) => Err(InvalidTransformLine(line))
    case Ok(step) => Dispatch(s, step.opcode, step.args)
  }

  // ---------------------------------------------------------------------
  // The whole replay

  /** One line of `replay_transformation`: blank lines and comments are
      skipped, any other line is stripped and applied. */
  function ReplayStep(s: State, line: string): Result<State, StepError> {
    if Skipped(line) then Ok(s) else ApplyStep(s, Strip(line))
  }

  /** `replay_transformation` on the lines of the log: the formula after the
      lines applied, and the first failure with its line number. */
  function ReplayLines(s: State, lines: seq<string>): Run<State, StepError> {
    Steps(s, lines, ReplayStep)
  }

  datatype ReplayError =
    | OriginalCnfError(problem: CnfProblem)
    | TransformLineError(line: nat, cause: StepError)

  /** `replay_transformation`: the original formula is loaded into the
      current one, then the log is replayed; the formula keeps whatever was
      done before an error. */
  function ReplayAll(s: State, original: seq<string>, log: seq<string>): (State, Outcome<ReplayError>) {
    var loaded := LoadLines(s, original);
    if loaded.failure.Some? then (loaded.state.0, Fail(OriginalCnfError(loaded.failure.value.1)))
    else
      var run := ReplayLines(loaded.state.0, log);
      if run.failure.Some? then
        (run.state, Fail(TransformLineError(run.failure.value.0, run.failure.value.1)))
      else (run.state, Pass)
  }
  // ---------------------------------------------------------------------
  // What a step does to the invariant and to the counter

  /** The facts every handler is proved to keep: `Valid`, and the id counter
      moved by `bump`. */
  predicate Keeps(s: State, r: Result<State, StepError>, bump: int) {
    r.Ok? ==> Valid(r.value) && r.value.nextClauseId == s.nextClauseId + bump
  }

  lemma VarRenameValid(s: State, args: string)
    requires Valid(s)
    ensures Keeps(s, VarRenameStep(s, args), 0)
  {
    var parts := Words(args);
    if |parts| >= 2 && ParseInt(parts[0]).Some? && ParseInt(parts[1]).Some? {
      RenamedValid(s, ParseInt(parts[0]).value, ParseInt(parts[1]).value);
    }
  }

  lemma VarElimValid(s: State, args: string)
    requires Valid(s)
    ensures Keeps(s, VarElimStep(s, args), 0)
  {
    var parts := Split(args, 1);
    if parts != [] && ParseInt(parts[0]).Some? {
      var v := ParseInt(parts[0]).value;
      EliminatedValid(s, v);
      PurgeEffect(Eliminated(s, v), v);
    }
  }

  lemma VarSubstValid(s: State, args: string)
    requires Valid(s)
    ensures Keeps(s, VarSubstStep(s, args), 0)
  {
    var lead := Number(args);
    if lead.Some? && EqualsSign(lead.value.1).Some? {
      var v := lead.value.0;
      var e := RestOfLine(EqualsSign(lead.value.1).value);
      SubstitutedValid(s, v, e);
      PurgeEffect(Substituted(s, v, e), v);
    }
  }

  lemma ClauseRemoveValid(s: State, args: string)
    requires Valid(s)
    ensures Keeps(s, ClauseRemoveStep(s, args), 0)
  {
    var parts := Split(args, 1);
    if parts != [] && ParseInt(parts[0]).Some? {
      WithoutClauseValid(s, ParseInt(parts[0]).value);
    }
  }

  lemma ClauseAddValid(s: State, args: string)
    requires Valid(s)
    ensures Keeps(s, ClauseAddStep(s, args), 1)
  {
    if BracketLiterals(args).Some? {
      WithClauseValid(s, BracketLiterals(args).value, None);
    }
  }

  lemma ClauseStrengthenValid(s: State, args: string)
    requires Valid(s)
    ensures Keeps(s, ClauseStrengthenStep(s, args), 0)
  {
    var parts := Split(args, 1);
    if |parts| >= 2 && ParseInt(parts[0]).Some? && BracketLiterals(parts[1]).Some? {
      StrengthenedValid(s, ParseInt(parts[0]).value, BracketLiterals(parts[1]).value);
    }
  }

  lemma UnitDeriveValid(s: State, args: string)
    requires Valid(s)
    ensures Keeps(s, UnitDeriveStep(s, args), 1)
  {
    var parts := Words(args);
    if parts != [] && ParseInt(parts[0]).Some? {
      WithClauseValid(s, [ParseInt(parts[0]).value], None);
    }
  }

  /** Every step keeps `Valid`; only `clause_add` and `unit_derive` move the
      id counter, by one. */
  lemma DispatchValid(s: State, op: Opcode, args: string)
    requires Valid(s)
    ensures Keeps(s, Dispatch(s, op, args), if op == ClauseAdd || op == UnitDerive then 1 else 0)
  {
    match op
    case VarRename => VarRenameValid(s, args);
    case VarElim => VarElimValid(s, args);
    case VarSubst => VarSubstValid(s, args);
    case ClauseRemove => ClauseRemoveValid(s, args);
    case ClauseAdd => ClauseAddValid(s, args);
    case ClauseStrengthen => ClauseStrengthenValid(s, args);
    case UnitDerive => UnitDeriveValid(s, args);
  }

  /** A state a step may lead to: still `Valid`, with a counter no smaller. */
  predicate Grows(s: State, r: State) {
    Valid(r) && r.nextClauseId >= s.nextClauseId
  }

  lemma ApplyStepValid(s: State, line: string)
    requires Valid(s)
    ensures ApplyStep(s, line).Ok? ==> Grows(s, ApplyStep(s, line).value)
  {
    var p := ParseTransformLine(line);
    if p.Ok? {
      var r := Dispatch(s, p.value.opcode, p.value.args);
      assert ApplyStep(s, line) == r;
      DispatchValid(s, p.value.opcode, p.value.args);
      if r.Ok? {
        assert Grows(s, r.value);
      }
    } else {
      assert ApplyStep(s, line).Err?;
    }
  }

  /** The formula stays `Valid` through a whole log, failing or not, and the
      id counter never goes back. */
  lemma ReplayValid(s: State, lines: seq<string>)
    requires Valid(s)
    ensures Valid(ReplayLines(s, lines).state)
    ensures ReplayLines(s, lines).state.nextClauseId >= s.nextClauseId
  {
    var inv := (t: State) => Grows(s, t);
    forall t, l | inv(t) && ReplayStep(t, l).Ok? ensures inv(ReplayStep(t, l).value) {
      if !Skipped(l) {
        ApplyStepValid(t, Strip(l));
      }
    }
    StepsKeep(s, lines, ReplayStep, inv);
  }

  /** The line number of a failure names the first line whose step fails:
      it is not a blank or comment line, every earlier line was applied or
      skipped, and the formula is the one those lines produced. */
  lemma ReplayFailure(s: State, lines: seq<string>)
    requires ReplayLines(s, lines).failure.Some?
    ensures var (n, e) := ReplayLines(s, lines).failure.value;
      var before := ReplayLines(s, lines[..n - 1]);
      && before.failure.None?
      && !Skipped(lines[n - 1])
      && ApplyStep(before.state, Strip(lines[n - 1])) == Err(e)
      && ReplayLines(s, lines).state == before.state
  {
    StepsFailure(s, lines, ReplayStep);
  }

  // ---------------------------------------------------------------------
  // Loading

  /** What a load from an empty formula builds: the clauses in file order
      under the ids 1, 2, ..., none of them empty, and the formula's own
      counter untouched at 1. */
  predicate NumberedFromOne(p: (State, int)) {
    var (st, next) := p;
    && next >= 1
    && |st.clauses| == next - 1
    && (forall k :: 1 <= k < next ==> k in st.clauseIds)
    && (forall k :: k in st.clauseIds ==> 1 <= k < next && st.clauseIds[k] == st.clauses[k - 1])
    && |st.order| == next - 1
    && (forall i :: 0 <= i < |st.order| ==> st.order[i] == i + 1)
    && (forall i :: 0 <= i < |st.clauses| ==> st.clauses[i] != [])
    && st.nextClauseId == 1
  }

  lemma LoadLineNumbered(p: (State, int), line: string)
    requires NumberedFromOne(p)
    ensures LoadLine(p, line).Ok? ==> NumberedFromOne(LoadLine(p, line).value)
  {
    var (st, next) := p;
    var t := Strip(line);
    if t != [] && t[0] != 'c' && t[0] != 'p' && ParseAll(NonZero(Words(t))).Some? {
      var lits := ParseAll(NonZero(Words(t))).value;
      if lits != [] {
        var r := WithClause(st, lits, Some(next)).0;
        assert next !in st.clauseIds;
        assert r.clauses == st.clauses + [lits];
        assert r.order == st.order + [next];
      }
    }
  }

  /** `load_original` into a new formula numbers the clauses it keeps from 1
      in file order; the formula's counter stays at 1. */
  lemma LoadNumbered(lines: seq<string>)
    ensures NumberedFromOne(LoadLines(Empty, lines).state)
  {
    forall p, l | NumberedFromOne(p) && LoadLine(p, l).Ok? ensures NumberedFromOne(LoadLine(p, l).value) {
      LoadLineNumbered(p, l);
    }
    StepsKeep((Empty, 1), lines, LoadLine, NumberedFromOne);
  }

  lemma LoadLineValid(p: (State, int), line: string)
    requires Valid(p.0)
    ensures LoadLine(p, line).Ok? ==> Valid(LoadLine(p, line).value.0)
  {
    var t := Strip(line);
    if t != [] && t[0] != 'c' && t[0] != 'p' && ParseAll(NonZero(Words(t))).Some? {
      WithClauseValid(p.0, ParseAll(NonZero(Words(t))).value, Some(p.1));
    }
  }

  /** Loading keeps `Valid`, into any formula. */
  lemma LoadValid(s: State, lines: seq<string>)
    requires Valid(s)
    ensures Valid(LoadLines(s, lines).state.0)
  {
    var inv := (p: (State, int)) => Valid(p.0);
    forall p, l | inv(p) && LoadLine(p, l).Ok? ensures inv(LoadLine(p, l).value) {
      LoadLineValid(p, l);
    }
    StepsKeep((s, 1), lines, LoadLine, inv);
  }

  /** The ids of the loaded clauses are not drawn from the formula's counter,
      so the first `clause_add` of a log that follows a non-empty formula is
      stored under id 1 again: it replaces the dictionary entry of the first
      clause, whose literals stay in the clause list. */
  lemma IdReuse(lines: seq<string>, lits: Clause)
    requires LoadLines(Empty, lines).state.1 > 1
    ensures var st := LoadLines(Empty, lines).state.0;
      var (r, id) := WithClause(st, lits, None);
      && id == 1 && 1 in st.clauseIds
      && r.clauseIds.Keys == st.clauseIds.Keys && r.clauseIds[1] == lits
      && r.clauses == st.clauses + [lits] && st.clauseIds[1] == r.clauses[0]
  {
    LoadNumbered(lines);
  }

  // ---------------------------------------------------------------------
  // Reading back `to_dimacs`

  lemma NonZeroOfInts(xs: seq<int>)
    requires forall i :: 0 <= i < |xs| ==> xs[i] != 0
    ensures NonZero(IntStrings(xs)) == IntStrings(xs)
  {
    var ws := IntStrings(xs);
    forall i | 0 <= i < |ws| ensures ws[i] != "0" {
      IntToStringRoundTrip(xs[i]);
    }
    NonZeroKeeps(ws);
  }

  /** No token is `0`: every token is kept. */
  lemma {:induction false} NonZeroKeeps(ws: seq<string>)
    requires forall i :: 0 <= i < |ws| ==> ws[i] != "0"
    ensures NonZero(ws) == ws
    decreases |ws|
  {
    if ws != [] {
      NonZeroKeeps(ws[..|ws| - 1]);
      DropLast(ws);
    }
  }

  lemma ParseAllOfInts(xs: seq<int>)
    ensures ParseAll(IntStrings(xs)) == Some(xs)
  {
    var ts := IntStrings(xs);
    forall i | 0 <= i < |xs| ensures ParseInt(ts[i]) == Some(xs[i]) {
      IntToStringRoundTrip(xs[i]);
    }
    assert seq(|ts|, i requires 0 <= i < |ts| => ParseInt(ts[i]).value) == xs;
  }

  lemma WordsOfFour(a: string, b: string, c: string, d: string)
    requires a != [] && forall i :: 0 <= i < |a| ==> !IsSpace(a[i])
    requires b != [] && forall i :: 0 <= i < |b| ==> !IsSpace(b[i])
    requires c != [] && forall i :: 0 <= i < |c| ==> !IsSpace(c[i])
    requires d != [] && forall i :: 0 <= i < |d| ==> !IsSpace(d[i])
    ensures Words(a + (" " + (b + (" " + (c + (" " + d)))))) == [a, b, c, d]
  {
    var y := c + (" " + d);
    var x := b + (" " + y);
    SplitWordSpace(a, x);
    SplitWordSpace(b, y);
    SplitWordSpace(c, d);
    assert Words(d) == [d] by {
      assert d + [] == d;
      SplitWord(d, [], -1);
    }
    assert Words(y) == [c, d];
    assert Words(x) == [b, c, d];
    assert [a] + [b, c, d] == [a, b, c, d];
  }

  /** The header line of `to_dimacs` sets the variable count. */
  lemma LoadHeader(s: State, next: int, m: nat, count: nat)
    ensures LoadLine((s, next), Header(m, count)) == Ok((s.(numVars := m), next))
  {
    var ms, cs := NatToString(m), NatToString(count);
    var h := Header(m, count);
    assert h == "p" + (" " + ("cnf" + (" " + (ms + (" " + cs)))));
    assert h[|h| - 1] == cs[|cs| - 1];
    StripKeeps(h);
    IntToStringNoSpace(m);
    IntToStringNoSpace(count);
    WordsOfFour("p", "cnf", ms, cs);
    IntToStringRoundTrip(m);
  }

  /** A clause line of `to_dimacs` adds that clause under the next id, when
      the clause is not empty and has no literal 0. */
  lemma LoadClauseLine(s: State, next: int, c: Clause)
    requires c != [] && forall j :: 0 <= j < |c| ==> c[j] != 0
    ensures LoadLine((s, next), ClauseLine(c)) == Ok((WithClause(s, c, Some(next)).0, next + 1))
  {
    ClauseLineWords(c);
    LoadLineClause(s, next, ClauseLine(c), c);
  }

  lemma ClauseLineWords(c: Clause)
    requires c != [] && forall j :: 0 <= j < |c| ==> c[j] != 0
    ensures var t := Strip(ClauseLine(c));
      && t != [] && t[0] != 'c' && t[0] != 'p'
      && ParseAll(NonZero(Words(t))) == Some(c)
  {
    ClauseLineStrip(c);
    ClauseLineTokens(c);
    NonZeroLast(IntStrings(c));
    NonZeroOfInts(c);
    ParseAllOfInts(c);
  }

  lemma ClauseLineStrip(c: Clause)
    requires c != []
    ensures var line := ClauseLine(c);
      Strip(line) == line && line != [] && line[0] != 'c' && line[0] != 'p'
  {
    var line := ClauseLine(c);
    assert line[0] == IntToString(c[0])[0];
    assert line[|line| - 1] == '0';
    StripKeeps(line);
  }

  lemma ClauseLineTokens(c: Clause)
    requires c != []
    ensures Words(ClauseLine(c)) == IntStrings(c) + ["0"]
  {
    SplitInts(c, " 0");
    WordsOfZero();
  }

  lemma WordsOfZero()
    ensures Words(" 0") == ["0"]
  {
    assert " 0" == " " + "0";
    WordAfterSpace("0");
  }

  lemma WordAfterSpace(w: string)
    requires w != [] && forall i :: 0 <= i < |w| ==> !IsSpace(w[i])
    ensures Words(" " + w) == [w]
  {
    SplitAfterSpace(w, -1);
    assert w + [] == w;
    SplitWord(w, [], -1);
  }

  lemma NonZeroLast(ws: seq<string>)
    ensures NonZero(ws + ["0"]) == NonZero(ws)
  {
    assert (ws + ["0"])[..|ws|] == ws;
  }

  /** The clause branch of `load_original`. */
  lemma LoadLineClause(s: State, next: int, line: string, lits: Clause)
    requires Strip(line) != [] && Strip(line)[0] != 'c' && Strip(line)[0] != 'p'
    requires ParseAll(NonZero(Words(Strip(line)))) == Some(lits) && lits != []
    ensures LoadLine((s, next), line) == Ok((WithClause(s, lits, Some(next)).0, next + 1))
  {
    var t := Strip(line);
    assert !(t == [] || t[0] == 'c') && t[0] != 'p';
    assert ParseAll(NonZero(Words(t))) == Some(lits);
  }

  /** Clauses that `to_dimacs` writes as lines `load_original` reads back:
      none is empty and none has the literal 0. */
  predicate Loadable(cs: seq<Clause>) {
    && (forall i :: 0 <= i < |cs| ==> cs[i] != [])
    && (forall i, j :: 0 <= i < |cs| && 0 <= j < |cs[i]| ==> cs[i][j] != 0)
  }

  /** Loading the header and the first `k` clause lines `to_dimacs` writes
      gives back the first `k` clauses and the header's variable count. */
  predicate LoadsPrefix(cs: seq<Clause>, k: nat)
    requires k <= |cs|
  {
    var l := LoadLines(Empty, DimacsLines(cs)[..k + 1]);
    l.failure.None? && l.state.1 == k + 1 && l.state.0.clauses == cs[..k] && l.state.0.numVars == MaxVar(cs)
  }

  lemma {:induction false} LoadDimacsPrefix(cs: seq<Clause>, k: nat)
    requires k <= |cs| && Loadable(cs)
    ensures LoadsPrefix(cs, k)
    decreases k
  {
    if k == 0 {
      LoadHeaderFirst(DimacsLines(cs)[..1], MaxVar(cs), |cs|);
    } else {
      LoadDimacsPrefix(cs, k - 1);
      LoadDimacsNext(cs, k);
    }
  }

  lemma LoadDimacsNext(cs: seq<Clause>, k: nat)
    requires 0 < k <= |cs| && Loadable(cs) && LoadsPrefix(cs, k - 1)
    ensures LoadsPrefix(cs, k)
  {
    var lines := DimacsLines(cs)[..k + 1];
    PrefixOfPrefix(DimacsLines(cs), k + 1, k);
    var prev := LoadLines(Empty, lines[..k]).state;
    var next := (WithClause(prev.0, cs[k - 1], Some(prev.1)).0, prev.1 + 1);
    assert LoadLine(prev, lines[k]) == Ok(next) by {
      assert lines[k] == ClauseLine(cs[k - 1]);
      LoadClauseLine(prev.0, prev.1, cs[k - 1]);
    }
    LoadSnoc(lines, next);
    PrefixSnoc(cs, k);
  }

  lemma LoadHeaderFirst(lines: seq<string>, m: nat, count: nat)
    requires lines == [Header(m, count)]
    ensures LoadLines(Empty, lines) == Run((Empty.(numVars := m), 1), None)
  {
    assert lines[..0] == [];
    LoadHeader(Empty, 1, m, count);
    StepsSnoc((Empty, 1), lines, LoadLine, (Empty.(numVars := m), 1));
  }

  /** A last line that loads extends a load that succeeded so far. */
  lemma {:induction false} LoadSnoc(lines: seq<string>, next: (State, int))
    requires lines != []
    requires LoadLines(Empty, lines[..|lines| - 1]).failure.None?
    requires LoadLine(LoadLines(Empty, lines[..|lines| - 1]).state, lines[|lines| - 1]) == Ok(next)
    ensures LoadLines(Empty, lines) == Run(next, None)
  {
    StepsSnoc((Empty, 1), lines, LoadLine, next);
  }

  /** `load_original` inverts `to_dimacs` on formulas whose clauses are all
      non-empty and free of the literal 0: the clauses come back in order
      under the ids 1 to n, with the header's variable count. */
  lemma LoadDimacs(cs: seq<Clause>)
    requires forall i, j :: 0 <= i < |cs| && 0 <= j < |cs[i]| ==> cs[i][j] != 0
    requires forall i :: 0 <= i < |cs| ==> cs[i] != []
    ensures var l := LoadLines(Empty, DimacsLines(cs));
      && l.failure.None?
      && l.state.0.clauses == cs && l.state.0.numVars == MaxVar(cs)
      && (forall k :: k in l.state.0.clauseIds <==> 1 <= k <= |cs|)
      && (forall k :: 1 <= k <= |cs| ==> k in l.state.0.clauseIds && l.state.0.clauseIds[k] == cs[k - 1])
  {
    LoadDimacsPrefix(cs, |cs|);
    assert DimacsLines(cs)[..|cs| + 1] == DimacsLines(cs);
    assert cs[..|cs|] == cs;
    LoadNumbered(DimacsLines(cs));
  }

  // ---------------------------------------------------------------------
  // The engine

  /** The formula after a step that may fail: every handler raises before
      it changes anything, so a failed step leaves the formula as it was. */
  function After(s: State, r: Result<State, StepError>): State {
    if r.Ok? then r.value else s
  }

  /** Whether a step raised, and with what. */
  function OutcomeOf(r: Result<State, StepError>): Outcome<StepError> {
    if r.Ok? then Pass else Fail(r.error)
  }

  lemma LoadNext(s: State, lines: seq<string>, i: nat)
    requires i < |lines| && LoadLines(s, lines[..i]).failure.None?
    ensures var prev := LoadLines(s, lines[..i]).state;
      LoadLines(s, lines[..i + 1]) ==
        match LoadLine(prev, lines[i])
        case Err(e) => Run(prev, Some((i + 1, e)))
        case Ok(next) => Run(next, None)
  {
    StepsPrefix((s, 1), lines, LoadLine, i);
  }

  lemma LoadStop(s: State, lines: seq<string>, i: nat)
    requires i <= |lines| && LoadLines(s, lines[..i]).failure.Some?
    ensures LoadLines(s, lines) == LoadLines(s, lines[..i])
  {
    StepsStop((s, 1), lines, LoadLine, i);
  }

  lemma ReplayNext(s: State, lines: seq<string>, i: nat)
    requires i < |lines| && ReplayLines(s, lines[..i]).failure.None?
    ensures var prev := ReplayLines(s, lines[..i]).state;
      ReplayLines(s, lines[..i + 1]) ==
        match ReplayStep(prev, lines[i])
        case Err(e) => Run(prev, Some((i + 1, e)))
        case Ok(next) => Run(next, None)
  {
    StepsPrefix(s, lines, ReplayStep, i);
  }

  lemma ReplayStop(s: State, lines: seq<string>, i: nat)
    requires i <= |lines| && ReplayLines(s, lines[..i]).failure.Some?
    ensures ReplayLines(s, lines) == ReplayLines(s, lines[..i])
  {
    StepsStop(s, lines, ReplayStep, i);
  }

  /** Setting the variable count keeps the invariant. */
  lemma HeaderValid(s: State, n: int)
    requires Valid(s)
    ensures Valid(s.(numVars := n))
  {
    assert Tracked(s.(numVars := n).order, s.(numVars := n).clauseIds) == Tracked(s.order, s.clauseIds);
  }

  /** `STTFReplayEngine`: the file paths are replaced by the lines of the
      two files, handed to the methods that read them. */
  class ReplayEngine {
    const formula: CNFFormula

    constructor ()
      ensures fresh(formula) && formula.Snapshot() == Empty && Valid(formula.Snapshot())
    {
      formula := new CNFFormula();
    }

    /** One line of `load_original`, with `clauseId` its local counter. */
    method LoadOriginalLine(line: string, clauseId: int) returns (r: Result<int, CnfProblem>)
      requires Valid(formula.Snapshot())
      modifies formula
      ensures var expected := LoadLine((old(formula.Snapshot()), clauseId), line);
        && (expected.Ok? ==> r == Ok(expected.value.1) && formula.Snapshot() == expected.value.0)
        && (expected.Err? ==> r == Err(expected.error) && formula.Snapshot() == old(formula.Snapshot()))
      ensures Valid(formula.Snapshot())
    {
      var t := Strip(line);
      if t == [] || t[0] == 'c' {
        return Ok(clauseId);
      }
      if t[0] == 'p' {
        var parts := Words(t);
        if |parts| < 3 {
          return Err(BadHeader(t));
        }
        var n := ParseInt(parts[2]);
        if n.None? {
          return Err(BadHeader(t));
        }
        HeaderValid(formula.Snapshot(), n.value);
        formula.numVars := n.value;
        return Ok(clauseId);
      }
      var literals := ParseAll(NonZero(Words(t)));
      if literals.None? {
        return Err(BadLiteral(t));
      }
      if literals.value == [] {
        return Ok(clauseId);
      }
      var _ := formula.AddClause(literals.value, Some(clauseId));
      return Ok(clauseId + 1);
    }

    /** `load_original` on the lines of the original formula. */
    method LoadOriginal(lines: seq<string>) returns (r: Outcome<CnfProblem>)
      requires Valid(formula.Snapshot())
      modifies formula
      ensures var run := LoadLines(old(formula.Snapshot()), lines);
        && formula.Snapshot() == run.state.0
        && r == (if run.failure.Some? then Fail(run.failure.value.1) else Pass)
      ensures Valid(formula.Snapshot())
    {
      ghost var s0 := formula.Snapshot();
      var clauseId := 1;
      for i := 0 to |lines|
        invariant Valid(formula.Snapshot())
        invariant LoadLines(s0, lines[..i]) == Run((formula.Snapshot(), clauseId), None)
      {
        var step := LoadOriginalLine(lines[i], clauseId);
        LoadNext(s0, lines, i);
        if step.Err? {
          LoadStop(s0, lines, i + 1);
          return Fail(step.error);
        }
        clauseId := step.value;
      }
      assert lines[..|lines|] == lines;
      return Pass;
    }

    /** The tail of `_handle_var_elim` and `_handle_var_subst`: the ids
        whose clause mentions `v` are collected in dictionary order, then
        removed one by one. */
    method RemoveMentioning(v: int)
      requires Valid(formula.Snapshot())
      modifies formula
      ensures formula.Snapshot() == Purge(old(formula.Snapshot()), v)
      ensures Valid(formula.Snapshot())
    {
      var toRemove := CollectMentioning(v);
      RemoveEach(toRemove);
    }

    /** The first loop: the ids, in dictionary order, whose clause has a
        literal on `v`. */
    method CollectMentioning(v: int) returns (toRemove: seq<int>)
      requires Valid(formula.Snapshot())
      ensures toRemove == Mentioning(formula.order, formula.clauseIds, v)
    {
      var order, ids := formula.order, formula.clauseIds;
      toRemove := [];
      for k := 0 to |order|
        invariant toRemove == Mentioning(order[..k], ids, v)
      {
        assert order[..k + 1][..k] == order[..k];
        if Mentions(ids[order[k]], v) {
          toRemove := toRemove + [order[k]];
        }
      }
      assert order[..|order|] == order;
    }

    /** The second loop: `remove_clause` on each collected id in turn. */
    method RemoveEach(toRemove: seq<int>)
      requires Valid(formula.Snapshot())
      modifies formula
      ensures formula.Snapshot() == RemoveAll(old(formula.Snapshot()), toRemove)
      ensures Valid(formula.Snapshot())
    {
      ghost var s0 := formula.Snapshot();
      for j := 0 to |toRemove|
        invariant Valid(formula.Snapshot())
        invariant formula.Snapshot() == RemoveAll(s0, toRemove[..j])
      {
        assert toRemove[..j + 1][..j] == toRemove[..j];
        formula.RemoveClause(toRemove[j]);
      }
      assert toRemove[..|toRemove|] == toRemove;
    }

    method HandleVarRename(args: string) returns (r: Outcome<StepError>)
      requires Valid(formula.Snapshot())
      modifies formula
      ensures formula.Snapshot() == After(old(formula.Snapshot()), VarRenameStep(old(formula.Snapshot()), args))
      ensures r == OutcomeOf(VarRenameStep(old(formula.Snapshot()), args))
      ensures Valid(formula.Snapshot())
    {
      var e := BadArguments(VarRename, args);
      var parts := Words(args);
      if |parts| < 2 {
        return Fail(e);
      }
      var a, b := ParseInt(parts[0]), ParseInt(parts[1]);
      if a.None? || b.None? {
        return Fail(e);
      }
      formula.RenameVar(a.value, b.value);
      return Pass;
    }

    method HandleVarElim(args: string) returns (r: Outcome<StepError>)
      requires Valid(formula.Snapshot())
      modifies formula
      ensures formula.Snapshot() == After(old(formula.Snapshot()), VarElimStep(old(formula.Snapshot()), args))
      ensures r == OutcomeOf(VarElimStep(old(formula.Snapshot()), args))
      ensures Valid(formula.Snapshot())
    {
      var e := BadArguments(VarElim, args);
      var parts := Split(args, 1);
      if parts == [] {
        return Fail(e);
      }
      var v := ParseInt(parts[0]);
      if v.None? {
        return Fail(e);
      }
      formula.EliminateVar(v.value);
      RemoveMentioning(v.value);
      return Pass;
    }

    method HandleVarSubst(args: string) returns (r: Outcome<StepError>)
      requires Valid(formula.Snapshot())
      modifies formula
      ensures formula.Snapshot() == After(old(formula.Snapshot()), VarSubstStep(old(formula.Snapshot()), args))
      ensures r == OutcomeOf(VarSubstStep(old(formula.Snapshot()), args))
      ensures Valid(formula.Snapshot())
    {
      var e := BadArguments(VarSubst, args);
      var lead := Number(args);
      if lead.None? {
        return Fail(e);
      }
      var rest := EqualsSign(lead.value.1);
      if rest.None? {
        return Fail(e);
      }
      var v := lead.value.0;
      assert VarSubstStep(formula.Snapshot(), args) == Ok(Purge(Substituted(formula.Snapshot(), v, RestOfLine(rest.value)), v));
      formula.SubstituteVar(v, RestOfLine(rest.value));
      RemoveMentioning(v);
      return Pass;
    }

    method HandleClauseRemove(args: string) returns (r: Outcome<StepError>)
      requires Valid(formula.Snapshot())
      modifies formula
      ensures formula.Snapshot() == After(old(formula.Snapshot()), ClauseRemoveStep(old(formula.Snapshot()), args))
      ensures r == OutcomeOf(ClauseRemoveStep(old(formula.Snapshot()), args))
      ensures Valid(formula.Snapshot())
    {
      var e := BadArguments(ClauseRemove, args);
      var parts := Split(args, 1);
      if parts == [] {
        return Fail(e);
      }
      var id := ParseInt(parts[0]);
      if id.None? {
        return Fail(e);
      }
      formula.RemoveClause(id.value);
      return Pass;
    }

    method HandleClauseAdd(args: string) returns (r: Outcome<StepError>)
      requires Valid(formula.Snapshot())
      modifies formula
      ensures formula.Snapshot() == After(old(formula.Snapshot()), ClauseAddStep(old(formula.Snapshot()), args))
      ensures r == OutcomeOf(ClauseAddStep(old(formula.Snapshot()), args))
      ensures Valid(formula.Snapshot())
    {
      var literals := BracketLiterals(args);
      if literals.None? {
        return Fail(BadArguments(ClauseAdd, args));
      }
      var _ := formula.AddClause(literals.value, None);
      return Pass;
    }

    method HandleClauseStrengthen(args: string) returns (r: Outcome<StepError>)
      requires Valid(formula.Snapshot())
      modifies formula
      ensures formula.Snapshot() == After(old(formula.Snapshot()), ClauseStrengthenStep(old(formula.Snapshot()), args))
      ensures r == OutcomeOf(ClauseStrengthenStep(old(formula.Snapshot()), args))
      ensures Valid(formula.Snapshot())
    {
      var e := BadArguments(ClauseStrengthen, args);
      var parts := Split(args, 1);
      if parts == [] {
        return Fail(e);
      }
      var id := ParseInt(parts[0]);
      if id.None? || |parts| < 2 {
        return Fail(e);
      }
      var literals := BracketLiterals(parts[1]);
      if literals.None? {
        return Fail(e);
      }
      formula.StrengthenClause(id.value, literals.value);
      return Pass;
    }

    method HandleUnitDerive(args: string) returns (r: Outcome<StepError>)
      requires Valid(formula.Snapshot())
      modifies formula
      ensures formula.Snapshot() == After(old(formula.Snapshot()), UnitDeriveStep(old(formula.Snapshot()), args))
      ensures r == OutcomeOf(UnitDeriveStep(old(formula.Snapshot()), args))
      ensures Valid(formula.Snapshot())
    {
      var e := BadArguments(UnitDerive, args);
      var parts := Words(args);
      if parts == [] {
        return Fail(e);
      }
      var literal := ParseInt(parts[0]);
      if literal.None? || (|parts| > 1 && ParseInt(parts[1]).None?) {
        return Fail(e);
      }
      formula.AddUnit(literal.value);
      return Pass;
    }

    /** `_apply_transform_step` on a stripped log line. */
    method ApplyTransformStep(line: string) returns (r: Outcome<StepError>)
      requires Valid(formula.Snapshot())
      modifies formula
      ensures formula.Snapshot() == After(old(formula.Snapshot()), ApplyStep(old(formula.Snapshot()), line))
      ensures r == OutcomeOf(ApplyStep(old(formula.Snapshot()), line))
      ensures Valid(formula.Snapshot())
    {
      var parsed := ParseTransformLine(line);
      if parsed.Err? {
        if parsed.error.BadOpcode? {
          return Fail(UnknownOpcode(parsed.error.name));
        }
        return Fail(InvalidTransformLine(line));
      }
      var args := parsed.value.args;
      match parsed.value.opcode
      case VarRename => r := HandleVarRename(args);
      case VarElim => r := HandleVarElim(args);
      case VarSubst => r := HandleVarSubst(args);
      case ClauseRemove => r := HandleClauseRemove(args);
      case ClauseAdd => r := HandleClauseAdd(args);
      case ClauseStrengthen => r := HandleClauseStrengthen(args);
      case UnitDerive => r := HandleUnitDerive(args);
    }

    /** `replay_transformation`: the original formula is loaded, then each
        log line that is not blank or a comment is applied, and the first
        failure is reported with its 1-based line number. */
    method ReplayTransformation(original: seq<string>, log: seq<string>) returns (r: Outcome<ReplayError>)
      requires Valid(formula.Snapshot())
      modifies formula
      ensures (formula.Snapshot(), r) == ReplayAll(old(formula.Snapshot()), original, log)
      ensures Valid(formula.Snapshot())
    {
      var loaded := LoadOriginal(original);
      if loaded.Fail? {
        return Fail(OriginalCnfError(loaded.error));
      }
      ghost var s1 := formula.Snapshot();
      for i := 0 to |log|
        invariant Valid(formula.Snapshot())
        invariant ReplayLines(s1, log[..i]) == Run(formula.Snapshot(), None)
      {
        ReplayNext(s1, log, i);
        var t := Strip(log[i]);
        if t != [] && t[0] != '#' {
          var outcome := ApplyTransformStep(t);
          if outcome.Fail? {
            ReplayStop(s1, log, i + 1);
            return Fail(TransformLineError(i + 1, outcome.error));
          }
        }
      }
      assert log[..|log|] == log;
      return Pass;
    }

    /** The text `write_simplified` writes. */
    method Simplified() returns (text: string)
      ensures text == DimacsText(formula.clauses)
    {
      text := formula.ToDimacs();
    }
  }
}
