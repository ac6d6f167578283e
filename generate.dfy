/** `STTFBundleGenerator`: the `add_*` methods write the lines of a transform
    log and of a reconstruct map under a step counter, and
    `compute_simplified_cnf` computes the formula the log should lead to by
    a simpler route than the replay engine. */
module Generate {
  import opened Wrappers
  import opened Text
  import opened Bundle
  import Cnf
  import Replay
  import Expr

  // ---------------------------------------------------------------------
  // The lines the generator writes

  /** One `add_*` call with its arguments. */
  datatype Call =
    | Rename(oldVar: int, newVar: int)
    | Elim(v: int, reason: string)
    | Subst(v: int, expr: string)
    | RemoveClause(id: int, reason: string)
    | AddClause(lits: seq<int>, source: string)
    | Strengthen(id: int, lits: seq<int>)
    | Unit(lit: int, sourceClause: int)

  function OpcodeOfCall(c: Call): Opcode {
    match c
    case Rename(_, _) => VarRename
    case Elim(_, _) => VarElim
    case Subst(_, _) => VarSubst
    case RemoveClause(_, _) => ClauseRemove
    case AddClause(_, _) => ClauseAdd
    case Strengthen(_, _) => ClauseStrengthen
    case Unit(_, _) => UnitDerive
  }

  /** The text after the opcode in the line each call writes. */
  function ArgsOf(c: Call): string {
    match c
    case Rename(a, b) => IntToString(a) + (" " + IntToString(b))
    case Elim(v, reason) => IntToString(v) + (" " + reason)
    case Subst(v, e) => IntToString(v) + (" " + ("=" + (" " + e)))
    case RemoveClause(id, reason) => IntToString(id) + (" " + reason)
    case AddClause(lits, source) => "[" + (IntsToString(lits) + ("]" + (" " + source)))
    case Strengthen(id, lits) => IntToString(id) + (" " + ("[" + (IntsToString(lits) + "]")))
    case Unit(lit, src) => IntToString(lit) + (" " + IntToString(src))
  }

  /** The transform line a call writes as step `n`. */
  function CallLine(n: nat, c: Call): string {
    StepLine(n, OpcodeOfCall(c), ArgsOf(c))
  }

  /** The reverse rules a call writes: one for the three variable steps,
      none for the four clause steps. */
  function RevRulesOf(c: Call): seq<string> {
    match c
    case Rename(a, b) => ["rev_map" + (" " + (IntToString(b) + (" " + ("->" + (" " + IntToString(a))))))]
    case Elim(v, _) => ["rev_elim" + (" " + (IntToString(v) + (" " + ("=" + (" " + "false")))))]
    case Subst(v, e) => ["rev_elim_expr" + (" " + (IntToString(v) + (" " + ("=" + (" " + e)))))]
    case _ => []
  }

  /** The transform log of a sequence of calls: call `i` is step `i + 1`. */
  function Lines(calls: seq<Call>): (r: seq<string>)
    ensures |r| == |calls|
  {
    seq(|calls|, i requires 0 <= i < |calls| => CallLine(i + 1, calls[i]))
  }

  /** The reconstruct map of a sequence of calls, in call order. */
  function RevLines(calls: seq<Call>): seq<string>
    decreases |calls|
  {
    if calls == [] then [] else RevLines(calls[..|calls| - 1]) + RevRulesOf(calls[|calls| - 1])
  }

  lemma LinesSnoc(calls: seq<Call>, c: Call)
    ensures Lines(calls + [c]) == Lines(calls) + [CallLine(|calls| + 1, c)]
  {
    var a, b := Lines(calls + [c]), Lines(calls) + [CallLine(|calls| + 1, c)];
    forall i | 0 <= i < |a| ensures a[i] == b[i] {
      if i < |calls| {
        assert (calls + [c])[i] == calls[i];
      }
    }
    SameElements(a, b);
  }

  lemma RevLinesSnoc(calls: seq<Call>, c: Call)
    ensures RevLines(calls + [c]) == RevLines(calls) + RevRulesOf(c)
  {
    assert (calls + [c])[..|calls|] == calls;
  }

  /** Appending a call's lines to those of the earlier calls gives the
      lines of all the calls. */
  lemma AppendKeeps(calls: seq<Call>, steps: seq<string>, rules: seq<string>, c: Call, line: string, rs: seq<string>)
    requires steps == Lines(calls) && rules == RevLines(calls)
    requires line == CallLine(|calls| + 1, c) && rs == RevRulesOf(c)
    ensures steps + [line] == Lines(calls + [c]) && rules + rs == RevLines(calls + [c])
  {
    LinesSnoc(calls, c);
    RevLinesSnoc(calls, c);
  }

  // ---------------------------------------------------------------------
  // The generator

  class BundleGenerator {
    var originalVars: int
    var originalClauses: seq<seq<int>>
    var transformSteps: seq<string>
    var revRules: seq<string>
    var stepCounter: nat
    /** The calls made so far, which the two line lists are written from. */
    ghost var calls: seq<Call>

    /** Every line was written by a call and numbered in call order. */
    ghost predicate Valid()
      reads this
    {
      && stepCounter == |calls| + 1
      && transformSteps == Lines(calls)
      && revRules == RevLines(calls)
    }

    constructor ()
      ensures originalVars == 0 && originalClauses == []
      ensures calls == [] && transformSteps == [] && revRules == [] && stepCounter == 1
      ensures Valid()
    {
      originalVars := 0;
      originalClauses := [];
      transformSteps := [];
      revRules := [];
      stepCounter := 1;
      calls := [];
    }

    method SetOriginalCnf(numVars: int, clauses: seq<seq<int>>)
      modifies this
      ensures originalVars == numVars && originalClauses == clauses
      ensures transformSteps == old(transformSteps) && revRules == old(revRules)
      ensures stepCounter == old(stepCounter) && calls == old(calls)
    {
      originalVars := numVars;
      originalClauses := clauses;
    }

    /** What each `add_*` method does besides building its line. */
    twostate predicate Appended(c: Call)
      reads this
    {
      && calls == old(calls) + [c]
      && transformSteps == old(transformSteps) + [CallLine(old(stepCounter), c)]
      && revRules == old(revRules) + RevRulesOf(c)
      && stepCounter == old(stepCounter) + 1
      && originalVars == old(originalVars) && originalClauses == old(originalClauses)
    }

    /** Appends the lines a call writes and moves the counter on. */
    method Append(c: Call, line: string, rules: seq<string>)
      requires Valid()
      requires line == CallLine(stepCounter, c) && rules == RevRulesOf(c)
      modifies this
      ensures Appended(c) && Valid()
    {
      AppendKeeps(calls, transformSteps, revRules, c, line, rules);
      transformSteps, revRules, stepCounter, calls := transformSteps + [line], revRules + rules, stepCounter + 1, calls + [c];
    }

    method AddVarRename(oldVar: int, newVar: int)
      requires Valid()
      modifies this
      ensures Appended(Rename(oldVar, newVar)) && Valid()
    {
      Append(Rename(oldVar, newVar),
        StepLine(stepCounter, VarRename, IntToString(oldVar) + (" " + IntToString(newVar))),
        ["rev_map" + (" " + (IntToString(newVar) + (" " + ("->" + (" " + IntToString(oldVar))))))]);
    }

    method AddVarElim(v: int, reason: string := "pure_literal")
      requires Valid()
      modifies this
      ensures Appended(Elim(v, reason)) && Valid()
    {
      Append(Elim(v, reason),
        StepLine(stepCounter, VarElim, IntToString(v) + (" " + reason)),
        ["rev_elim" + (" " + (IntToString(v) + (" " + ("=" + (" " + "false")))))]);
    }

    method AddVarSubst(v: int, e: string)
      requires Valid()
      modifies this
      ensures Appended(Subst(v, e)) && Valid()
    {
      Append(Subst(v, e),
        StepLine(stepCounter, VarSubst, IntToString(v) + (" " + ("=" + (" " + e)))),
        ["rev_elim_expr" + (" " + (IntToString(v) + (" " + ("=" + (" " + e)))))]);
    }

    method AddClauseRemove(clauseId: int, reason: string := "subsumed")
      requires Valid()
      modifies this
      ensures Appended(RemoveClause(clauseId, reason)) && Valid()
    {
      Append(RemoveClause(clauseId, reason),
        StepLine(stepCounter, ClauseRemove, IntToString(clauseId) + (" " + reason)), []);
    }

    method AddClauseAdd(literals: seq<int>, source: string := "resolution")
      requires Valid()
      modifies this
      ensures Appended(AddClause(literals, source)) && Valid()
    {
      var litStr := IntsToString(literals);
      Append(AddClause(literals, source),
        StepLine(stepCounter, ClauseAdd, "[" + (litStr + ("]" + (" " + source)))), []);
    }

    method AddClauseStrengthen(clauseId: int, newLiterals: seq<int>)
      requires Valid()
      modifies this
      ensures Appended(Strengthen(clauseId, newLiterals)) && Valid()
    {
      var litStr := IntsToString(newLiterals);
      Append(Strengthen(clauseId, newLiterals),
        StepLine(stepCounter, ClauseStrengthen, IntToString(clauseId) + (" " + ("[" + (litStr + "]")))), []);
    }

    method AddUnitDerive(literal: int, sourceClause: int)
      requires Valid()
      modifies this
      ensures Appended(Unit(literal, sourceClause)) && Valid()
    {
      Append(Unit(literal, sourceClause),
        StepLine(stepCounter, UnitDerive, IntToString(literal) + (" " + IntToString(sourceClause))), []);
    }

    /** `compute_simplified_cnf` on the original clauses and the log; the
        clause list is copied, never changed. */
    method ComputeSimplifiedCnf() returns (r: Option<(nat, seq<seq<int>>)>)
      requires RenamesSettle(originalClauses, transformSteps)
      ensures r == SimplifiedCnf(originalClauses, transformSteps)
    {
      var clauses := originalClauses;
      var tables := TrackSteps(clauses, transformSteps);
      if tables.None? {
        return None;
      }
      var simplified := CollectClauses(tables.value, |clauses|);
      var activeVars := Cnf.VarsIn(simplified);
      Cnf.MaxVarBounds(simplified);
      var numVars := if activeVars == {} then 0 else Cnf.MaxOf(activeVars);
      assert numVars == Cnf.MaxVar(simplified);
      return Some((numVars, simplified));
    }
  }

  // ---------------------------------------------------------------------
  // Reading the generated lines back

  /** The texts a call is given keep its lines on one line, and an
      expression to substitute does not start with whitespace. */
  predicate Plain(c: Call) {
    match c
    case Elim(_, reason) => OneLine(reason)
    case Subst(_, e) => OneLine(e) && (e == [] || !IsSpace(e[0]))
    case RemoveClause(_, reason) => OneLine(reason)
    case AddClause(_, source) => OneLine(source)
    case _ => true
  }

  /** A text without a line feed or a carriage return, at either of which
      reading a file in text mode ends a line. */
  predicate OneLine(t: string) {
    '\n' !in t && '\r' !in t
  }

  lemma IntTextPlain(i: int)
    ensures OneLine(IntToString(i)) && !IsSpace(IntToString(i)[0])
    ensures forall k :: 0 <= k < |IntToString(i)| ==> !IsSpace(IntToString(i)[k])
  {
    IntToStringNoSpace(i);
  }

  lemma IntsTextPlain(xs: seq<int>)
    ensures OneLine(IntsToString(xs)) && ']' !in IntsToString(xs)
  {
    var t := IntsToString(xs);
    assert forall k :: 0 <= k < |t| ==> t[k] != '\n' && t[k] != '\r' && t[k] != ']';
  }

  lemma ArgsPlain(c: Call)
    requires Plain(c)
    ensures OneLine(ArgsOf(c))
    ensures ArgsOf(c) != [] && !IsSpace(ArgsOf(c)[0])
  {
    match c
    case Rename(a, b) => IntTextPlain(a); IntTextPlain(b);
    case Elim(v, _) => IntTextPlain(v);
    case Subst(v, _) => IntTextPlain(v);
    case RemoveClause(id, _) => IntTextPlain(id);
    case AddClause(lits, _) => IntsTextPlain(lits);
    case Strengthen(id, lits) => IntTextPlain(id); IntsTextPlain(lits);
    case Unit(lit, src) => IntTextPlain(lit); IntTextPlain(src);
  }

  /** A call as the stripped line it writes records it: each free text
      loses its trailing whitespace. */
  function Trimmed(c: Call): Call {
    match c
    case Elim(v, reason) => Elim(v, RStrip(reason))
    case Subst(v, e) => Subst(v, RStrip(e))
    case RemoveClause(id, reason) => RemoveClause(id, RStrip(reason))
    case AddClause(lits, source) => AddClause(lits, RStrip(source))
    case _ => c
  }

  /** The readers strip a line before they look at it: a generated line is
      never skipped, and stripping it only drops the trailing whitespace of
      its arguments. */
  lemma StrippedLine(n: nat, c: Call)
    requires Plain(c)
    ensures !Skipped(CallLine(n, c))
    ensures Strip(CallLine(n, c)) == StepLine(n, OpcodeOfCall(c), RStrip(ArgsOf(c)))
    ensures RStrip(ArgsOf(c)) != [] && !IsSpace(RStrip(ArgsOf(c))[0]) && '\n' !in RStrip(ArgsOf(c))
  {
    ArgsPlain(c);
    StrippedStep(n, OpcodeOfCall(c), ArgsOf(c));
  }

  lemma StrippedStep(n: nat, op: Opcode, args: string)
    requires args != [] && !IsSpace(args[0]) && '\n' !in args
    ensures !Skipped(StepLine(n, op, args))
    ensures Strip(StepLine(n, op, args)) == StepLine(n, op, RStrip(args))
    ensures RStrip(args) != [] && !IsSpace(RStrip(args)[0]) && '\n' !in RStrip(args)
  {
    var d := NatToString(n);
    var w := OpcodeName(op);
    var head := d + (" " + (w + " "));
    WordsThenTail(d, w, args);
    WordsThenTail(d, w, RStrip(args));
    assert head[0] == d[0] && IsDigit(d[0]);
    StripHead(head, args);
  }

  /** Each generated transform line, stripped, parses back with the
      bundle's parser as the step number it was written under, the call's
      opcode and its arguments. */
  lemma CallLineParses(n: nat, c: Call)
    requires Plain(c)
    ensures !Skipped(CallLine(n, c))
    ensures ParseTransformLine(Strip(CallLine(n, c))) == Ok(TransformStep(n, OpcodeOfCall(c), RStrip(ArgsOf(c))))
  {
    StrippedLine(n, c);
    TransformLineRoundTrip(n, OpcodeOfCall(c), RStrip(ArgsOf(c)));
  }

  /** The transform log of any calls: line `i` is read as step `i + 1`. */
  lemma LinesNumbered(calls: seq<Call>)
    requires forall i :: 0 <= i < |calls| ==> Plain(calls[i])
    ensures forall i :: 0 <= i < |calls| ==>
      OneLine(Lines(calls)[i]) && !Skipped(Lines(calls)[i]) &&
      ParseTransformLine(Strip(Lines(calls)[i])) == Ok(TransformStep(i + 1, OpcodeOfCall(calls[i]), RStrip(ArgsOf(calls[i]))))
  {
    forall i | 0 <= i < |calls|
      ensures OneLine(Lines(calls)[i]) && !Skipped(Lines(calls)[i]) &&
        ParseTransformLine(Strip(Lines(calls)[i])) == Ok(TransformStep(i + 1, OpcodeOfCall(calls[i]), RStrip(ArgsOf(calls[i]))))
    {
      LineNumbered(calls, i);
    }
  }

  lemma LineNumbered(calls: seq<Call>, i: nat)
    requires i < |calls| && Plain(calls[i])
    ensures OneLine(Lines(calls)[i])
    ensures !Skipped(Lines(calls)[i]) &&
      ParseTransformLine(Strip(Lines(calls)[i])) == Ok(TransformStep(i + 1, OpcodeOfCall(calls[i]), RStrip(ArgsOf(calls[i]))))
  {
    var line := Lines(calls)[i];
    assert line == CallLine(i + 1, calls[i]);
    CallLineParses(i + 1, calls[i]);
    CallLineOneLine(i + 1, calls[i]);
  }

  /** A generated line holds neither a line feed nor a carriage return, so
      reading the file gives it back as one line. */
  lemma CallLineOneLine(n: nat, c: Call)
    requires Plain(c)
    ensures OneLine(CallLine(n, c))
  {
    var d := NatToString(n);
    var w := OpcodeName(OpcodeOfCall(c));
    var args := ArgsOf(c);
    assert OneLine(args) by {
      ArgsPlain(c);
    }
    assert OneLine(d) by {
      assert forall k :: 0 <= k < |d| ==> d[k] != '\n' && d[k] != '\r';
    }
    assert OneLine(w) by {
      OpcodeOneLine(OpcodeOfCall(c));
    }
    assert CallLine(n, c) == d + (" " + (w + (" " + args)));
  }

  lemma OpcodeOneLine(op: Opcode)
    ensures OneLine(OpcodeName(op))
  {
    var w := OpcodeName(op);
    assert forall k :: 0 <= k < |w| ==> w[k] != '\n' && w[k] != '\r';
  }

  /** The rule the reconstruct map should hold for a variable step, when
      its variables are not negative. */
  function RuleOf(c: Call): Option<RevRule>
    requires c.Rename? ==> c.oldVar >= 0 && c.newVar >= 0
    requires c.Elim? || c.Subst? ==> c.v >= 0
  {
    match c
    case Rename(a, b) => Some(RevMap(b, a))
    case Elim(v, _) => Some(RevElim(v, false))
    case Subst(v, e) => Some(RevElimExpr(v, Strip(e)))
    case _ => None
  }

  /** The reverse rules a call writes parse back, with the bundle's
      parser, as the rule the call stands for, and the clause steps write
      none. */
  lemma RevRulesParse(c: Call)
    requires Plain(c)
    requires c.Rename? ==> c.oldVar >= 0 && c.newVar >= 0
    requires c.Elim? || c.Subst? ==> c.v >= 0
    ensures RuleOf(c).None? <==> RevRulesOf(c) == []
    ensures RuleOf(c).Some? ==> |RevRulesOf(c)| == 1 && ParseReverseLine(RevRulesOf(c)[0]) == Ok(RuleOf(c).value)
  {
    match c
    case Rename(a, b) =>
      assert RevRulesOf(c)[0] == RevMapText(b, a);
      RevMapRoundTrip(b, a);
    case Elim(v, _) =>
      assert RevRulesOf(c)[0] == RevElimText(v, false);
      RevElimRoundTrip(v, false);
    case Subst(v, e) =>
      assert RevRulesOf(c)[0] == RevElimExprText(v, e);
      RevElimExprRoundTrip(v, e);
    case _ =>
  }

  // ---------------------------------------------------------------------
  // Replaying the generated lines

  /** What the replay engine should do with a call's line. */
  function Replayed(s: Cnf.State, c: Call): Cnf.State {
    match c
    case Rename(a, b) => Cnf.Renamed(s, a, b)
    case Elim(v, _) => Cnf.Purge(Cnf.Eliminated(s, v), v)
    case Subst(v, e) => Cnf.Purge(Cnf.Substituted(s, v, e), v)
    case RemoveClause(id, _) => Cnf.WithoutClause(s, id)
    case AddClause(lits, _) => Cnf.WithClause(s, lits, None).0
    case Strengthen(id, lits) => Cnf.Strengthened(s, id, lits)
    case Unit(lit, _) => Cnf.WithUnit(s, lit)
  }

  /** Two integers separated by a blank are two words. */
  lemma TwoInts(a: int, b: int)
    ensures Words(IntToString(a) + (" " + IntToString(b))) == [IntToString(a), IntToString(b)]
  {
    IntTextPlain(a);
    IntTextPlain(b);
    SplitWordSpace(IntToString(a), IntToString(b));
    WordsOfInts([b]);
  }

  /** An integer, a blank and anything: the integer is the first field. */
  lemma IntThenRest(i: int, rest: string)
    ensures Split(IntToString(i) + (" " + rest), 1) == [IntToString(i)] + Split(" " + rest, 0)
  {
    IntTextPlain(i);
    SplitWord(IntToString(i), " " + rest, 1);
  }

  /** `re.search(r"\[([^\]]*)\]", ...)` finds the bracketed text at the
      front. */
  lemma BracketGroupOf(x: string, y: string)
    requires ']' !in x
    ensures Replay.BracketGroup("[" + (x + ("]" + y))) == Some(x)
  {
    var s := "[" + (x + ("]" + y));
    assert Span(s, NotChar('[')) == 0;
    var after := s[1..];
    assert after == x + ("]" + y);
    SpanAll(x, "]" + y, NotChar(']'));
    assert Span("]" + y, NotChar(']')) == 0;
    assert after[..|x|] == x;
  }

  lemma BracketLiteralsOf(lits: seq<int>, y: string)
    ensures Replay.BracketLiterals("[" + (IntsToString(lits) + ("]" + y))) == Some(lits)
  {
    IntsTextPlain(lits);
    BracketGroupOf(IntsToString(lits), y);
    WordsOfInts(lits);
    Replay.ParseAllOfInts(lits);
  }

  lemma RenameReplays(s: Cnf.State, c: Call)
    requires c.Rename?
    ensures Replay.Dispatch(s, OpcodeOfCall(c), ArgsOf(c)) == Ok(Replayed(s, c))
  {
    DispatchOp(s, OpcodeOfCall(c), ArgsOf(c));
    var (a, b) := (c.oldVar, c.newVar);
    TwoInts(a, b);
    IntToStringRoundTrip(a);
    IntToStringRoundTrip(b);
    VarRenameOf(s, ArgsOf(c), a, b);
  }

  lemma VarRenameOf(s: Cnf.State, args: string, a: int, b: int)
    requires |Words(args)| >= 2 && ParseInt(Words(args)[0]) == Some(a) && ParseInt(Words(args)[1]) == Some(b)
    ensures Replay.VarRenameStep(s, args) == Ok(Cnf.Renamed(s, a, b))
  {
  }

  /** The integer before a free text is the first field of the stripped
      arguments, whether or not the text is blank. */
  lemma IntThenText(i: int, x: string)
    ensures RStrip(IntToString(i) + (" " + x)) ==
      if RStrip(x) == [] then IntToString(i) else IntToString(i) + (" " + RStrip(x))
    ensures Split(RStrip(IntToString(i) + (" " + x)), 1) != []
    ensures Split(RStrip(IntToString(i) + (" " + x)), 1)[0] == IntToString(i)
  {
    var d := IntToString(i);
    IntTextPlain(i);
    RStripConcat(d, " " + x);
    var y := BlankThenText(x);
    assert RStrip(d) == d;
    if RStrip(x) == [] {
      SplitWord(d, [], 1);
      assert d + [] == d;
    } else {
      IntThenRest(i, RStrip(x));
    }
  }

  lemma ElimStripped(s: Cnf.State, v: int, reason: string)
    ensures Replay.Dispatch(s, VarElim, RStrip(ArgsOf(Elim(v, reason)))) == Ok(Cnf.Purge(Cnf.Eliminated(s, v), v))
  {
    var args := RStrip(ArgsOf(Elim(v, reason)));
    assert Split(args, 1) != [] && ParseInt(Split(args, 1)[0]) == Some(v) by {
      assert ArgsOf(Elim(v, reason)) == IntToString(v) + (" " + reason);
      IntThenText(v, reason);
      IntToStringRoundTrip(v);
    }
    VarElimOf(s, args, v);
    DispatchOp(s, VarElim, args);
  }

  lemma VarElimOf(s: Cnf.State, args: string, v: int)
    requires Split(args, 1) != [] && ParseInt(Split(args, 1)[0]) == Some(v)
    ensures Replay.VarElimStep(s, args) == Ok(Cnf.Purge(Cnf.Eliminated(s, v), v))
  {
  }

  lemma SubstReplays(s: Cnf.State, c: Call)
    requires c.Subst? && c.v >= 0 && Plain(c)
    ensures Replay.Dispatch(s, OpcodeOfCall(c), ArgsOf(c)) == Ok(Replayed(s, c))
  {
    DispatchOp(s, OpcodeOfCall(c), ArgsOf(c));
    var (v, e) := (c.v as nat, c.expr);
    var rest := " " + ("=" + (" " + e));
    NumberOf(v, rest);
    EqualsSignOf(e);
    RestOfLineWhole(e);
    VarSubstOf(s, NatToString(v) + rest, v, e);
  }

  lemma VarSubstOf(s: Cnf.State, args: string, v: nat, e: string)
    requires Number(args).Some? && Number(args).value.0 == v
    requires EqualsSign(Number(args).value.1).Some? && RestOfLine(EqualsSign(Number(args).value.1).value) == e
    ensures Replay.VarSubstStep(s, args) == Ok(Cnf.Purge(Cnf.Substituted(s, v, e), v))
  {
  }

  /** A substituted expression keeps its text up to its trailing
      whitespace; an empty one stays empty. */
  lemma SubstStripped(s: Cnf.State, v: nat, e: string)
    requires Plain(Subst(v, e))
    ensures Replay.Dispatch(s, VarSubst, RStrip(ArgsOf(Subst(v, e)))) == Ok(Cnf.Purge(Cnf.Substituted(s, v, RStrip(e)), v))
  {
    if e == [] {
      SubstEmptyStripped(s, v);
    } else {
      SubstTextArgs(v, e);
      SubstReplays(s, Subst(v, RStrip(e)));
    }
  }

  /** `v = e` strips to `v = ` and the stripped expression. */
  lemma SubstTextArgs(v: int, e: string)
    requires Plain(Subst(v, e)) && e != []
    ensures RStrip(ArgsOf(Subst(v, e))) == ArgsOf(Subst(v, RStrip(e)))
    ensures Plain(Subst(v, RStrip(e)))
  {
    var d := IntToString(v);
    WordsThenTail(d, "=", e);
    WordsThenTail(d, "=", RStrip(e));
    RStripConcat(d + (" " + ("=" + " ")), e);
    assert RStrip(e)[0] == e[0];
  }

  lemma SubstEmptyStripped(s: Cnf.State, v: nat)
    ensures Replay.Dispatch(s, VarSubst, RStrip(ArgsOf(Subst(v, [])))) == Ok(Cnf.Purge(Cnf.Substituted(s, v, []), v))
  {
    var args := NatToString(v) + " =";
    SubstEmptyArgs(v);
    NumberOf(v, " =");
    BareEqualsSign();
    RestOfLineWhole([]);
    VarSubstOf(s, args, v, []);
    DispatchOp(s, VarSubst, args);
  }

  /** `v = ` with nothing after it strips to `v =`. */
  lemma SubstEmptyArgs(v: nat)
    ensures RStrip(ArgsOf(Subst(v, []))) == NatToString(v) + " ="
  {
    var d := NatToString(v);
    assert ArgsOf(Subst(v, [])) == d + " = ";
    RStripConcat(d, " = ");
    assert RStrip(" = ") == " =" by {
      assert " = "[..2] == " =";
    }
    assert IsDigit(d[|d| - 1]);
    assert RStrip(d) == d;
  }

  lemma BareEqualsSign()
    ensures EqualsSign(" =") == Some([])
  {
    SpacesThen(" ", "=");
    TokenOf("=", []);
    assert "=" + [] == "=";
  }

  lemma RemoveStripped(s: Cnf.State, id: int, reason: string)
    ensures Replay.Dispatch(s, ClauseRemove, RStrip(ArgsOf(RemoveClause(id, reason)))) == Ok(Cnf.WithoutClause(s, id))
  {
    var args := RStrip(ArgsOf(RemoveClause(id, reason)));
    assert Split(args, 1) != [] && ParseInt(Split(args, 1)[0]) == Some(id) by {
      assert ArgsOf(RemoveClause(id, reason)) == IntToString(id) + (" " + reason);
      IntThenText(id, reason);
      IntToStringRoundTrip(id);
    }
    ClauseRemoveOf(s, args, id);
    DispatchOp(s, ClauseRemove, args);
  }

  lemma ClauseRemoveOf(s: Cnf.State, args: string, id: int)
    requires Split(args, 1) != [] && ParseInt(Split(args, 1)[0]) == Some(id)
    ensures Replay.ClauseRemoveStep(s, args) == Ok(Cnf.WithoutClause(s, id))
  {
  }

  lemma AddStripped(s: Cnf.State, lits: seq<int>, source: string)
    ensures Replay.Dispatch(s, ClauseAdd, RStrip(ArgsOf(AddClause(lits, source)))) == Ok(Cnf.WithClause(s, lits, None).0)
  {
    var args := RStrip(ArgsOf(AddClause(lits, source)));
    StrippedBracket(lits, source);
    ClauseAddOf(s, args, lits);
    DispatchClauseAdd(s, args);
  }

  /** The stripped arguments of `clause_add` still hold the bracketed
      literals. */
  lemma StrippedBracket(lits: seq<int>, source: string)
    ensures Replay.BracketLiterals(RStrip(ArgsOf(AddClause(lits, source)))) == Some(lits)
  {
    var t := IntsToString(lits);
    var y := BracketTail(t, source);
    assert RStrip(ArgsOf(AddClause(lits, source))) == "[" + (t + ("]" + y));
    BracketLiteralsOf(lits, y);
  }

  /** Stripping `[t] source` strips the source, or drops it when blank. */
  lemma BracketTail(t: string, source: string) returns (y: string)
    ensures y == if RStrip(source) == [] then [] else " " + RStrip(source)
    ensures RStrip("[" + (t + ("]" + (" " + source)))) == "[" + (t + ("]" + y))
  {
    var x := "[" + (t + "]");
    ThenTail("[", t, "]", " " + source);
    y := BlankThenText(source);
    assert RStrip(x + (" " + source)) == x + y by {
      RStripConcat(x, " " + source);
      assert x[|x| - 1] == ']';
    }
    ThenTail("[", t, "]", y);
  }

  /** A blank and a text strip to the blank and the stripped text, or to
      nothing when the text is blank. */
  lemma BlankThenText(x: string) returns (y: string)
    ensures y == if RStrip(x) == [] then [] else " " + RStrip(x)
    ensures RStrip(" " + x) == y
  {
    RStripConcat(" ", x);
    assert RStrip(" ") == [] by {
      assert " "[..0] == [];
    }
    y := if RStrip(x) == [] then [] else " " + RStrip(x);
  }

  lemma DispatchClauseAdd(s: Cnf.State, args: string)
    ensures Replay.Dispatch(s, ClauseAdd, args) == Replay.ClauseAddStep(s, args)
  {
  }

  lemma ClauseAddOf(s: Cnf.State, args: string, lits: seq<int>)
    requires Replay.BracketLiterals(args) == Some(lits)
    ensures Replay.ClauseAddStep(s, args) == Ok(Cnf.WithClause(s, lits, None).0)
  {
  }

  lemma StrengthenReplays(s: Cnf.State, c: Call)
    requires c.Strengthen?
    ensures Replay.Dispatch(s, OpcodeOfCall(c), ArgsOf(c)) == Ok(Replayed(s, c))
  {
    DispatchOp(s, OpcodeOfCall(c), ArgsOf(c));
    var (id, lits) := (c.id, c.lits);
    var t := "[" + (IntsToString(lits) + "]");
    assert ArgsOf(c) == IntToString(id) + (" " + t);
    IntThenWord(id, t);
    assert "]" + [] == "]";
    BracketLiteralsOf(lits, []);
    IntToStringRoundTrip(id);
    ClauseStrengthenOf(s, IntToString(id) + (" " + t), id, lits);
  }

  /** An integer, a blank and a text that starts with no blank: two fields. */
  lemma IntThenWord(i: int, t: string)
    requires t != [] && !IsSpace(t[0])
    ensures Split(IntToString(i) + (" " + t), 1) == [IntToString(i), t]
  {
    IntThenRest(i, t);
    SplitAfterSpace(t, 0);
    assert Split(t, 0) == [t];
  }

  lemma ClauseStrengthenOf(s: Cnf.State, args: string, id: int, lits: seq<int>)
    requires |Split(args, 1)| >= 2 && ParseInt(Split(args, 1)[0]) == Some(id)
    requires Replay.BracketLiterals(Split(args, 1)[1]) == Some(lits)
    ensures Replay.ClauseStrengthenStep(s, args) == Ok(Cnf.Strengthened(s, id, lits))
  {
  }

  lemma UnitReplays(s: Cnf.State, c: Call)
    requires c.Unit?
    ensures Replay.Dispatch(s, OpcodeOfCall(c), ArgsOf(c)) == Ok(Replayed(s, c))
  {
    DispatchOp(s, OpcodeOfCall(c), ArgsOf(c));
    var (lit, src) := (c.lit, c.sourceClause);
    TwoInts(lit, src);
    IntToStringRoundTrip(lit);
    IntToStringRoundTrip(src);
    UnitDeriveOf(s, ArgsOf(c), lit);
  }

  lemma UnitDeriveOf(s: Cnf.State, args: string, lit: int)
    requires Words(args) != [] && ParseInt(Words(args)[0]) == Some(lit)
    requires |Words(args)| > 1 ==> ParseInt(Words(args)[1]).Some?
    ensures Replay.UnitDeriveStep(s, args) == Ok(Cnf.WithUnit(s, lit))
  {
  }

  /** Each opcode selects its own handler. */
  lemma DispatchOp(s: Cnf.State, op: Opcode, args: string)
    ensures op == VarRename ==> Replay.Dispatch(s, op, args) == Replay.VarRenameStep(s, args)
    ensures op == VarElim ==> Replay.Dispatch(s, op, args) == Replay.VarElimStep(s, args)
    ensures op == VarSubst ==> Replay.Dispatch(s, op, args) == Replay.VarSubstStep(s, args)
    ensures op == ClauseRemove ==> Replay.Dispatch(s, op, args) == Replay.ClauseRemoveStep(s, args)
    ensures op == ClauseAdd ==> Replay.Dispatch(s, op, args) == Replay.ClauseAddStep(s, args)
    ensures op == ClauseStrengthen ==> Replay.Dispatch(s, op, args) == Replay.ClauseStrengthenStep(s, args)
    ensures op == UnitDerive ==> Replay.Dispatch(s, op, args) == Replay.UnitDeriveStep(s, args)
  {
  }

  /** A parsed line is handed to the handler of its opcode. */
  lemma ApplyStepOf(s: Cnf.State, line: string, t: TransformStep)
    requires ParseTransformLine(line) == Ok(t)
    ensures Replay.ApplyStep(s, line) == Replay.Dispatch(s, t.opcode, t.args)
  {
  }

  /** The replay engine applies each generated line, stripped as it reads
      it, as the operation of the call that wrote it; only a substituted
      expression loses its trailing whitespace (and a substitution needs a
      variable the replay grammar's `\d+` can read). */
  lemma CallLineReplays(s: Cnf.State, n: nat, c: Call)
    requires Plain(c)
    requires c.Subst? ==> c.v >= 0
    ensures Replay.ReplayStep(s, CallLine(n, c)) == Ok(Replayed(s, Trimmed(c)))
    ensures !c.Subst? ==> Replay.ReplayStep(s, CallLine(n, c)) == Ok(Replayed(s, c))
  {
    CallLineParses(n, c);
    ApplyStepOf(s, Strip(CallLine(n, c)), TransformStep(n, OpcodeOfCall(c), RStrip(ArgsOf(c))));
    DispatchCall(s, c);
  }

  lemma DispatchCall(s: Cnf.State, c: Call)
    requires Plain(c)
    requires c.Subst? ==> c.v >= 0
    ensures Replay.Dispatch(s, OpcodeOfCall(c), RStrip(ArgsOf(c))) == Ok(Replayed(s, Trimmed(c)))
  {
    match c
    case Rename(_, _) => ArgsKept(c); RenameReplays(s, c);
    case Elim(v, reason) => ElimStripped(s, v, reason);
    case Subst(v, e) => SubstStripped(s, v as nat, e);
    case RemoveClause(id, reason) => RemoveStripped(s, id, reason);
    case AddClause(lits, source) => AddStripped(s, lits, source);
    case Strengthen(_, _) => ArgsKept(c); StrengthenReplays(s, c);
    case Unit(_, _) => ArgsKept(c); UnitReplays(s, c);
  }

  /** The arguments of the calls without free text end in a non-blank. */
  lemma ArgsKept(c: Call)
    requires c.Rename? || c.Strengthen? || c.Unit?
    ensures RStrip(ArgsOf(c)) == ArgsOf(c)
  {
    var args := ArgsOf(c);
    match c
    case Rename(_, b) =>
      IntTextPlain(b);
      assert args[|args| - 1] == IntToString(b)[|IntToString(b)| - 1];
    case Strengthen(_, _) =>
      assert args[|args| - 1] == ']';
    case Unit(_, src) =>
      IntTextPlain(src);
      assert args[|args| - 1] == IntToString(src)[|IntToString(src)| - 1];
  }

  // ---------------------------------------------------------------------
  // `compute_simplified_cnf`

  /** What a log line means to `compute_simplified_cnf`: a rename, an
      eliminated (or substituted) variable, a deleted clause id, or
      nothing. */
  datatype Effect = RenameTo(from: int, to: int) | Eliminate(v: int) | Delete(id: int) | NoEffect

  /** The reading of one line: `split(maxsplit=2)`, the opcode in the
      second field, the arguments in the third; `None` where Python
      raises (a missing field, or a text `int()` rejects). */
  function EffectOf(step: string): Option<Effect> {
    var parts := Split(step, 2);
    if |parts| < 2 then None
    else ReadArgs(OpcodeOf(parts[1]), if |parts| > 2 then parts[2] else "")
  }

  /** The arguments read for the opcode of a step; other opcodes, known or
      not, have no effect. */
  function ReadArgs(op: Option<Opcode>, args: string): Option<Effect> {
    match op
    case Some(VarRename) =>
      var ws := Words(args);
      if |ws| != 2 then None
      else
        var a :- ParseInt(ws[0]);
        var b :- ParseInt(ws[1]);
        Some(RenameTo(a, b))
    case Some(VarElim) =>
      var ws := Words(args);
      if ws == [] then None
      else
        var v :- ParseInt(ws[0]);
        Some(Eliminate(v))
    case Some(VarSubst) =>
      var v :- ParseInt(Strip(SplitOn(args, '=')[0]));
      Some(Eliminate(v))
    case Some(ClauseRemove) =>
      var ws := Words(args);
      if ws == [] then None
      else
        var id :- ParseInt(ws[0]);
        Some(Delete(id))
    case _ => Some(NoEffect)
  }

  /** The three tables the loop over the steps fills. */
  datatype Tables = Tables(clauseMap: map<int, seq<int>>, eliminated: set<int>, renamed: map<int, int>)

  /** `clause_map = {i+1: c ...}` with nothing eliminated or renamed. */
  function Initial(clauses: seq<seq<int>>): Tables {
    Tables(ById(clauses), {}, map[])
  }

  /** Each clause under its 1-based position. */
  function ById(clauses: seq<seq<int>>): map<int, seq<int>>
    decreases |clauses|
  {
    if clauses == [] then map[]
    else ById(clauses[..|clauses| - 1])[|clauses| := clauses[|clauses| - 1]]
  }

  function Track(t: Tables, e: Effect): Tables {
    match e
    case RenameTo(a, b) => t.(renamed := t.renamed[a := b])
    case Eliminate(v) => t.(eliminated := t.eliminated + {v})
    case Delete(id) => if id in t.clauseMap then t.(clauseMap := t.clauseMap - {id}) else t
    case NoEffect => t
  }

  /** The tables after the steps, or `None` when a step cannot be read. */
  function TrackAll(t: Tables, steps: seq<string>): Option<Tables>
    decreases |steps|
  {
    if steps == [] then Some(t)
    else
      var prev :- TrackAll(t, steps[..|steps| - 1]);
      var e :- EffectOf(steps[|steps| - 1]);
      Some(Track(prev, e))
  }

  /** `k` steps along the renames from `v`, stopping at a variable that is
      not renamed. */
  function Follow(m: map<int, int>, v: int, k: nat): int
    decreases k
  {
    if k == 0 || v !in m then v else Follow(m, m[v], k - 1)
  }

  /** The `while var in renamed` loop started at `v` ends: the chain leaves
      the table within as many steps as the table has entries
      (`LoopEnds` shows that no longer chain ever leaves it). */
  predicate Settles(m: map<int, int>, v: int) {
    Follow(m, v, |m|) !in m
  }

  /** The literal at `i` is reached by the loop over a clause: no literal up
      to it is eliminated. */
  predicate Reached(eliminated: set<int>, c: seq<int>, i: nat) {
    forall j :: 0 <= j <= i < |c| ==> Expr.Abs(c[j]) !in eliminated
  }

  /** The rename loop ends for every literal the loop over the clause
      reaches. */
  predicate ClauseSettles(eliminated: set<int>, renamed: map<int, int>, c: seq<int>) {
    forall i :: 0 <= i < |c| && Reached(eliminated, c, i) ==> Settles(renamed, Expr.Abs(c[i]))
  }

  /** The rename loop ends on every clause still in the map. */
  predicate TablesSettle(t: Tables) {
    forall id :: id in t.clauseMap ==> ClauseSettles(t.eliminated, t.renamed, t.clauseMap[id])
  }

  /** Where `while var in renamed: var = renamed[var]` ends. */
  function Resolve(m: map<int, int>, v: int): int {
    Follow(m, v, |m|)
  }

  /** A literal renamed: the resolved variable with the literal's sign. */
  function NewLit(m: map<int, int>, lit: int): int {
    var v := Resolve(m, Expr.Abs(lit));
    if lit > 0 then v else -v
  }

  /** A clause dropped for an eliminated variable (`None`), or renamed. */
  function Rewritten(eliminated: set<int>, renamed: map<int, int>, c: seq<int>): Option<seq<int>> {
    if exists i :: 0 <= i < |c| && Expr.Abs(c[i]) in eliminated then None
    else Some(seq(|c|, i requires 0 <= i < |c| => NewLit(renamed, c[i])))
  }

  /** The rewritten, non-empty clauses of the ids 1..n still in the map, by
      id: the dictionary's insertion order is by id and deletions keep it. */
  function Collect(t: Tables, n: nat): seq<seq<int>>
    decreases n
  {
    if n == 0 then []
    else
      var prev := Collect(t, n - 1);
      if n !in t.clauseMap then prev
      else
        match Rewritten(t.eliminated, t.renamed, t.clauseMap[n])
        case Some(c) => if c != [] then prev + [c] else prev
        case None => prev
  }

  /** Whether id `k` is still in the map and rewrites to a non-empty clause,
      so that it contributes one clause to the output. */
  predicate Survives(t: Tables, k: nat) {
    k in t.clauseMap &&
    var r := Rewritten(t.eliminated, t.renamed, t.clauseMap[k]);
    r.Some? && r.value != []
  }

  /** The ids among 1..n that survive, in increasing order. */
  function Survivors(t: Tables, n: nat): seq<nat>
    decreases n
  {
    if n == 0 then []
    else if Survives(t, n) then Survivors(t, n - 1) + [n]
    else Survivors(t, n - 1)
  }

  /** `compute_simplified_cnf`: the variable count and the clauses. */
  function SimplifiedCnf(clauses: seq<seq<int>>, steps: seq<string>): Option<(nat, seq<seq<int>>)> {
    var t :- TrackAll(Initial(clauses), steps);
    var out := Collect(t, |clauses|);
    Some((Cnf.MaxVar(out), out))
  }

  lemma FollowOut(m: map<int, int>, v: int, k: nat)
    requires v !in m
    ensures Follow(m, v, k) == v
  {
  }

  /** One more step along the renames. */
  lemma {:induction false} FollowNext(m: map<int, int>, v: int, k: nat)
    ensures Follow(m, v, k + 1) == if Follow(m, v, k) in m then m[Follow(m, v, k)] else Follow(m, v, k)
    decreases k
  {
    if k > 0 && v in m {
      FollowNext(m, m[v], k - 1);
    }
  }

  /** A chain that has left the table stays where it is. */
  lemma {:induction false} FollowStays(m: map<int, int>, v: int, j: nat, k: nat)
    requires j <= k && Follow(m, v, j) !in m
    ensures Follow(m, v, k) == Follow(m, v, j)
    decreases k - j
  {
    if j < k {
      FollowNext(m, v, j);
      FollowStays(m, v, j + 1, k);
    }
  }

  /** Where the loop ends, the renames end at a variable that is not
      renamed again; a variable that is not renamed resolves to itself, and
      the loop from a renamed one also ends from its new name, at the same
      place. */
  lemma ResolveFacts(m: map<int, int>, v: int)
    requires Settles(m, v)
    ensures Resolve(m, v) !in m
    ensures v !in m ==> Resolve(m, v) == v
    ensures v in m ==> Settles(m, m[v]) && Resolve(m, v) == Resolve(m, m[v])
  {
    if v !in m {
      FollowOut(m, v, |m|);
    } else {
      assert Follow(m, v, |m|) == Follow(m, m[v], |m| - 1);
      FollowStays(m, m[v], |m| - 1, |m|);
    }
  }

  /** `Settles` is exactly the termination of `while var in renamed`: the
      loop from `v` stops after some number of steps if and only if it
      stops within as many steps as the table has entries. */
  lemma LoopEnds(m: map<int, int>, v: int)
    ensures Settles(m, v) <==> exists k: nat :: Follow(m, v, k) !in m
  {
    if k: nat :| Follow(m, v, k) !in m {
      ChainLeaves(m, v, k);
    }
  }

  /** A chain that ever leaves the table leaves it within `|m|` steps: among
      its first `|m| + 1` variables two agree, and from there it repeats. */
  lemma {:induction false} ChainLeaves(m: map<int, int>, v: int, k: nat)
    requires Follow(m, v, k) !in m
    ensures Settles(m, v)
    decreases k
  {
    if k <= |m| {
      FollowStays(m, v, k, |m|);
    } else if !Settles(m, v) {
      var chain := seq(|m| + 1, i requires 0 <= i <= |m| => Follow(m, v, i));
      forall i | 0 <= i < |chain| ensures chain[i] in m.Keys {
        if chain[i] !in m {
          FollowStays(m, v, i, |m|);
        }
      }
      var i, j := Text.Pigeonhole(chain, m.Keys);
      FollowAdd(m, v, j, k - j);
      FollowAdd(m, v, i, k - j);
      ChainLeaves(m, v, i + (k - j));
    }
  }

  /** `a + b` steps are `a` steps and then `b` more. */
  lemma {:induction false} FollowAdd(m: map<int, int>, v: int, a: nat, b: nat)
    ensures Follow(m, v, a + b) == Follow(m, Follow(m, v, a), b)
    decreases a
  {
    if a > 0 && v in m {
      FollowAdd(m, m[v], a - 1, b);
    } else if a > 0 {
      FollowOut(m, v, b);
    }
  }

  /** The `while var in renamed` loop. */
  method FollowRenames(renamed: map<int, int>, start: int) returns (v: int)
    requires Settles(renamed, start)
    ensures v == Resolve(renamed, start)
  {
    v := start;
    ghost var k: nat := 0;
    while v in renamed
      invariant k <= |renamed| && v == Follow(renamed, start, k)
      decreases |renamed| - k
    {
      FollowNext(renamed, start, k);
      v := renamed[v];
      k := k + 1;
    }
    FollowStays(renamed, start, k, |renamed|);
  }

  /** The loop over the literals of one clause: it stops at the first
      eliminated variable, and otherwise renames every literal. */
  method RewriteClause(clause: seq<int>, eliminated: set<int>, renamed: map<int, int>) returns (r: Option<seq<int>>)
    requires ClauseSettles(eliminated, renamed, clause)
    ensures r == Rewritten(eliminated, renamed, clause)
  {
    var newClause := [];
    for j := 0 to |clause|
      invariant forall k :: 0 <= k < j ==> Expr.Abs(clause[k]) !in eliminated
      invariant newClause == seq(j, k requires 0 <= k < j => NewLit(renamed, clause[k]))
    {
      var lit := clause[j];
      if Expr.Abs(lit) in eliminated {
        return None;
      }
      assert Reached(eliminated, clause, j);
      var v := FollowRenames(renamed, Expr.Abs(lit));
      newClause := newClause + [if lit > 0 then v else -v];
    }
    return Some(newClause);
  }

  lemma TrackNext(t: Tables, steps: seq<string>, i: nat)
    requires i < |steps|
    ensures TrackAll(t, steps[..i + 1]) ==
      if TrackAll(t, steps[..i]).None? || EffectOf(steps[i]).None? then None
      else Some(Track(TrackAll(t, steps[..i]).value, EffectOf(steps[i]).value))
  {
    assert steps[..i + 1][..i] == steps[..i];
  }

  /** A step that cannot be read ends the computation. */
  lemma {:induction false} TrackStop(t: Tables, steps: seq<string>, i: nat)
    requires i <= |steps| && TrackAll(t, steps[..i]).None?
    ensures TrackAll(t, steps).None?
    decreases |steps| - i
  {
    if i < |steps| {
      TrackNext(t, steps, i);
      TrackStop(t, steps, i + 1);
    } else {
      assert steps[..i] == steps;
    }
  }

  /** The rename loop ends on every literal the clause loop reaches, when
      the steps can be read: exactly the runs of `compute_simplified_cnf`
      that end. */
  predicate RenamesSettle(clauses: seq<seq<int>>, steps: seq<string>) {
    TrackAll(Initial(clauses), steps).Some? ==> TablesSettle(TrackAll(Initial(clauses), steps).value)
  }

  /** The first loop of `compute_simplified_cnf`: `clause_map`,
      `eliminated` and `renamed` filled from the steps in order. */
  method TrackSteps(clauses: seq<seq<int>>, transformSteps: seq<string>) returns (r: Option<Tables>)
    ensures r == TrackAll(Initial(clauses), transformSteps)
  {
    var clauseMap := Initial(clauses).clauseMap;
    var eliminated: set<int> := {};
    var renamed: map<int, int> := map[];
    for i := 0 to |transformSteps|
      invariant TrackAll(Initial(clauses), transformSteps[..i]) == Some(Tables(clauseMap, eliminated, renamed))
    {
      TrackNext(Initial(clauses), transformSteps, i);
      var e := EffectOf(transformSteps[i]);
      if e.None? {
        TrackStop(Initial(clauses), transformSteps, i + 1);
        return None;
      }
      match e.value
      case RenameTo(a, b) => renamed := renamed[a := b];
      case Eliminate(v) => eliminated := eliminated + {v};
      case Delete(id) =>
        if id in clauseMap {
          clauseMap := clauseMap - {id};
        }
      case NoEffect =>
    }
    assert transformSteps[..|transformSteps|] == transformSteps;
    return Some(Tables(clauseMap, eliminated, renamed));
  }

  /** The second loop: the clauses still in the map, by id, rewritten, with
      the dropped and the empty ones left out. */
  method CollectClauses(t: Tables, n: nat) returns (simplified: seq<seq<int>>)
    requires TablesSettle(t)
    ensures simplified == Collect(t, n)
  {
    simplified := [];
    for id := 1 to n + 1
      invariant simplified == Collect(t, id - 1)
    {
      if id in t.clauseMap {
        var newClause := RewriteClause(t.clauseMap[id], t.eliminated, t.renamed);
        if newClause.Some? && newClause.value != [] {
          simplified := simplified + [newClause.value];
        }
      }
    }
  }

  // ---------------------------------------------------------------------
  // What `compute_simplified_cnf` reads from the generated lines

  /** The effect a call's line should have. */
  function EffectOfCall(c: Call): Effect {
    match c
    case Rename(a, b) => RenameTo(a, b)
    case Elim(v, _) => Eliminate(v)
    case Subst(v, _) => Eliminate(v)
    case RemoveClause(id, _) => Delete(id)
    case _ => NoEffect
  }

  lemma DigitsNoSpace(w: string)
    requires AllDigits(w)
    ensures forall i :: 0 <= i < |w| ==> !IsSpace(w[i])
  {
    assert forall i :: 0 <= i < |w| ==> IsDigit(w[i]);
  }

  lemma OpcodeNameNoSpace(op: Opcode)
    ensures OpcodeName(op) != []
    ensures forall i :: 0 <= i < |OpcodeName(op)| ==> !IsSpace(OpcodeName(op)[i])
  {
    OpcodeNameIsWord(op);
    var name := OpcodeName(op);
    forall i | 0 <= i < |name| ensures !IsSpace(name[i]) {
      WordNotSpace(name[i]);
    }
  }

  /** `step.split(maxsplit=2)` of a generated line: the step number, the
      opcode and the arguments. */
  lemma {:induction false} StepFields(n: nat, op: Opcode, args: string)
    requires args != [] && !IsSpace(args[0])
    ensures Split(StepLine(n, op, args), 2) == [NatToString(n), OpcodeName(op), args]
  {
    var w, name := NatToString(n), OpcodeName(op);
    var rest := name + (" " + args);
    assert StepLine(n, op, args) == w + (" " + rest);
    assert Split(w + (" " + rest), 2) == [w] + Split(rest, 1) by {
      DigitsNoSpace(w);
      SplitWordThen(w, rest, 2);
    }
    assert Split(rest, 1) == [name] + Split(args, 0) by {
      OpcodeNameNoSpace(op);
      SplitWordThen(name, args, 1);
    }
    assert Split(args, 0) == [args] by {
      SplitZero(args);
    }
    Three(w, name, args);
  }

  lemma EffectOfFields(step: string, n: nat, op: Opcode, args: string)
    requires Split(step, 2) == [NatToString(n), OpcodeName(op), args]
    ensures EffectOf(step) == ReadArgs(Some(op), args)
  {
    OpcodeNameOf(op);
  }

  /** `split("=")[0]` of a text with one `=` after a number and a blank. */
  lemma BeforeEquals(v: int, e: string)
    ensures Strip(SplitOn(IntToString(v) + (" " + ("=" + (" " + e))), '=')[0]) == IntToString(v)
  {
    var w := IntToString(v);
    var a := w + " ";
    assert w + (" " + ("=" + (" " + e))) == a + ("=" + (" " + e));
    assert forall i :: 0 <= i < |a| ==> a[i] != '=';
    SpanAll(a, "=" + (" " + e), NotChar('='));
    assert Span("=" + (" " + e), NotChar('=')) == 0;
    assert (a + ("=" + (" " + e)))[..|a|] == a;
    IntTextPlain(v);
    assert a[..|a| - 1] == w;
    StripKeeps(w);
  }

  lemma ReadRename(a: int, b: int)
    ensures ReadArgs(Some(VarRename), IntToString(a) + (" " + IntToString(b))) == Some(RenameTo(a, b))
  {
    TwoInts(a, b);
    IntToStringRoundTrip(a);
    IntToStringRoundTrip(b);
  }

  /** The first word of a number followed by a blank and any text. */
  lemma FirstWordInt(v: int, t: string)
    ensures Words(IntToString(v) + (" " + t)) != []
    ensures ParseInt(Words(IntToString(v) + (" " + t))[0]) == Some(v)
  {
    IntTextPlain(v);
    SplitWordSpace(IntToString(v), t);
    IntToStringRoundTrip(v);
  }

  lemma ReadElim(v: int, reason: string)
    ensures ReadArgs(Some(VarElim), IntToString(v) + (" " + reason)) == Some(Eliminate(v))
  {
    FirstWordInt(v, reason);
  }

  lemma ReadSubst(v: int, e: string)
    ensures ReadArgs(Some(VarSubst), IntToString(v) + (" " + ("=" + (" " + e)))) == Some(Eliminate(v))
  {
    BeforeEquals(v, e);
    IntToStringRoundTrip(v);
  }

  lemma ReadRemove(id: int, reason: string)
    ensures ReadArgs(Some(ClauseRemove), IntToString(id) + (" " + reason)) == Some(Delete(id))
  {
    FirstWordInt(id, reason);
  }

  lemma ReadCallArgs(c: Call)
    ensures ReadArgs(Some(OpcodeOfCall(c)), ArgsOf(c)) == Some(EffectOfCall(c))
  {
    match c
    case Rename(a, b) => ReadRename(a, b);
    case Elim(v, reason) => ReadElim(v, reason);
    case Subst(v, e) => ReadSubst(v, e);
    case RemoveClause(id, reason) => ReadRemove(id, reason);
    case _ =>
  }

  /** `compute_simplified_cnf` reads each generated line as the effect of
      the call that wrote it. */
  lemma CallEffect(n: nat, c: Call)
    requires Plain(c)
    ensures EffectOf(CallLine(n, c)) == Some(EffectOfCall(c))
  {
    ArgsPlain(c);
    StepFields(n, OpcodeOfCall(c), ArgsOf(c));
    EffectOfFields(CallLine(n, c), n, OpcodeOfCall(c), ArgsOf(c));
    ReadCallArgs(c);
  }

  // ---------------------------------------------------------------------
  // What the tables hold after the steps

  /** The tables after effects already read. */
  function TrackEffects(t: Tables, es: seq<Effect>): Tables
    decreases |es|
  {
    if es == [] then t else Track(TrackEffects(t, es[..|es| - 1]), es[|es| - 1])
  }

  /** Each step read. */
  predicate AllRead(steps: seq<string>) {
    forall i :: 0 <= i < |steps| ==> EffectOf(steps[i]).Some?
  }

  function EffectsOf(steps: seq<string>): (es: seq<Effect>)
    requires AllRead(steps)
    ensures |es| == |steps| && forall i :: 0 <= i < |steps| ==> EffectOf(steps[i]) == Some(es[i])
  {
    seq(|steps|, i requires 0 <= i < |steps| => EffectOf(steps[i]).value)
  }

  lemma AllReadSnoc(steps: seq<string>)
    requires steps != []
    ensures AllRead(steps) <==> AllRead(steps[..|steps| - 1]) && EffectOf(steps[|steps| - 1]).Some?
  {
    var p := steps[..|steps| - 1];
    assert forall i :: 0 <= i < |p| ==> p[i] == steps[i];
  }

  /** The steps give tables exactly when each of them can be read. */
  lemma {:induction false} TrackAllRead(t: Tables, steps: seq<string>)
    ensures TrackAll(t, steps).Some? <==> AllRead(steps)
    decreases |steps|
  {
    if steps != [] {
      TrackAllRead(t, steps[..|steps| - 1]);
      AllReadSnoc(steps);
    }
  }

  lemma TrackSnoc(t: Tables, steps: seq<string>)
    requires steps != []
    requires TrackAll(t, steps[..|steps| - 1]).Some? && EffectOf(steps[|steps| - 1]).Some?
    ensures TrackAll(t, steps) == Some(Track(TrackAll(t, steps[..|steps| - 1]).value, EffectOf(steps[|steps| - 1]).value))
  {
  }

  /** The tables of steps read as the given effects are those of the
      effects in order. */
  lemma {:induction false} TrackAllEffects(t: Tables, steps: seq<string>, es: seq<Effect>)
    requires |es| == |steps| && forall i :: 0 <= i < |steps| ==> EffectOf(steps[i]) == Some(es[i])
    ensures TrackAll(t, steps) == Some(TrackEffects(t, es))
    decreases |steps|
  {
    if steps != [] {
      var p, q := steps[..|steps| - 1], es[..|es| - 1];
      forall i | 0 <= i < |p| ensures EffectOf(p[i]) == Some(q[i]) {
        assert p[i] == steps[i] && q[i] == es[i];
      }
      TrackAllEffects(t, p, q);
      TrackSnoc(t, steps);
    }
  }

  /** Some effect deletes the clause with this id. */
  predicate DeletesId(es: seq<Effect>, id: int) {
    exists i :: 0 <= i < |es| && es[i] == Delete(id)
  }

  /** Some effect eliminates this variable. */
  predicate Eliminates(es: seq<Effect>, v: int) {
    exists i :: 0 <= i < |es| && es[i] == Eliminate(v)
  }

  predicate RenamesFrom(e: Effect, a: int) {
    e.RenameTo? && e.from == a
  }

  /** Some effect renames `a`. */
  predicate Renames(es: seq<Effect>, a: int) {
    exists i :: 0 <= i < |es| && RenamesFrom(es[i], a)
  }

  /** The last effect that renames `a` renames it to `b`. */
  predicate LastRename(es: seq<Effect>, a: int, b: int) {
    exists i :: 0 <= i < |es| && es[i] == RenameTo(a, b) &&
      forall j :: i < j < |es| ==> !RenamesFrom(es[j], a)
  }

  lemma {:induction false} InitialFacts(clauses: seq<seq<int>>)
    ensures forall k :: k in Initial(clauses).clauseMap <==> 1 <= k <= |clauses|
    ensures forall k :: k in Initial(clauses).clauseMap ==> Initial(clauses).clauseMap[k] == clauses[k - 1]
    decreases |clauses|
  {
    if clauses != [] {
      InitialFacts(clauses[..|clauses| - 1]);
    }
  }

  /** The clause map keeps exactly the ids of the input that no effect
      deletes, each with its original clause. */
  lemma {:induction false} TrackClauses(clauses: seq<seq<int>>, es: seq<Effect>)
    ensures forall k :: k in TrackEffects(Initial(clauses), es).clauseMap <==>
      1 <= k <= |clauses| && !DeletesId(es, k)
    ensures forall k :: k in TrackEffects(Initial(clauses), es).clauseMap ==>
      TrackEffects(Initial(clauses), es).clauseMap[k] == clauses[k - 1]
    decreases |es|
  {
    InitialFacts(clauses);
    if es != [] {
      var p := es[..|es| - 1];
      TrackClauses(clauses, p);
      forall k ensures DeletesId(es, k) <==> DeletesId(p, k) || es[|p|] == Delete(k) {
        if DeletesId(es, k) {
          var i :| 0 <= i < |es| && es[i] == Delete(k);
          if i < |p| {
            assert p[i] == es[i];
          }
        }
        if DeletesId(p, k) {
          var i :| 0 <= i < |p| && p[i] == Delete(k);
          assert p[i] == es[i];
        }
      }
    }
  }

  /** The eliminated set is exactly the variables some effect eliminates. */
  lemma {:induction false} TrackEliminated(clauses: seq<seq<int>>, es: seq<Effect>)
    ensures forall v :: v in TrackEffects(Initial(clauses), es).eliminated <==> Eliminates(es, v)
    decreases |es|
  {
    if es != [] {
      var p := es[..|es| - 1];
      TrackEliminated(clauses, p);
      forall v ensures Eliminates(es, v) <==> Eliminates(p, v) || es[|p|] == Eliminate(v) {
        if Eliminates(es, v) {
          var i :| 0 <= i < |es| && es[i] == Eliminate(v);
          if i < |p| {
            assert p[i] == es[i];
          }
        }
        if Eliminates(p, v) {
          var i :| 0 <= i < |p| && p[i] == Eliminate(v);
          assert p[i] == es[i];
        }
      }
    }
  }

  /** The rename table holds exactly the renamed variables, each mapped to
      the name its last rename gave it. */
  lemma {:induction false} TrackRenamed(clauses: seq<seq<int>>, es: seq<Effect>)
    ensures forall a :: a in TrackEffects(Initial(clauses), es).renamed <==> Renames(es, a)
    ensures forall a :: a in TrackEffects(Initial(clauses), es).renamed ==>
      LastRename(es, a, TrackEffects(Initial(clauses), es).renamed[a])
    decreases |es|
  {
    if es != [] {
      var p := es[..|es| - 1];
      var e := es[|p|];
      TrackRenamed(clauses, p);
      var m := TrackEffects(Initial(clauses), p).renamed;
      var m' := TrackEffects(Initial(clauses), es).renamed;
      forall a ensures Renames(es, a) <==> Renames(p, a) || RenamesFrom(e, a) {
        if Renames(es, a) {
          var i :| 0 <= i < |es| && RenamesFrom(es[i], a);
          if i < |p| {
            assert p[i] == es[i];
          }
        }
        if Renames(p, a) {
          var i :| 0 <= i < |p| && RenamesFrom(p[i], a);
          assert p[i] == es[i];
        }
      }
      forall a | a in m' ensures LastRename(es, a, m'[a]) {
        if RenamesFrom(e, a) {
          assert es[|p|] == RenameTo(a, m'[a]);
        } else {
          assert a in m && m'[a] == m[a];
          var i :| 0 <= i < |p| && p[i] == RenameTo(a, m[a]) &&
            forall j :: i < j < |p| ==> !RenamesFrom(p[j], a);
          assert p[i] == es[i];
          forall j | i < j < |es| ensures !RenamesFrom(es[j], a) {
            if j < |p| {
              assert p[j] == es[j];
            }
          }
        }
      }
    }
  }

  /** A rewritten clause keeps its length, and each literal's variable is
      the one its renames end at, which is not renamed again. */
  lemma RewrittenFacts(eliminated: set<int>, renamed: map<int, int>, c: seq<int>)
    requires ClauseSettles(eliminated, renamed, c)
    ensures Rewritten(eliminated, renamed, c).None? <==>
      exists i :: 0 <= i < |c| && Expr.Abs(c[i]) in eliminated
    ensures Rewritten(eliminated, renamed, c).Some? ==>
      var r := Rewritten(eliminated, renamed, c).value;
      |r| == |c| &&
      forall i :: 0 <= i < |c| ==>
        Resolve(renamed, Expr.Abs(c[i])) !in renamed &&
        (c[i] > 0 ==> r[i] == Resolve(renamed, Expr.Abs(c[i]))) &&
        (c[i] <= 0 ==> r[i] == -Resolve(renamed, Expr.Abs(c[i])))
  {
    if Rewritten(eliminated, renamed, c).Some? {
      forall i | 0 <= i < |c| ensures Resolve(renamed, Expr.Abs(c[i])) !in renamed {
        assert Reached(eliminated, c, i);
        ResolveFacts(renamed, Expr.Abs(c[i]));
      }
    }
  }

  /** The collected clauses are the non-empty rewritten clauses of the ids
      1..n still in the map. */
  lemma {:induction false} CollectMembers(t: Tables, n: nat)
    ensures forall c :: c in Collect(t, n) <==>
      exists k :: 1 <= k <= n && k in t.clauseMap && c != [] &&
        Rewritten(t.eliminated, t.renamed, t.clauseMap[k]) == Some(c)
    ensures |Collect(t, n)| <= n
    ensures var ids := Survivors(t, n);
      |ids| == |Collect(t, n)| &&
      (forall i, j :: 0 <= i < j < |ids| ==> ids[i] < ids[j]) &&
      (forall k :: k in ids <==> 1 <= k <= n && Survives(t, k)) &&
      (forall i :: 0 <= i < |ids| ==>
        ids[i] in t.clauseMap &&
        Rewritten(t.eliminated, t.renamed, t.clauseMap[ids[i]]) == Some(Collect(t, n)[i]))
    decreases n
  {
    if n > 0 {
      CollectMembers(t, n - 1);
      var ids := Survivors(t, n - 1);
      forall i | 0 <= i < |ids| ensures ids[i] < n {
        assert ids[i] in ids;
      }
      if Survives(t, n) {
        var c := Rewritten(t.eliminated, t.renamed, t.clauseMap[n]).value;
        assert Collect(t, n) == Collect(t, n - 1) + [c];
        assert Survivors(t, n) == ids + [n];
      }
    }
  }

  /** What `compute_simplified_cnf` outputs for the original `clauses` after
      effects `es`: exactly the non-empty rewrites of the clauses that no
      effect deletes, one entry per such id, in increasing id order. */
  ghost predicate SimplifiedOutput(clauses: seq<seq<int>>, es: seq<Effect>, out: seq<seq<int>>) {
    var t := TrackEffects(Initial(clauses), es);
    var ids := Survivors(t, |clauses|);
    (forall c :: c in out <==>
      exists k :: 1 <= k <= |clauses| && !DeletesId(es, k) && c != [] &&
        Rewritten(t.eliminated, t.renamed, clauses[k - 1]) == Some(c)) &&
    |ids| == |out| &&
    (forall i, j :: 0 <= i < j < |ids| ==> ids[i] < ids[j]) &&
    (forall k :: k in ids <==>
      1 <= k <= |clauses| && !DeletesId(es, k) &&
      var r := Rewritten(t.eliminated, t.renamed, clauses[k - 1]);
      r.Some? && r.value != []) &&
    (forall i :: 0 <= i < |ids| ==>
      1 <= ids[i] <= |clauses| &&
      Rewritten(t.eliminated, t.renamed, clauses[ids[i] - 1]) == Some(out[i]))
  }

  /** The clauses collected after effects `es` on the original clauses are
      the simplified output. */
  lemma CollectOriginal(clauses: seq<seq<int>>, es: seq<Effect>)
    ensures SimplifiedOutput(clauses, es, Collect(TrackEffects(Initial(clauses), es), |clauses|))
  {
    var t := TrackEffects(Initial(clauses), es);
    TrackClauses(clauses, es);
    CollectMembers(t, |clauses|);
    forall c ensures c in Collect(t, |clauses|) <==>
      exists k :: 1 <= k <= |clauses| && !DeletesId(es, k) && c != [] &&
        Rewritten(t.eliminated, t.renamed, clauses[k - 1]) == Some(c)
    {
      if c in Collect(t, |clauses|) {
        var k :| 1 <= k <= |clauses| && k in t.clauseMap && c != [] &&
          Rewritten(t.eliminated, t.renamed, t.clauseMap[k]) == Some(c);
        assert t.clauseMap[k] == clauses[k - 1];
      }
      if exists k :: 1 <= k <= |clauses| && !DeletesId(es, k) && c != [] &&
          Rewritten(t.eliminated, t.renamed, clauses[k - 1]) == Some(c)
      {
        var k :| 1 <= k <= |clauses| && !DeletesId(es, k) && c != [] &&
          Rewritten(t.eliminated, t.renamed, clauses[k - 1]) == Some(c);
        assert k in t.clauseMap;
      }
    }
  }

  /** `compute_simplified_cnf` fails exactly when a step cannot be read;
      otherwise its clauses are the simplified output for the effects of
      the steps, and its variable count is their largest variable. */
  lemma SimplifiedFacts(clauses: seq<seq<int>>, steps: seq<string>)
    ensures SimplifiedCnf(clauses, steps).Some? <==> AllRead(steps)
    ensures SimplifiedCnf(clauses, steps).Some? ==>
      SimplifiedOutput(clauses, EffectsOf(steps), SimplifiedCnf(clauses, steps).value.1)
    ensures SimplifiedCnf(clauses, steps).Some? ==>
      var (n, out) := SimplifiedCnf(clauses, steps).value;
      (forall v :: v in Cnf.VarsOf(out) ==> v <= n) && (Cnf.VarsOf(out) != {} ==> n in Cnf.VarsOf(out))
  {
    TrackAllRead(Initial(clauses), steps);
    if AllRead(steps) {
      var es := EffectsOf(steps);
      var t := TrackEffects(Initial(clauses), es);
      assert TrackAll(Initial(clauses), steps) == Some(t) by {
        TrackAllEffects(Initial(clauses), steps, es);
      }
      var out := Collect(t, |clauses|);
      assert SimplifiedCnf(clauses, steps) == Some((Cnf.MaxVar(out), out));
      CollectOriginal(clauses, es);
      Cnf.MaxVarBounds(out);
    }
  }

  /** No clause of the simplified formula is empty. */
  lemma SimplifiedNonEmpty(clauses: seq<seq<int>>, steps: seq<string>)
    requires SimplifiedCnf(clauses, steps).Some?
    ensures forall c :: c in SimplifiedCnf(clauses, steps).value.1 ==> c != []
  {
    var t := TrackAll(Initial(clauses), steps).value;
    CollectMembers(t, |clauses|);
  }

  // ---------------------------------------------------------------------
  // `compute_simplified_cnf` on a generated log

  /** The effects of a sequence of calls. */
  function CallEffects(calls: seq<Call>): (es: seq<Effect>)
    ensures |es| == |calls| && forall i :: 0 <= i < |calls| ==> es[i] == EffectOfCall(calls[i])
  {
    seq(|calls|, i requires 0 <= i < |calls| => EffectOfCall(calls[i]))
  }

  /** Every generated line can be read, as the effect of its call. */
  lemma GeneratedEffects(calls: seq<Call>)
    requires forall i :: 0 <= i < |calls| ==> Plain(calls[i])
    ensures AllRead(Lines(calls)) && EffectsOf(Lines(calls)) == CallEffects(calls)
  {
    forall i | 0 <= i < |calls| ensures EffectOf(Lines(calls)[i]) == Some(EffectOfCall(calls[i])) {
      CallEffect(i + 1, calls[i]);
    }
  }

  /** On a generated log the simplification never fails, and it works on
      the effects of the calls. */
  lemma GeneratedSimplified(clauses: seq<seq<int>>, calls: seq<Call>)
    requires forall i :: 0 <= i < |calls| ==> Plain(calls[i])
    ensures TrackAll(Initial(clauses), Lines(calls)) == Some(TrackEffects(Initial(clauses), CallEffects(calls)))
    ensures SimplifiedCnf(clauses, Lines(calls)).Some?
  {
    GeneratedEffects(calls);
    TrackAllEffects(Initial(clauses), Lines(calls), CallEffects(calls));
  }

  /** A rename cycle stops the computation only where the loop reaches it:
      after `add_var_rename(a, b)` and `add_var_rename(b, a)` a formula that
      mentions neither variable is still computed. */
  lemma UnreachedCycleAllowed(a: int, b: int, lit: int)
    requires a != b && Expr.Abs(lit) != a && Expr.Abs(lit) != b
    ensures RenamesSettle([[lit]], Lines([Rename(a, b), Rename(b, a)]))
  {
    var m := map[a := b, b := a];
    assert Settles(m, Expr.Abs(lit));
    assert ClauseSettles({}, m, [lit]);
    CycleTables(a, b, lit);
    assert TablesSettle(Tables(map[1 := [lit]], {}, m));
    var calls := [Rename(a, b), Rename(b, a)];
    assert Plain(calls[0]) && Plain(calls[1]);
    GeneratedSettle([[lit]], calls);
  }

  /** On a generated log, the loop ends when it ends on the tables the
      calls' effects fill. */
  lemma GeneratedSettle(clauses: seq<seq<int>>, calls: seq<Call>)
    requires forall i :: 0 <= i < |calls| ==> Plain(calls[i])
    requires TablesSettle(TrackEffects(Initial(clauses), CallEffects(calls)))
    ensures RenamesSettle(clauses, Lines(calls))
  {
    GeneratedSimplified(clauses, calls);
  }

  /** The loop from a variable on a two-variable cycle never ends. */
  lemma CycleNeverSettles(a: int, b: int)
    requires a != b
    ensures !Settles(map[a := b, b := a], a)
  {
    var m := map[a := b, b := a];
    assert m.Keys == {a, b};
    assert Follow(m, a, 2) == a;
  }

  /** The tables after the two renames of `UnreachedCycleAllowed`. */
  lemma CycleTables(a: int, b: int, lit: int)
    ensures TrackEffects(Initial([[lit]]), CallEffects([Rename(a, b), Rename(b, a)])) ==
      Tables(map[1 := [lit]], {}, map[a := b, b := a])
  {
    var es := CallEffects([Rename(a, b), Rename(b, a)]);
    assert es == [RenameTo(a, b), RenameTo(b, a)];
    assert es[..1] == [RenameTo(a, b)] && es[..1][..0] == [];
    assert ById([[lit]]) == map[1 := [lit]] by {
      assert [[lit]][..0] == [];
    }
    var t := Initial([[lit]]);
    assert TrackEffects(t, es[..1]) == t.(renamed := map[a := b]);
    assert TrackEffects(t, es) == Track(TrackEffects(t, es[..1]), RenameTo(b, a));
  }

  /** Added, strengthened and derived clauses are not part of the
      simplified formula: recording one leaves it as it was. */
  lemma IgnoredCall(clauses: seq<seq<int>>, calls: seq<Call>, c: Call)
    requires Plain(c) && (c.AddClause? || c.Strengthen? || c.Unit?)
    ensures SimplifiedCnf(clauses, Lines(calls + [c])) == SimplifiedCnf(clauses, Lines(calls))
  {
    LinesSnoc(calls, c);
    CallEffect(|calls| + 1, c);
    IgnoredStep(clauses, Lines(calls), CallLine(|calls| + 1, c));
  }

  /** A step read as having no effect leaves the simplified formula as it
      was. */
  lemma IgnoredStep(clauses: seq<seq<int>>, steps: seq<string>, line: string)
    requires EffectOf(line) == Some(NoEffect)
    ensures SimplifiedCnf(clauses, steps + [line]) == SimplifiedCnf(clauses, steps)
  {
    assert TrackAll(Initial(clauses), steps + [line]) == TrackAll(Initial(clauses), steps) by {
      SnocPrefix(steps, line);
    }
  }
}
