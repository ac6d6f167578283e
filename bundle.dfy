/** The bundle reader of src/sttf_core.py (class `STTFBundle`): the grammars
    of transform-log and reconstruct-map lines, the filter that skips blank
    and comment lines and tags a failure with its line number, the manifest
    check, the model lifter and the opcode summary.  Files are replaced by
    the sequences of lines they contain and the JSON manifest by a record. */
module Bundle {
  import opened Wrappers
  import opened Text
  import opened Expr

  // ---------------------------------------------------------------------
  // Pieces of regular expressions.  Every pattern the bundle uses places a
  // class next to a disjoint one (digits before blanks, blanks before a
  // word), so a greedy run is the only run that can lead to a match.

  predicate AllSpaces(s: string) {
    forall i :: 0 <= i < |s| ==> IsSpace(s[i])
  }

  predicate AllWordChars(s: string) {
    forall i :: 0 <= i < |s| ==> IsWordChar(s[i])
  }

  /** `\s*`: the text after the leading whitespace. */
  function Spaces0(s: string): (r: string)
    ensures |r| <= |s| && r == s[|s| - |r|..]
    ensures r == [] || !IsSpace(r[0])
  {
    s[Span(s, IsSpace)..]
  }

  /** `\s+`: at least one whitespace character, then the text after the run. */
  function Spaces1(s: string): (r: Option<string>)
    ensures r.Some? <==> s != [] && IsSpace(s[0])
    ensures r.Some? ==> r.value == Spaces0(s)
  {
    var n := Span(s, IsSpace);
    if n == 0 then None else Some(s[n..])
  }

  /** `(\d+)` followed by `int(...)`: the value of the digit run at the front
      and the text after it. */
  function Number(s: string): (r: Option<(nat, string)>)
    ensures r.Some? <==> s != [] && IsDigit(s[0])
    ensures r.Some? ==> |r.value.1| < |s| && (r.value.1 == [] || !IsDigit(r.value.1[0]))
  {
    var n := Span(s, IsDigit);
    if n == 0 then None
    else
      assert AllDigits(s[..n]) by {
        assert forall i :: 0 <= i < n ==> s[..n][i] == s[i];
      }
      Some((DigitsValue(s[..n]), s[n..]))
  }

  /** A literal piece of pattern text: the text after it, when `s` starts with it. */
  function Token(s: string, p: string): (r: Option<string>)
    ensures r.Some? <==> p <= s
    ensures r.Some? ==> s == p + r.value
  {
    if p <= s then Some(s[|p|..]) else None
  }

  // ---------------------------------------------------------------------
  // Transform-log lines: `<step> <opcode> <args>`

  /** The seven opcodes of the transformation log. */
  datatype Opcode =
    | VarRename | VarElim | VarSubst | ClauseRemove | ClauseAdd | ClauseStrengthen | UnitDerive

  function OpcodeName(op: Opcode): string {
    match op
    case VarRename => "var_rename"
    case VarElim => "var_elim"
    case VarSubst => "var_subst"
    case ClauseRemove => "clause_remove"
    case ClauseAdd => "clause_add"
    case ClauseStrengthen => "clause_strengthen"
    case UnitDerive => "unit_derive"
  }

  /** Membership in the set of valid opcode names. */
  function OpcodeOf(w: string): (r: Option<Opcode>)
    ensures r.Some? ==> OpcodeName(r.value) == w
  {
    if w == "var_rename" then Some(VarRename)
    else if w == "var_elim" then Some(VarElim)
    else if w == "var_subst" then Some(VarSubst)
    else if w == "clause_remove" then Some(ClauseRemove)
    else if w == "clause_add" then Some(ClauseAdd)
    else if w == "clause_strengthen" then Some(ClauseStrengthen)
    else if w == "unit_derive" then Some(UnitDerive)
    else None
  }

  /** The pieces `re.match(r"(\d+)\s+(\w+)\s+(.*)", line)` finds: the step
      digits, the blanks, the word, the blanks, and the text after them,
      whose part up to the first line feed is the third group. */
  datatype StepMatch = StepMatch(digits: string, gap1: string, word: string, gap2: string, tail: string)

  predicate WellFormed(sm: StepMatch) {
    && sm.digits != [] && AllDigits(sm.digits)
    && sm.gap1 != [] && AllSpaces(sm.gap1)
    && sm.word != [] && AllWordChars(sm.word)
    && sm.gap2 != [] && AllSpaces(sm.gap2)
    && (sm.tail == [] || !IsSpace(sm.tail[0]))
  }

  function Joined(sm: StepMatch): string {
    sm.digits + (sm.gap1 + (sm.word + (sm.gap2 + sm.tail)))
  }

  /** A greedy run of `p` at the front of `s`, and the text after it. */
  function Take(s: string, p: char -> bool): (r: (string, string))
    ensures r.0 + r.1 == s
    ensures forall i :: 0 <= i < |r.0| ==> p(r.0[i])
    ensures r.1 == [] || !p(r.1[0])
    ensures s != [] && p(s[0]) ==> r.0 != []
  {
    var n := Span(s, p);
    assert forall i :: 0 <= i < n ==> s[..n][i] == s[i];
    assert s[..n] + s[n..] == s;
    (s[..n], s[n..])
  }

  function MatchStep(line: string): (r: Option<StepMatch>)
    ensures r.Some? ==> WellFormed(r.value) && Joined(r.value) == line
  {
    var t1 := Take(line, IsDigit);
    var t2 := Take(t1.1, IsSpace);
    var t3 := Take(t2.1, IsWordChar);
    var t4 := Take(t3.1, IsSpace);
    if t1.0 == [] || t2.0 == [] || t3.0 == [] || t4.0 == [] then None
    else
      Some(StepMatch(t1.0, t2.0, t3.0, t4.0, t4.1))
  }

  /** One parsed transform step; the step number is kept but never checked. */
  datatype TransformStep = TransformStep(step: nat, opcode: Opcode, args: string)

  datatype ParseError =
    | BadTransformLine(line: string)   // not `<digits> <word> <rest>`
    | BadOpcode(name: string)          // a word that is not one of the seven opcodes
    | BadRevMap(line: string)
    | BadRevElim(line: string)
    | BadRevElimExpr(line: string)
    | BadRevClauseAdd(line: string)
    | BadRule(line: string)            // a reconstruct line with no known prefix

  /** `STTFBundle._parse_transform_line`. */
  function ParseTransformLine(line: string): Result<TransformStep, ParseError> {
    match MatchStep(line)
    case None => Err(BadTransformLine(line))
    case Some(sm) =>
      match OpcodeOf(sm.word)
      case None => Err(BadOpcode(sm.word))
      case Some(op) => Ok(TransformStep(DigitsValue(sm.digits), op, RestOfLine(sm.tail)))
  }

  /** The line `"<step> <opcode> <args>"` as a writer of the log formats it. */
  function StepLine(step: nat, op: Opcode, args: string): string {
    NatToString(step) + (" " + (OpcodeName(op) + (" " + args)))
  }

  // ---------------------------------------------------------------------
  // Reconstruct-map lines

  /** A reverse rule.  `RevMap(b, a)` is `rev_map b -> a`: variable `a` of the
      original formula takes the value of variable `b` of the simplified one. */
  datatype RevRule =
    | RevMap(b: nat, a: nat)
    | RevElim(v: nat, value: bool)
    | RevElimExpr(v: nat, expr: string)
    | RevClauseAdd(id: nat, lits: seq<int>)

  /** `kw\s+(\d+)`: a keyword, blanks, and a number; the number and the
      text after it. */
  function KeywordNumber(line: string, kw: string): Option<(nat, string)> {
    var s1 :- Token(line, kw);
    var s2 :- Spaces1(s1);
    Number(s2)
  }

  /** `\s*->\s*(\d+)`. */
  function Arrow(s: string): Option<nat> {
    var s1 :- Token(Spaces0(s), "->");
    var a :- Number(Spaces0(s1));
    Some(a.0)
  }

  /** `\s*=\s*`: the text after the equals sign and the blanks that follow it. */
  function EqualsSign(s: string): Option<string> {
    var s1 :- Token(Spaces0(s), "=");
    Some(Spaces0(s1))
  }

  /** `re.match(r"rev_map\s+(\d+)\s*->\s*(\d+)", line)`. */
  function MatchRevMap(line: string): Option<RevRule> {
    var b :- KeywordNumber(line, "rev_map");
    var a :- Arrow(b.1);
    Some(RevMap(b.0, a))
  }

  /** `re.match(r"rev_elim\s+(\d+)\s*=\s*(true|false)", line)`. */
  function MatchRevElim(line: string): Option<RevRule> {
    var v :- KeywordNumber(line, "rev_elim");
    var s :- EqualsSign(v.1);
    if "true" <= s then Some(RevElim(v.0, true))
    else if "false" <= s then Some(RevElim(v.0, false))
    else None
  }

  /** `re.match(r"rev_elim_expr\s+(\d+)\s*=\s*(.*)", line)`; the expression
      text is stored stripped, as `Expr(...)` does. */
  function MatchRevElimExpr(line: string): Option<RevRule> {
    var v :- KeywordNumber(line, "rev_elim_expr");
    var s :- EqualsSign(v.1);
    Some(RevElimExpr(v.0, Strip(RestOfLine(s))))
  }

  /** The last position of `c` in `s`. */
  function LastIndexOf(s: string, c: char): (r: Option<nat>)
    ensures r.Some? ==> r.value < |s| && s[r.value] == c
    ensures r.Some? ==> forall j :: r.value < j < |s| ==> s[j] != c
    ensures r.None? ==> forall j :: 0 <= j < |s| ==> s[j] != c
    decreases |s|
  {
    if s == [] then None
    else if s[|s| - 1] == c then Some(|s| - 1)
    else LastIndexOf(s[..|s| - 1], c)
  }

  /** `re.findall(r"-?\d+", s)` mapped through `int`: every maximal digit
      run, with a minus sign in front of it when there is one. */
  function FindInts(s: string): seq<int>
    decreases |s|
  {
    if s == [] then []
    else if IsDigit(s[0]) then
      var t := Take(s, IsDigit);
      [DigitsValue(t.0) as int] + FindInts(t.1)
    else if s[0] == '-' && |s| > 1 && IsDigit(s[1]) then
      var t := Take(s[1..], IsDigit);
      [0 - DigitsValue(t.0)] + FindInts(t.1)
    else FindInts(s[1..])
  }

  /** `\s+(\[.*\])`: the greedy `.*` reaches the last `]` of the line. */
  function Bracketed(s: string): Option<string> {
    var s1 :- Spaces1(s);
    var body := RestOfLine(s1);
    if body == [] || body[0] != '[' then None
    else
      var j :- LastIndexOf(body[1..], ']');
      Some(body[..j + 2])
  }

  /** `re.match(r"rev_clause_add\s+(\d+)\s+(\[.*\])", line)`, then the
      integers the brackets hold. */
  function MatchRevClauseAdd(line: string): Option<RevRule> {
    var id :- KeywordNumber(line, "rev_clause_add");
    var body :- Bracketed(id.1);
    Some(RevClauseAdd(id.0, FindInts(body)))
  }

  /** `STTFBundle._parse_reverse_line`: the prefixes are tried in this order,
      and only `rev_elim` is followed by a space in its test. */
  function ParseReverseLine(line: string): Result<RevRule, ParseError> {
    if "rev_map" <= line then Expect(MatchRevMap(line), BadRevMap(line))
    else if "rev_elim " <= line then Expect(MatchRevElim(line), BadRevElim(line))
    else if "rev_elim_expr" <= line then Expect(MatchRevElimExpr(line), BadRevElimExpr(line))
    else if "rev_clause_add" <= line then Expect(MatchRevClauseAdd(line), BadRevClauseAdd(line))
    else Err(BadRule(line))
  }

  function BoolText(c: bool): string {
    if c then "true" else "false"
  }

  /** The four rule lines as a writer of the map formats them. */
  function RevMapText(b: nat, a: nat): string {
    "rev_map" + (" " + (NatToString(b) + (" " + ("->" + (" " + NatToString(a))))))
  }

  function RevElimText(v: nat, c: bool): string {
    "rev_elim" + (" " + (NatToString(v) + (" " + ("=" + (" " + BoolText(c))))))
  }

  function RevElimExprText(v: nat, e: string): string {
    "rev_elim_expr" + (" " + (NatToString(v) + (" " + ("=" + (" " + e)))))
  }

  function RevClauseAddText(id: nat, lits: seq<int>): string {
    "rev_clause_add" + (" " + (NatToString(id) + (" " + ("[" + (IntsToString(lits) + "]")))))
  }

  // ---------------------------------------------------------------------
  // Facts about the line grammars

  lemma OpcodeNameOf(op: Opcode)
    ensures OpcodeOf(OpcodeName(op)) == Some(op)
  {
  }

  lemma OpcodeNameIsWord(op: Opcode)
    ensures OpcodeName(op) != [] && AllWordChars(OpcodeName(op))
  {
  }

  /** Word characters are never whitespace. */
  lemma WordNotSpace(c: char)
    requires IsWordChar(c)
    ensures !IsSpace(c)
  {
  }

  lemma TakeConcat(a: string, b: string, p: char -> bool)
    requires forall i :: 0 <= i < |a| ==> p(a[i])
    requires b == [] || !p(b[0])
    ensures Take(a + b, p) == (a, b)
  {
    SpanAll(a, b, p);
    assert (a + b)[..|a|] == a;
    assert (a + b)[|a|..] == b;
  }

  lemma TokenOf(p: string, x: string)
    ensures Token(p + x, p) == Some(x)
  {
    assert (p + x)[..|p|] == p;
    assert (p + x)[|p|..] == x;
  }

  lemma SpacesThen(g: string, b: string)
    requires AllSpaces(g)
    requires b == [] || !IsSpace(b[0])
    ensures Spaces0(g + b) == b
    ensures g != [] ==> Spaces1(g + b) == Some(b)
  {
    SpanAll(g, b, IsSpace);
    assert (g + b)[|g|..] == b;
  }

  lemma NumberOf(n: nat, b: string)
    requires b == [] || !IsDigit(b[0])
    ensures Number(NatToString(n) + b) == Some((n, b))
  {
    var d := NatToString(n);
    SpanAll(d, b, IsDigit);
    assert (d + b)[..|d|] == d;
    assert (d + b)[|d|..] == b;
    NatToStringRoundTrip(n);
  }

  /** The match of a line laid out as `<step> <word> <rest>` with single blanks. */
  lemma MatchCanonical(step: nat, w: string, rest: string)
    requires w != [] && AllWordChars(w)
    requires rest == [] || !IsSpace(rest[0])
    ensures MatchStep(NatToString(step) + (" " + (w + (" " + rest))))
         == Some(StepMatch(NatToString(step), " ", w, " ", rest))
  {
    var d := NatToString(step);
    var s4 := " " + rest;
    var s3 := w + s4;
    var s2 := " " + s3;
    assert s2[0] == ' ' && s3[0] == w[0] && s4[0] == ' ';
    TakeConcat(d, s2, IsDigit);
    WordNotSpace(w[0]);
    TakeConcat(" ", s3, IsSpace);
    TakeConcat(w, s4, IsWordChar);
    TakeConcat(" ", rest, IsSpace);
  }

  /** A log line written as `"<step> <opcode> <args>"` reads back as that
      step, for every step number: the number is never checked. */
  lemma TransformLineRoundTrip(step: nat, op: Opcode, args: string)
    requires '\n' !in args
    requires args == [] || !IsSpace(args[0])
    ensures ParseTransformLine(StepLine(step, op, args)) == Ok(TransformStep(step, op, args))
  {
    var name := OpcodeName(op);
    assert MatchStep(StepLine(step, op, args)) == Some(StepMatch(NatToString(step), " ", name, " ", args)) by {
      OpcodeNameIsWord(op);
      MatchCanonical(step, name, args);
    }
    assert OpcodeOf(name) == Some(op) by { OpcodeNameOf(op); }
    assert DigitsValue(NatToString(step)) == step by { NatToStringRoundTrip(step); }
    RestOfLineWhole(args);
  }

  lemma RestOfLineWhole(s: string)
    requires '\n' !in s
    ensures RestOfLine(s) == s
  {
  }

  /** A line parses only when it is a digit run, blanks, one of the seven
      opcode names, blanks and the arguments. */
  lemma TransformLineSound(line: string)
    requires ParseTransformLine(line).Ok?
    ensures var st := ParseTransformLine(line).value;
      exists sm :: WellFormed(sm) && Joined(sm) == line
        && sm.word == OpcodeName(st.opcode)
        && DigitsValue(sm.digits) == st.step
        && st.args <= sm.tail && '\n' !in st.args
  {
    var sm := MatchStep(line).value;
    assert WellFormed(sm) && Joined(sm) == line;
  }

  /** A well-formed line whose word is not an opcode name is rejected as such. */
  lemma UnknownOpcodeRejected(step: nat, w: string, args: string)
    requires w != [] && AllWordChars(w) && OpcodeOf(w).None?
    requires args == [] || !IsSpace(args[0])
    ensures ParseTransformLine(NatToString(step) + (" " + (w + (" " + args)))) == Err(BadOpcode(w))
  {
    MatchCanonical(step, w, args);
  }

  /** `\s+` after the opcode is required: a step with no argument text fails. */
  lemma MissingArgumentsRejected(step: nat, w: string)
    requires w != [] && AllWordChars(w)
    ensures var line := NatToString(step) + (" " + w);
      ParseTransformLine(line) == Err(BadTransformLine(line))
  {
    var d := NatToString(step);
    TakeConcat(d, " " + w, IsDigit);
    WordNotSpace(w[0]);
    TakeConcat(" ", w, IsSpace);
    assert w + [] == w;
    TakeConcat(w, [], IsWordChar);
  }

  /** A line that does not start with a digit is not a transform line. */
  lemma NoStepRejected(line: string)
    requires line == [] || !IsDigit(line[0])
    ensures ParseTransformLine(line) == Err(BadTransformLine(line))
  {
    assert line == [] + line;
    TakeConcat([], line, IsDigit);
  }

  lemma KeywordNumberOf(kw: string, n: nat, rest: string)
    requires rest == [] || !IsDigit(rest[0])
    ensures KeywordNumber(kw + (" " + (NatToString(n) + rest)), kw) == Some((n, rest))
  {
    var s2 := NatToString(n) + rest;
    TokenOf(kw, " " + s2);
    assert s2[0] == NatToString(n)[0];
    SpacesThen(" ", s2);
    NumberOf(n, rest);
  }

  lemma ArrowOf(a: nat)
    ensures Arrow(" " + ("->" + (" " + NatToString(a)))) == Some(a)
  {
    var as_ := NatToString(a);
    SpacesThen(" ", "->" + (" " + as_));
    TokenOf("->", " " + as_);
    SpacesThen(" ", as_);
    assert as_ + [] == as_;
    NumberOf(a, []);
  }

  lemma EqualsSignOf(x: string)
    requires x == [] || !IsSpace(x[0])
    ensures EqualsSign(" " + ("=" + (" " + x))) == Some(x)
  {
    SpacesThen(" ", "=" + (" " + x));
    TokenOf("=", " " + x);
    SpacesThen(" ", x);
  }

  lemma MatchRevMapOf(b: nat, a: nat)
    ensures MatchRevMap(RevMapText(b, a)) == Some(RevMap(b, a))
  {
    KeywordNumberOf("rev_map", b, " " + ("->" + (" " + NatToString(a))));
    ArrowOf(a);
  }

  /** `rev_map b -> a` reads back as the pair written. */
  lemma RevMapRoundTrip(b: nat, a: nat)
    ensures ParseReverseLine(RevMapText(b, a)) == Ok(RevMap(b, a))
  {
    var line := RevMapText(b, a);
    TokenOf("rev_map", line[7..]);
    MatchRevMapOf(b, a);
  }

  lemma BoolTextPrefix(c: bool)
    ensures ("true" <= BoolText(c)) == c
    ensures "false" <= BoolText(false)
  {
    if !c {
      assert BoolText(c)[0] != "true"[0];
    }
  }

  lemma MatchRevElimOf(v: nat, c: bool)
    ensures MatchRevElim(RevElimText(v, c)) == Some(RevElim(v, c))
  {
    var bt := BoolText(c);
    KeywordNumberOf("rev_elim", v, " " + ("=" + (" " + bt)));
    EqualsSignOf(bt);
    BoolTextPrefix(c);
  }

  /** `rev_elim v = true|false` yields the boolean written. */
  lemma RevElimRoundTrip(v: nat, c: bool)
    ensures ParseReverseLine(RevElimText(v, c)) == Ok(RevElim(v, c))
  {
    var line := RevElimText(v, c);
    assert line[4] == 'e';
    assert !("rev_map" <= line);
    assert "rev_elim " <= line;
    MatchRevElimOf(v, c);
  }

  lemma MatchRevElimExprOf(v: nat, e: string)
    requires '\n' !in e
    requires e == [] || !IsSpace(e[0])
    ensures MatchRevElimExpr(RevElimExprText(v, e)) == Some(RevElimExpr(v, Strip(e)))
  {
    KeywordNumberOf("rev_elim_expr", v, " " + ("=" + (" " + e)));
    EqualsSignOf(e);
    assert RestOfLine(e) == e;
  }

  /** `rev_elim_expr v = e` keeps the expression text, stripped. */
  lemma RevElimExprRoundTrip(v: nat, e: string)
    requires '\n' !in e
    requires e == [] || !IsSpace(e[0])
    ensures ParseReverseLine(RevElimExprText(v, e)) == Ok(RevElimExpr(v, Strip(e)))
  {
    var line := RevElimExprText(v, e);
    assert line[4] == 'e' && line[8] == '_';
    assert !("rev_map" <= line);
    assert !("rev_elim " <= line);
    TokenOf("rev_elim_expr", line[13..]);
    MatchRevElimExprOf(v, e);
  }

  lemma {:induction false} FindIntsSkips(a: string, b: string)
    requires forall i :: 0 <= i < |a| ==> !IsDigit(a[i]) && a[i] != '-'
    ensures FindInts(a + b) == FindInts(b)
    decreases |a|
  {
    if a == [] {
      assert a + b == b;
    } else {
      assert (a + b)[1..] == a[1..] + b;
      FindIntsSkips(a[1..], b);
    }
  }

  lemma FindIntsNat(n: nat, b: string)
    requires b == [] || !IsDigit(b[0])
    ensures FindInts(NatToString(n) + b) == [n] + FindInts(b)
  {
    var d := NatToString(n);
    assert (d + b)[0] == d[0];
    TakeConcat(d, b, IsDigit);
    NatToStringRoundTrip(n);
  }

  lemma FindIntsNegative(x: int, b: string)
    requires x < 0
    requires b == [] || !IsDigit(b[0])
    ensures FindInts("-" + (NatToString(-x) + b)) == [x] + FindInts(b)
  {
    var d := NatToString(-x);
    var s := "-" + (d + b);
    assert s[0] == '-' && s[1] == d[0];
    assert s[1..] == d + b;
    TakeConcat(d, b, IsDigit);
    NatToStringRoundTrip(-x);
    assert 0 - DigitsValue(d) == x;
  }

  lemma IntToStringNegative(x: int, b: string)
    requires x < 0
    ensures IntToString(x) + b == "-" + (NatToString(-x) + b)
  {
  }

  lemma FindIntsInt(x: int, b: string)
    requires b == [] || !IsDigit(b[0])
    ensures FindInts(IntToString(x) + b) == [x] + FindInts(b)
  {
    if x < 0 {
      IntToStringNegative(x, b);
      FindIntsNegative(x, b);
    } else {
      FindIntsNat(x, b);
    }
  }

  lemma {:induction false} FindIntsOfInts(xs: seq<int>, b: string)
    requires b == [] || !IsDigit(b[0])
    ensures FindInts(IntsToString(xs) + b) == xs + FindInts(b)
    decreases |xs|
  {
    if xs == [] {
      assert IntsToString(xs) + b == b;
    } else if |xs| == 1 {
      FindIntsInt(xs[0], b);
      assert xs == [xs[0]];
    } else {
      var rest := IntsToString(xs[1..]);
      var tail := FindInts(b);
      IntsToStringCons(xs, b);
      FindIntsInt(xs[0], " " + (rest + b));
      FindIntsSkips(" ", rest + b);
      FindIntsOfInts(xs[1..], b);
      ConsSplit(xs, tail);
    }
  }

  lemma IntsToStringCons(xs: seq<int>, b: string)
    requires |xs| > 1
    ensures IntsToString(xs) + b == IntToString(xs[0]) + (" " + (IntsToString(xs[1..]) + b))
  {
    var h := IntToString(xs[0]);
    var t := IntsToString(xs[1..]);
    assert IntsToString(xs) == h + (" " + t);
    ConcatAssoc(h, " " + t, b);
    ConcatAssoc(" ", t, b);
  }

  lemma LastCloseOf(x: string)
    requires ']' !in x
    ensures LastIndexOf(x + "]", ']') == Some(|x|)
  {
    assert (x + "]")[|x|] == ']';
  }

  lemma BracketedWhole(x: string)
    requires ']' !in x && '\n' !in x
    ensures Bracketed(" " + ("[" + (x + "]"))) == Some("[" + (x + "]"))
  {
    var body := "[" + (x + "]");
    SpacesThen(" ", body);
    assert '\n' !in body by {
      assert forall k :: 0 <= k < |body| ==> body[k] == '[' || body[k] == ']' || body[k] in x;
    }
    RestOfLineWhole(body);
    assert body[1..] == x + "]";
    LastCloseOf(x);
    assert body[..|x| + 2] == body;
  }

  lemma FindIntsBracketed(lits: seq<int>)
    ensures FindInts("[" + (IntsToString(lits) + "]")) == lits
  {
    var ls := IntsToString(lits);
    FindIntsSkips("[", ls + "]");
    FindIntsOfInts(lits, "]");
    assert "]" + [] == "]";
    FindIntsSkips("]", []);
    assert lits + [] == lits;
  }

  lemma BracketedInts(lits: seq<int>)
    ensures var body := "[" + (IntsToString(lits) + "]");
      Bracketed(" " + body) == Some(body) && FindInts(body) == lits
  {
    var ls := IntsToString(lits);
    assert ']' !in ls && '\n' !in ls by {
      assert forall k :: 0 <= k < |ls| ==> ls[k] != ']' && ls[k] != '\n';
    }
    BracketedWhole(ls);
    FindIntsBracketed(lits);
  }

  lemma MatchRevClauseAddOf(id: nat, lits: seq<int>)
    ensures MatchRevClauseAdd(RevClauseAddText(id, lits)) == Some(RevClauseAdd(id, lits))
  {
    var body := "[" + (IntsToString(lits) + "]");
    KeywordNumberOf("rev_clause_add", id, " " + body);
    BracketedInts(lits);
  }

  /** `rev_clause_add id [l1 ... lk]` yields the signed integers in the brackets. */
  lemma RevClauseAddRoundTrip(id: nat, lits: seq<int>)
    ensures ParseReverseLine(RevClauseAddText(id, lits)) == Ok(RevClauseAdd(id, lits))
  {
    var line := RevClauseAddText(id, lits);
    assert line[4] == 'c';
    assert !("rev_map" <= line);
    assert !("rev_elim " <= line);
    assert !("rev_elim_expr" <= line);
    TokenOf("rev_clause_add", line[14..]);
    MatchRevClauseAddOf(id, lits);
  }

  /** Only `rev_elim` is tested with a trailing blank: a `rev_elim` line whose
      number follows a tab matches none of the four prefixes and is rejected
      as an unknown rule, although its own pattern would accept it. */
  lemma RevElimNeedsBlank(c: char, rest: string)
    requires c != ' ' && c != '_'
    ensures var line := "rev_elim" + ([c] + rest);
      ParseReverseLine(line) == Err(BadRule(line))
  {
    var line := "rev_elim" + ([c] + rest);
    assert line[4] == 'e' && line[8] == c;
    assert !("rev_map" <= line);
    assert !("rev_elim " <= line);
    assert !("rev_elim_expr" <= line);
    assert !("rev_clause_add" <= line);
  }

  /** A line not starting with `rev_` is an unknown rule. */
  lemma UnknownRuleRejected(line: string)
    requires !("rev_" <= line)
    ensures ParseReverseLine(line) == Err(BadRule(line))
  {
    assert !("rev_map" <= line) by {
      if "rev_map" <= line { PrefixOfLonger("rev_", "rev_map", line); }
    }
    assert !("rev_elim " <= line) by {
      if "rev_elim " <= line { PrefixOfLonger("rev_", "rev_elim ", line); }
    }
    assert !("rev_elim_expr" <= line) by {
      if "rev_elim_expr" <= line { PrefixOfLonger("rev_", "rev_elim_expr", line); }
    }
    assert !("rev_clause_add" <= line) by {
      if "rev_clause_add" <= line { PrefixOfLonger("rev_", "rev_clause_add", line); }
    }
  }

  // ---------------------------------------------------------------------
  // Reading a file of lines

  /** The filter of `_load`: a line that is blank or a comment once stripped. */
  predicate Skipped(line: string) {
    var t := Strip(line);
    t == [] || t[0] == '#'
  }

  /** What reading one file yields: the items parsed, in file order, and the
      first failure with its 1-based line number, after which nothing more
      is read. */
  datatype Scan<T> = Scan(items: seq<T>, failure: Option<(nat, ParseError)>)

  /** The stripped lines that are neither blank nor comments. */
  function Relevant(lines: seq<string>): seq<string>
    decreases |lines|
  {
    if lines == [] then []
    else
      var prev := Relevant(lines[..|lines| - 1]);
      var last := lines[|lines| - 1];
      if Skipped(last) then prev else prev + [Strip(last)]
  }

  /** One file of `_load`: every line is stripped, blank and `#` lines are
      skipped, and the others are parsed until one fails. */
  function ParseLines<T>(lines: seq<string>, parse: string -> Result<T, ParseError>): (r: Scan<T>)
    ensures r.failure.Some? ==> 1 <= r.failure.value.0 <= |lines|
    decreases |lines|
  {
    if lines == [] then Scan([], None)
    else
      var n := |lines|;
      var prev := ParseLines(lines[..n - 1], parse);
      var last := lines[n - 1];
      if prev.failure.Some? || Skipped(last) then prev
      else
        match parse(Strip(last))
        case Ok(x) => Scan(prev.items + [x], None)
        case Err(e) => Scan(prev.items, Some((n, e)))
  }

  /** Reading one more line, while nothing has failed yet. */
  lemma ParseLinesStep<T>(lines: seq<string>, i: nat, parse: string -> Result<T, ParseError>)
    requires i < |lines| && ParseLines(lines[..i], parse).failure.None?
    ensures Skipped(lines[i]) ==> ParseLines(lines[..i + 1], parse) == ParseLines(lines[..i], parse)
    ensures !Skipped(lines[i]) && parse(Strip(lines[i])).Ok? ==>
      ParseLines(lines[..i + 1], parse)
        == Scan(ParseLines(lines[..i], parse).items + [parse(Strip(lines[i])).value], None)
  {
    assert lines[..i + 1][..i] == lines[..i];
  }

  /** Every line that is not skipped, among the first `k`, parses. */
  predicate ParsesUpTo<T>(lines: seq<string>, k: int, parse: string -> Result<T, ParseError>)
    requires k <= |lines|
  {
    forall j :: 0 <= j < k && !Skipped(lines[j]) ==> parse(Strip(lines[j])).Ok?
  }

  /** A file is read without failure exactly when every relevant line parses. */
  lemma {:induction false} ParseLinesSucceedsIff<T>(lines: seq<string>, parse: string -> Result<T, ParseError>)
    ensures ParseLines(lines, parse).failure.None? <==> ParsesUpTo(lines, |lines|, parse)
    decreases |lines|
  {
    if lines != [] {
      var n := |lines|;
      var prefix := lines[..n - 1];
      ParseLinesSucceedsIff(prefix, parse);
      assert forall j :: 0 <= j < n - 1 ==> prefix[j] == lines[j];
    }
  }

  /** Without a failure, the items are the parses of the relevant lines, in
      order. */
  lemma {:induction false} ParseLinesItems<T>(lines: seq<string>, parse: string -> Result<T, ParseError>)
    requires ParseLines(lines, parse).failure.None?
    ensures |ParseLines(lines, parse).items| == |Relevant(lines)|
    ensures forall i :: 0 <= i < |Relevant(lines)| ==>
      parse(Relevant(lines)[i]) == Ok(ParseLines(lines, parse).items[i])
    decreases |lines|
  {
    if lines != [] {
      ParseLinesItems(lines[..|lines| - 1], parse);
    }
  }

  /** A failure names the first relevant line that does not parse, and the
      error it gives. */
  lemma {:induction false} ParseLinesFailure<T>(lines: seq<string>, parse: string -> Result<T, ParseError>)
    requires ParseLines(lines, parse).failure.Some?
    ensures var (k, e) := ParseLines(lines, parse).failure.value;
      && !Skipped(lines[k - 1]) && parse(Strip(lines[k - 1])) == Err(e)
      && ParsesUpTo(lines, k - 1, parse)
    decreases |lines|
  {
    var n := |lines|;
    var prefix := lines[..n - 1];
    assert forall j :: 0 <= j < n - 1 ==> prefix[j] == lines[j];
    if ParseLines(prefix, parse).failure.Some? {
      ParseLinesFailure(prefix, parse);
    } else {
      ParseLinesSucceedsIff(prefix, parse);
    }
  }

  // ---------------------------------------------------------------------
  // The manifest

  /** A count record of the manifest: the keys it has, and the two numbers
      (meaningful only when their keys are present). */
  datatype Counts = Counts(keys: set<string>, variables: int, clauses: int)

  /** The decoded `manifest.json`: its top-level keys and the two count
      records under `original` and `simplified`. */
  datatype Manifest = Manifest(keys: set<string>, original: Counts, simplified: Counts)

  datatype ManifestProblem =
    | MissingKey(key: string)
    | OriginalIncomplete
    | SimplifiedIncomplete
    | InvalidOriginal
    | InvalidSimplified

  const RequiredKeys: seq<string> := ["version", "generator", "original", "simplified"]

  /** The first of `keys`, in order, that is not present. */
  function FirstMissing(keys: seq<string>, present: set<string>): (r: Option<string>)
    ensures r.Some? ==> exists i :: 0 <= i < |keys| && keys[i] == r.value && r.value !in present &&
                                     forall j :: 0 <= j < i ==> keys[j] in present
    ensures r.None? <==> forall i :: 0 <= i < |keys| ==> keys[i] in present
    decreases |keys|
  {
    if keys == [] then None
    else if keys[0] !in present then Some(keys[0])
    else
      var r := FirstMissing(keys[1..], present);
      assert r.Some? ==> exists i :: 0 <= i < |keys| && keys[i] == r.value && r.value !in present &&
                                       forall j :: 0 <= j < i ==> keys[j] in present by {
        if r.Some? {
          var i :| 0 <= i < |keys[1..]| && keys[1..][i] == r.value && r.value !in present
            && forall j :: 0 <= j < i ==> keys[1..][j] in present;
          assert keys[i + 1] == r.value;
          assert forall j :: 1 <= j < i + 1 ==> keys[j] == keys[1..][j - 1];
        }
      }
      r
  }

  predicate Complete(c: Counts) {
    "variables" in c.keys && "clauses" in c.keys
  }

  predicate Positive(c: Counts) {
    c.variables > 0 && c.clauses > 0
  }

  /** `STTFBundle._validate_manifest`, reporting its problems in the order
      the source tests them. */
  function ValidateManifest(m: Manifest): Outcome<ManifestProblem> {
    match FirstMissing(RequiredKeys, m.keys)
    case Some(k) => Fail(MissingKey(k))
    case None =>
      if !Complete(m.original) then Fail(OriginalIncomplete)
      else if !Complete(m.simplified) then Fail(SimplifiedIncomplete)
      else if !Positive(m.original) then Fail(InvalidOriginal)
      else if !Positive(m.simplified) then Fail(InvalidSimplified)
      else Pass
  }

  predicate ManifestValid(m: Manifest) {
    && "version" in m.keys && "generator" in m.keys
    && "original" in m.keys && "simplified" in m.keys
    && Complete(m.original) && Complete(m.simplified)
    && Positive(m.original) && Positive(m.simplified)
  }

  /** The manifest passes exactly when the four keys are present, both count
      records are complete and all four counts are positive. */
  lemma ManifestValidIff(m: Manifest)
    ensures ValidateManifest(m) == Pass <==> ManifestValid(m)
  {
    var r := FirstMissing(RequiredKeys, m.keys);
    assert r.None? <==> forall i :: 0 <= i < 4 ==> RequiredKeys[i] in m.keys;
  }

  /** A missing key is reported before any problem with the counts. */
  lemma MissingKeyFirst(m: Manifest)
    requires "version" !in m.keys
    ensures ValidateManifest(m) == Fail(MissingKey("version"))
  {
    assert RequiredKeys[0] == "version";
  }

  // ---------------------------------------------------------------------
  // Loading a bundle

  datatype LoadError =
    | TransformLogError(line: nat, cause: ParseError)
    | ReconstructMapError(line: nat, cause: ParseError)
    | ManifestError(problem: ManifestProblem)

  /** The verdict of `_load`: the transform log is read first, then the
      reconstruct map, then the manifest is checked. */
  function LoadOutcome(logLines: seq<string>, mapLines: seq<string>, data: Manifest): Outcome<LoadError> {
    var log := ParseLines(logLines, ParseTransformLine);
    var rev := ParseLines(mapLines, ParseReverseLine);
    if log.failure.Some? then Fail(TransformLogError(log.failure.value.0, log.failure.value.1))
    else if rev.failure.Some? then Fail(ReconstructMapError(rev.failure.value.0, rev.failure.value.1))
    else
      match ValidateManifest(data)
      case Fail(p) => Fail(ManifestError(p))
      case Pass => Pass
  }

  /** A bundle loads exactly when every relevant line of both files parses
      and the manifest is valid. */
  lemma LoadPassesIff(logLines: seq<string>, mapLines: seq<string>, data: Manifest)
    ensures LoadOutcome(logLines, mapLines, data) == Pass <==>
      && ParsesUpTo(logLines, |logLines|, ParseTransformLine)
      && ParsesUpTo(mapLines, |mapLines|, ParseReverseLine)
      && ManifestValid(data)
  {
    ManifestValidIff(data);
    ParseLinesSucceedsIff(logLines, ParseTransformLine);
    ParseLinesSucceedsIff(mapLines, ParseReverseLine);
  }

  // ---------------------------------------------------------------------
  // Lifting a model of the simplified formula to the original one

  /** The variable a rule may write. */
  function Writes(rule: RevRule): Option<nat> {
    match rule
    case RevMap(_, a) => Some(a)
    case RevElim(v, _) => Some(v)
    case RevElimExpr(v, _) => Some(v)
    case RevClauseAdd(_, _) => None
  }

  /** One step of `lift_model`'s loop. */
  function ApplyRule(rule: RevRule, m: Model): Result<Model, EvalError> {
    match rule
    case RevMap(b, a) => if b in m then Ok(m[a := m[b]]) else Ok(m)
    case RevElim(v, c) => Ok(m[v := c])
    case RevElimExpr(v, e) =>
      var x :- Eval(e, m);
      Ok(m[v := x])
    case RevClauseAdd(_, _) => Ok(m)
  }

  /** `lift_model`: the rules applied in file order to a copy of the model;
      an expression that cannot be evaluated aborts the lift. */
  function Lift(rules: seq<RevRule>, m: Model): Result<Model, EvalError>
    decreases |rules|
  {
    if rules == [] then Ok(m)
    else
      var m' :- Lift(rules[..|rules| - 1], m);
      ApplyRule(rules[|rules| - 1], m')
  }

  /** A rule deletes nothing, and changes no variable but the one it writes. */
  lemma ApplyRuleFrame(rule: RevRule, m: Model)
    requires ApplyRule(rule, m).Ok?
    ensures var m' := ApplyRule(rule, m).value;
      && m.Keys <= m'.Keys
      && (forall v :: v in m' && v !in m ==> Writes(rule) == Some(v))
      && (forall v :: v in m && Writes(rule) != Some(v) ==> m'[v] == m[v])
  {
  }

  /** `rev_map b -> a` copies `b`'s current value to `a` when `b` has one,
      and otherwise changes nothing. */
  lemma RevMapEffect(b: nat, a: nat, m: Model)
    ensures ApplyRule(RevMap(b, a), m).Ok?
    ensures b in m ==> var m' := ApplyRule(RevMap(b, a), m).value;
      m'[a] == m[b] && m'.Keys == m.Keys + {a}
    ensures b !in m ==> ApplyRule(RevMap(b, a), m) == Ok(m)
  {
  }

  /** `rev_elim v = c` sets `v` to `c` whatever it held before. */
  lemma RevElimEffect(v: nat, c: bool, m: Model)
    ensures ApplyRule(RevElim(v, c), m).Ok?
    ensures var m' := ApplyRule(RevElim(v, c), m).value;
      m'[v] == c && m'.Keys == m.Keys + {v}
  {
  }

  /** `rev_elim_expr v = e` sets `v` to the value of `e` on the model built
      so far, and fails exactly when that evaluation fails. */
  lemma RevElimExprEffect(v: nat, e: string, m: Model)
    ensures ApplyRule(RevElimExpr(v, e), m).Err? <==> Eval(e, m).Err?
    ensures Eval(e, m).Err? ==> ApplyRule(RevElimExpr(v, e), m) == Err(Eval(e, m).error)
    ensures Eval(e, m).Ok? ==> var m' := ApplyRule(RevElimExpr(v, e), m).value;
      m'[v] == Eval(e, m).value && m'.Keys == m.Keys + {v}
  {
  }

  /** `rev_clause_add` leaves the model as it is. */
  lemma RevClauseAddEffect(id: nat, lits: seq<int>, m: Model)
    ensures ApplyRule(RevClauseAdd(id, lits), m) == Ok(m)
  {
  }

  /** Lifting over two runs of rules is lifting over the first, then over
      the second from where the first stopped. */
  lemma {:induction false} LiftAppend(r1: seq<RevRule>, r2: seq<RevRule>, m: Model)
    ensures Lift(r1 + r2, m) == (match Lift(r1, m) case Err(e) => Err(e) case Ok(m1) => Lift(r2, m1))
    decreases |r2|
  {
    if r2 == [] {
      assert r1 + r2 == r1;
    } else {
      var n := |r2|;
      assert (r1 + r2)[..|r1 + r2| - 1] == r1 + r2[..n - 1];
      assert (r1 + r2)[|r1 + r2| - 1] == r2[n - 1];
      LiftAppend(r1, r2[..n - 1], m);
    }
  }

  /** Once a rule fails, the lift fails with that rule's error. */
  lemma LiftStops(rules: seq<RevRule>, i: nat, m: Model)
    requires i < |rules| && Lift(rules[..i + 1], m).Err?
    ensures Lift(rules, m) == Lift(rules[..i + 1], m)
  {
    LiftAppend(rules[..i + 1], rules[i + 1..], m);
    assert rules[..i + 1] + rules[i + 1..] == rules;
  }

  /** No rule deletes a variable: every key of the input model is in the
      lifted one. */
  lemma {:induction false} LiftKeepsKeys(rules: seq<RevRule>, m: Model)
    requires Lift(rules, m).Ok?
    ensures m.Keys <= Lift(rules, m).value.Keys
    decreases |rules|
  {
    if rules != [] {
      var prefix := rules[..|rules| - 1];
      LiftKeepsKeys(prefix, m);
      ApplyRuleFrame(rules[|rules| - 1], Lift(prefix, m).value);
    }
  }

  /** A variable no rule writes keeps its value, or stays undefined. */
  lemma {:induction false} LiftUntouched(rules: seq<RevRule>, m: Model, v: nat)
    requires Lift(rules, m).Ok?
    requires forall i :: 0 <= i < |rules| ==> Writes(rules[i]) != Some(v)
    ensures v in m ==> v in Lift(rules, m).value && Lift(rules, m).value[v] == m[v]
    ensures v !in m ==> v !in Lift(rules, m).value
    decreases |rules|
  {
    if rules != [] {
      var prefix := rules[..|rules| - 1];
      assert forall i :: 0 <= i < |prefix| ==> prefix[i] == rules[i];
      LiftUntouched(prefix, m, v);
      ApplyRuleFrame(rules[|rules| - 1], Lift(prefix, m).value);
    }
  }

  /** An expression rule that reads a variable nothing has defined yet (a
      forward reference) makes the whole lift fail. */
  lemma ForwardReference(rules: seq<RevRule>, m: Model, v: nat, w: int)
    requires Lift(rules, m).Ok? && Abs(w) !in Lift(rules, m).value
    ensures Lift(rules + [RevElimExpr(v, IntToString(w))], m) == Err(UndefinedVariable(Abs(w)))
  {
    var rs := rules + [RevElimExpr(v, IntToString(w))];
    assert rs[..|rs| - 1] == rules;
    EvalLiteralText(w, Lift(rules, m).value);
  }

  /** An expression rule written from a formula gives its variable the
      formula's truth value on the model built so far. */
  lemma SubstitutionLifts(v: nat, f: Formula, m: Model)
    ensures Lift([RevElimExpr(v, Render(f))], m)
         == (match Denote(f, m) case Err(e) => Err(e) case Ok(x) => Ok(m[v := x]))
  {
    var rs := [RevElimExpr(v, Render(f))];
    assert rs[..0] == [];
    EvalRender(f, m);
  }

  // ---------------------------------------------------------------------
  // The transform summary

  function Get(c: map<Opcode, nat>, op: Opcode): nat {
    if op in c then c[op] else 0
  }

  /** The `opcodes` table of `get_transform_summary`: how often each opcode
      occurs, with a key only for the opcodes that do occur. */
  function OpcodeCounts(steps: seq<TransformStep>): map<Opcode, nat>
    decreases |steps|
  {
    if steps == [] then map[]
    else
      var c := OpcodeCounts(steps[..|steps| - 1]);
      var op := steps[|steps| - 1].opcode;
      c[op := Get(c, op) + 1]
  }

  /** The number of steps with the given opcode, counted from the front. */
  function Occurrences(steps: seq<TransformStep>, op: Opcode): nat
    decreases |steps|
  {
    if steps == [] then 0
    else (if steps[0].opcode == op then 1 else 0) + Occurrences(steps[1..], op)
  }

  /** The sum of a table over the seven opcodes. */
  function Total(c: map<Opcode, nat>): nat {
    Get(c, VarRename) + Get(c, VarElim) + Get(c, VarSubst) + Get(c, ClauseRemove)
      + Get(c, ClauseAdd) + Get(c, ClauseStrengthen) + Get(c, UnitDerive)
  }

  lemma {:induction false} OccurrencesSnoc(steps: seq<TransformStep>, s: TransformStep, op: Opcode)
    ensures Occurrences(steps + [s], op) == Occurrences(steps, op) + (if s.opcode == op then 1 else 0)
    decreases |steps|
  {
    if steps == [] {
      assert [] + [s] == [s];
      assert [s][1..] == [];
    } else {
      assert (steps + [s])[1..] == steps[1..] + [s];
      OccurrencesSnoc(steps[1..], s, op);
    }
  }

  /** Each entry of the table is the number of occurrences of its opcode,
      and an opcode has an entry exactly when it occurs. */
  lemma {:induction false} CountsAreOccurrences(steps: seq<TransformStep>, op: Opcode)
    ensures Get(OpcodeCounts(steps), op) == Occurrences(steps, op)
    ensures op in OpcodeCounts(steps) <==> Occurrences(steps, op) > 0
    decreases |steps|
  {
    if steps != [] {
      var prefix := steps[..|steps| - 1];
      CountsAreOccurrences(prefix, op);
      assert prefix + [steps[|steps| - 1]] == steps;
      OccurrencesSnoc(prefix, steps[|steps| - 1], op);
    }
  }

  /** The opcode counts add up to the number of steps. */
  lemma {:induction false} CountsSum(steps: seq<TransformStep>)
    ensures Total(OpcodeCounts(steps)) == |steps|
    decreases |steps|
  {
    if steps != [] {
      CountsSum(steps[..|steps| - 1]);
      TotalBump(OpcodeCounts(steps[..|steps| - 1]), steps[|steps| - 1].opcode);
    }
  }

  lemma TotalBump(c: map<Opcode, nat>, op: Opcode)
    ensures Total(c[op := Get(c, op) + 1]) == Total(c) + 1
  {
    var c' := c[op := Get(c, op) + 1];
    assert forall o :: o != op ==> Get(c', o) == Get(c, o);
    assert Get(c', op) == Get(c, op) + 1;
  }

  /** What `get_transform_summary` returns. */
  datatype Summary = Summary(
    totalSteps: nat,
    opcodes: map<Opcode, nat>,
    reverseRules: nat,
    originalVars: int,
    originalClauses: int,
    simplifiedVars: int,
    simplifiedClauses: int)

  // ---------------------------------------------------------------------
  // The bundle object

  /** The line loop of `_load` for one file: strip each line, skip blanks
      and comments, parse the rest, and stop at the first line that fails,
      keeping what was parsed before it. */
  method ReadLines<T>(lines: seq<string>, parse: string -> Result<T, ParseError>) returns (r: Scan<T>)
    ensures r == ParseLines(lines, parse)
  {
    var items: seq<T> := [];
    var i := 0;
    while i < |lines|
      invariant 0 <= i <= |lines|
      invariant ParseLines(lines[..i], parse) == Scan(items, None)
    {
      ParseLinesStep(lines, i, parse);
      var line := Strip(lines[i]);
      if line != [] && line[0] != '#' {
        var parsed := parse(line);
        if parsed.Err? {
          LogFailureStops(lines, i, parse);
          return Scan(items, Some((i + 1, parsed.error)));
        }
        items := items + [parsed.value];
      }
      i := i + 1;
    }
    assert lines[..i] == lines;
    return Scan(items, None);
  }

  /** `STTFBundle` without its file names: the steps and rules read so far
      and the manifest. */
  class SttfBundle {
    var transformSteps: seq<TransformStep>
    var revRules: seq<RevRule>
    var manifest: Manifest

    constructor ()
      ensures transformSteps == [] && revRules == []
      ensures manifest == Manifest({}, Counts({}, 0, 0), Counts({}, 0, 0))
    {
      transformSteps := [];
      revRules := [];
      manifest := Manifest({}, Counts({}, 0, 0), Counts({}, 0, 0));
    }

    /** `_load`: appends the steps of the transform log, then (when the log
        is good) the rules of the reconstruct map, then (when both are good)
        stores and checks the manifest.  A failure leaves what was appended
        before it. */
    method Load(logLines: seq<string>, mapLines: seq<string>, data: Manifest) returns (r: Outcome<LoadError>)
      modifies this
      ensures r == LoadOutcome(logLines, mapLines, data)
      ensures var log := ParseLines(logLines, ParseTransformLine);
        var rev := ParseLines(mapLines, ParseReverseLine);
        && transformSteps == old(transformSteps) + log.items
        && revRules == old(revRules) + (if log.failure.None? then rev.items else [])
        && manifest == (if log.failure.None? && rev.failure.None? then data else old(manifest))
    {
      var log := ReadLines(logLines, ParseTransformLine);
      transformSteps := transformSteps + log.items;
      if log.failure.Some? {
        return Fail(TransformLogError(log.failure.value.0, log.failure.value.1));
      }
      var rev := ReadLines(mapLines, ParseReverseLine);
      revRules := revRules + rev.items;
      if rev.failure.Some? {
        return Fail(ReconstructMapError(rev.failure.value.0, rev.failure.value.1));
      }
      manifest := data;
      var verdict := ValidateManifest(manifest);
      if verdict.Fail? {
        return Fail(ManifestError(verdict.error));
      }
      return Pass;
    }

    /** `lift_model`: the model is copied (the caller's map is a value and
        cannot change), then every rule is applied in order. */
    method LiftModel(modelB: Model) returns (r: Result<Model, EvalError>)
      ensures r == Lift(revRules, modelB)
    {
      var modelA := modelB;
      for i := 0 to |revRules|
        invariant Lift(revRules[..i], modelB) == Ok(modelA)
      {
        assert revRules[..i + 1][..i] == revRules[..i];
        match revRules[i]
        case RevMap(b, a) =>
          if b in modelA {
            modelA := modelA[a := modelA[b]];
          }
        case RevElim(v, c) =>
          modelA := modelA[v := c];
        case RevElimExpr(v, e) =>
          var x := Eval(e, modelA);
          if x.Err? {
            LiftStops(revRules, i, modelB);
            return Err(x.error);
          }
          modelA := modelA[v := x.value];
        case RevClauseAdd(_, _) =>
      }
      assert revRules[..|revRules|] == revRules;
      return Ok(modelA);
    }

    /** `get_transform_summary`. */
    method TransformSummary() returns (s: Summary)
      ensures s.totalSteps == |transformSteps| && s.reverseRules == |revRules|
      ensures s.opcodes == OpcodeCounts(transformSteps)
      ensures s.originalVars == manifest.original.variables
      ensures s.originalClauses == manifest.original.clauses
      ensures s.simplifiedVars == manifest.simplified.variables
      ensures s.simplifiedClauses == manifest.simplified.clauses
    {
      var opcodes: map<Opcode, nat> := map[];
      for i := 0 to |transformSteps|
        invariant opcodes == OpcodeCounts(transformSteps[..i])
      {
        assert transformSteps[..i + 1][..i] == transformSteps[..i];
        var op := transformSteps[i].opcode;
        opcodes := opcodes[op := (if op in opcodes then opcodes[op] else 0) + 1];
      }
      assert transformSteps[..|transformSteps|] == transformSteps;
      s := Summary(|transformSteps|, opcodes, |revRules|,
                   manifest.original.variables, manifest.original.clauses,
                   manifest.simplified.variables, manifest.simplified.clauses);
    }
  }

  /** Once a line fails, reading stops: the failure of the whole file is
      that line's, and nothing after it is parsed. */
  lemma {:induction false} LogFailureStops<T>(lines: seq<string>, i: nat, parse: string -> Result<T, ParseError>)
    requires i < |lines|
    requires ParseLines(lines[..i], parse).failure.None?
    requires !Skipped(lines[i]) && parse(Strip(lines[i])).Err?
    ensures ParseLines(lines, parse).failure == Some((i + 1, parse(Strip(lines[i])).error))
    ensures ParseLines(lines, parse).items == ParseLines(lines[..i], parse).items
    decreases |lines| - i
  {
    if i + 1 < |lines| {
      var n := |lines|;
      assert lines[..n - 1][..i] == lines[..i];
      assert lines[..n - 1][i] == lines[i];
      LogFailureStops(lines[..n - 1], i, parse);
    } else {
      assert lines[..|lines| - 1] == lines[..i];
    }
  }
}
