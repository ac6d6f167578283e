/** The boolean expression evaluator of src/sttf_core.py (class `Expr`).
    Expressions are fully parenthesised prefix text: a signed integer
    literal, `NOT(e)`, `AND(e, e)`, `OR(e, e)` or `XOR(e, e)`, evaluated
    against a partial assignment of variables.  `Eval` works on the text
    exactly as the Python does, re-reading it at every level; `Formula`,
    `Render` and `Denote` are an independent tree-shaped reference that
    `EvalRender` ties to it. */
module Expr {
  import opened Wrappers
  import opened Text

  /** A partial assignment of truth values to variable ids. */
  type Model = map<int, bool>

  datatype EvalError =
    | UndefinedVariable(v: int)         // a literal whose variable has no value
    | InvalidExpression(text: string)   // text that matches none of the five forms
    | MalformedArguments(text: string)  // a binary operator body without a top-level comma

  function Abs(x: int): nat {
    if x < 0 then -x else x
  }

  /** `re.fullmatch(r"-?\d+", t)`. */
  predicate IsLiteralText(t: string) {
    var d := if t != [] && t[0] == '-' then t[1..] else t;
    d != [] && AllDigits(d)
  }

  /** `int(t)` for a literal. */
  function LiteralValue(t: string): int
    requires IsLiteralText(t)
  {
    if t[0] == '-' then 0 - DigitsValue(t[1..]) else DigitsValue(t)
  }

  /** `t.startswith(head) and t.endswith(")")`. */
  predicate OperatorForm(t: string, head: string) {
    head <= t && t != [] && t[|t| - 1] == ')'
  }

  function ParenDelta(c: char): int {
    if c == '(' then 1 else if c == ')' then -1 else 0
  }

  /** The value of `_split_args`'s `depth` counter after reading `s`. */
  function Depth(s: string): int
    decreases |s|
  {
    if s == [] then 0 else Depth(s[..|s| - 1]) + ParenDelta(s[|s| - 1])
  }

  /** Position `i` holds a comma outside every parenthesis. */
  predicate IsTopComma(s: string, i: nat)
    requires i < |s|
  {
    s[i] == ',' && Depth(s[..i]) == 0
  }

  /** The first top-level comma at or after `i`. */
  function TopCommaFrom(s: string, i: nat): (r: Option<nat>)
    requires i <= |s|
    ensures r.Some? ==> i <= r.value < |s| && IsTopComma(s, r.value)
    ensures forall j :: i <= j < (if r.Some? then r.value else |s|) ==> !IsTopComma(s, j)
    decreases |s| - i
  {
    if i == |s| then None
    else if IsTopComma(s, i) then Some(i)
    else TopCommaFrom(s, i + 1)
  }

  /** What `_split_args` returns: the stripped text before and after the
      first comma at depth 0, or the error it raises when there is none. */
  function TopLevelSplit(s: string): (r: Result<(string, string), EvalError>)
    ensures r.Ok? ==> |r.value.0| < |s| && |r.value.1| < |s|
    ensures r.Err? <==> forall j :: 0 <= j < |s| ==> !IsTopComma(s, j)
  {
    match TopCommaFrom(s, 0)
    case None => Err(MalformedArguments(s))
    case Some(k) => Ok((Strip(s[..k]), Strip(s[k + 1..])))
  }

  /** The split happens at the first comma outside every parenthesis and
      keeps both sides, stripped; without such a comma the whole argument
      text is reported as malformed. */
  lemma SplitAtFirstTopComma(s: string, k: nat)
    requires k < |s| && IsTopComma(s, k)
    requires forall j :: 0 <= j < k ==> !IsTopComma(s, j)
    ensures TopLevelSplit(s) == Ok((Strip(s[..k]), Strip(s[k + 1..])))
  {
  }

  lemma NoTopCommaMalformed(s: string)
    requires forall j :: 0 <= j < |s| ==> !IsTopComma(s, j)
    ensures TopLevelSplit(s) == Err(MalformedArguments(s))
  {
  }

  /** `Expr._split_args`: scans with a depth counter and stops at the first
      comma found at depth 0. */
  method SplitArgs(s: string) returns (r: Result<(string, string), EvalError>)
    ensures r == TopLevelSplit(s)
  {
    var depth := 0;
    var i := 0;
    while i < |s|
      invariant 0 <= i <= |s|
      invariant depth == Depth(s[..i])
      invariant TopCommaFrom(s, i) == TopCommaFrom(s, 0)
    {
      assert s[..i + 1][..i] == s[..i];
      if s[i] == '(' {
        depth := depth + 1;
      } else if s[i] == ')' {
        depth := depth - 1;
      } else if s[i] == ',' && depth == 0 {
        return Ok((Strip(s[..i]), Strip(s[i + 1..])));
      }
      i := i + 1;
    }
    return Err(MalformedArguments(s));
  }

  /** The branch of `_eval` a stripped text takes; the forms are tried in
      the source's order: literal, `NOT`, `AND`, `OR`, `XOR`. */
  datatype Form = LiteralForm | NotForm | AndForm | OrForm | XorForm | NoForm

  function FormOf(s: string): (k: Form)
    ensures k == NotForm ==> OperatorForm(s, "NOT(") && |s| >= 5
    ensures k == AndForm ==> OperatorForm(s, "AND(") && |s| >= 5
    ensures k == OrForm ==> OperatorForm(s, "OR(") && |s| >= 4
    ensures k == XorForm ==> OperatorForm(s, "XOR(") && |s| >= 5
  {
    if IsLiteralText(s) then LiteralForm
    else if OperatorForm(s, "NOT(") then NotForm
    else if OperatorForm(s, "AND(") then AndForm
    else if OperatorForm(s, "OR(") then OrForm
    else if OperatorForm(s, "XOR(") then XorForm
    else NoForm
  }

  /** `Expr._eval`: strip, then take the first form that matches.  As in
      Python, `AND` does not evaluate its second argument when the first is
      false, nor `OR` when the first is true, so an undefined variable there
      raises nothing; `XOR` evaluates both. */
  function Eval(t: string, m: Model): Result<bool, EvalError>
    decreases |t|, 2
  {
    EvalStripped(Strip(t), m)
  }

  /** `_eval` after its `strip()`. */
  function EvalStripped(s: string, m: Model): Result<bool, EvalError>
    decreases |s|, 1
  {
    match FormOf(s)
    case LiteralForm =>
      var v := LiteralValue(s);
      if Abs(v) in m then Ok(if v > 0 then m[Abs(v)] else !m[Abs(v)])
      else Err(UndefinedVariable(Abs(v)))
    case NotForm => EvalNot(s, m)
    case AndForm => EvalAnd(s, m)
    case OrForm => EvalOr(s, m)
    case XorForm => EvalXor(s, m)
    case NoForm => Err(InvalidExpression(s))
  }

  /** The `NOT(e)` branch of `_eval`, on stripped text `s`. */
  function EvalNot(s: string, m: Model): Result<bool, EvalError>
    requires |s| >= 5
    decreases |s|, 0
  {
    NotOf(Eval(s[4..|s| - 1], m))
  }

  /** The `AND(a, b)` branch of `_eval`, on stripped text `s`. */
  function EvalAnd(s: string, m: Model): Result<bool, EvalError>
    requires |s| >= 5
    decreases |s|, 0
  {
    match TopLevelSplit(s[4..|s| - 1])
    case Err(e) => Err(e)
    case Ok(args) => AndOf(Eval(args.0, m), Eval(args.1, m))
  }

  /** The `OR(a, b)` branch of `_eval`, on stripped text `s`. */
  function EvalOr(s: string, m: Model): Result<bool, EvalError>
    requires |s| >= 4
    decreases |s|, 0
  {
    match TopLevelSplit(s[3..|s| - 1])
    case Err(e) => Err(e)
    case Ok(args) => OrOf(Eval(args.0, m), Eval(args.1, m))
  }

  /** The `XOR(a, b)` branch of `_eval`, on stripped text `s`. */
  function EvalXor(s: string, m: Model): Result<bool, EvalError>
    requires |s| >= 5
    decreases |s|, 0
  {
    match TopLevelSplit(s[4..|s| - 1])
    case Err(e) => Err(e)
    case Ok(args) => XorOf(Eval(args.0, m), Eval(args.1, m))
  }

  /** Python's `not`, `and`, `or` and `^` on evaluation results: an error
      on the left propagates; `and` and `or` return without their right
      operand when the left one decides, so an error there is not raised,
      while `^` evaluates both. */
  function NotOf(x: Result<bool, EvalError>): Result<bool, EvalError> {
    match x case Err(e) => Err(e) case Ok(v) => Ok(!v)
  }

  function AndOf(x: Result<bool, EvalError>, y: Result<bool, EvalError>): Result<bool, EvalError> {
    match x case Err(e) => Err(e) case Ok(v) => if v then y else Ok(false)
  }

  function OrOf(x: Result<bool, EvalError>, y: Result<bool, EvalError>): Result<bool, EvalError> {
    match x case Err(e) => Err(e) case Ok(v) => if v then Ok(true) else y
  }

  function XorOf(x: Result<bool, EvalError>, y: Result<bool, EvalError>): Result<bool, EvalError> {
    match x
    case Err(e) => Err(e)
    case Ok(v) => (match y case Err(e) => Err(e) case Ok(w) => Ok(v != w))
  }

  // ---------------------------------------------------------------------
  // Reference semantics on trees

  datatype Formula =
    | Lit(n: int)
    | Not(e: Formula)
    | And(a: Formula, b: Formula)
    | Or(a: Formula, b: Formula)
    | Xor(a: Formula, b: Formula)

  /** The text of a formula, in the spelling the test suite uses (`AND(1, 2)`). */
  function Render(f: Formula): string {
    match f
    case Lit(n) => IntToString(n)
    case Not(e) => "NOT(" + Render(e) + ")"
    case And(a, b) => "AND(" + (Render(a) + ", " + Render(b)) + ")"
    case Or(a, b) => "OR(" + (Render(a) + ", " + Render(b)) + ")"
    case Xor(a, b) => "XOR(" + (Render(a) + ", " + Render(b)) + ")"
  }

  /** The truth tables, applied to a tree. */
  function Denote(f: Formula, m: Model): Result<bool, EvalError> {
    match f
    case Lit(n) =>
      if Abs(n) in m then Ok(if n > 0 then m[Abs(n)] else !m[Abs(n)]) else Err(UndefinedVariable(Abs(n)))
    case Not(e) => NotOf(Denote(e, m))
    case And(a, b) => AndOf(Denote(a, m), Denote(b, m))
    case Or(a, b) => OrOf(Denote(a, m), Denote(b, m))
    case Xor(a, b) => XorOf(Denote(a, m), Denote(b, m))
  }

  // ---------------------------------------------------------------------
  // Parenthesis depth of concatenated text

  lemma {:induction false} DepthConcat(a: string, b: string)
    ensures Depth(a + b) == Depth(a) + Depth(b)
    decreases |b|
  {
    if b == [] {
      assert a + b == a;
    } else {
      var b' := b[..|b| - 1];
      assert (a + b)[..|a + b| - 1] == a + b';
      DepthConcat(a, b');
    }
  }

  /** Every comma of `s` lies above depth `-base`: read after a prefix of
      depth `base`, no comma of `s` is at depth 0 or below. */
  predicate CommasAbove(s: string, base: int)
    decreases |s|
  {
    s == [] ||
    (CommasAbove(s[..|s| - 1], base) && (s[|s| - 1] == ',' ==> base + Depth(s[..|s| - 1]) > 0))
  }

  /** Every comma of `s` sits inside parentheses and the parentheses balance:
      the shape of every rendered formula. */
  predicate Nested(s: string) {
    Depth(s) == 0 && CommasAbove(s, 0)
  }

  lemma {:induction false} CommasAboveAt(s: string, base: int, i: nat)
    requires CommasAbove(s, base) && i < |s| && s[i] == ','
    ensures base + Depth(s[..i]) > 0
    decreases |s|
  {
    if i < |s| - 1 {
      var s' := s[..|s| - 1];
      assert s'[..i] == s[..i] && s'[i] == s[i];
      CommasAboveAt(s', base, i);
    }
  }

  lemma {:induction false} CommasAboveMono(s: string, base: int, base': int)
    requires CommasAbove(s, base) && base <= base'
    ensures CommasAbove(s, base')
    decreases |s|
  {
    if s != [] {
      CommasAboveMono(s[..|s| - 1], base, base');
    }
  }

  lemma DepthOfPrefixInConcat(x: string, y: string, j: nat)
    requires j <= |y|
    ensures (x + y)[..|x| + j] == x + y[..j]
    ensures Depth((x + y)[..|x| + j]) == Depth(x) + Depth(y[..j])
  {
    assert (x + y)[..|x| + j] == x + y[..j];
    DepthConcat(x, y[..j]);
  }

  lemma {:induction false} CommasAboveConcat(x: string, y: string, base: int)
    requires CommasAbove(x, base) && CommasAbove(y, base + Depth(x))
    ensures CommasAbove(x + y, base)
    decreases |y|
  {
    if y == [] {
      assert x + y == x;
    } else {
      var y' := y[..|y| - 1];
      assert (x + y)[..|x + y| - 1] == x + y';
      CommasAboveConcat(x, y', base);
      DepthConcat(x, y');
    }
  }

  lemma {:induction false} NoParenDepth(s: string)
    requires forall i :: 0 <= i < |s| ==> s[i] != '(' && s[i] != ')'
    ensures Depth(s) == 0
    decreases |s|
  {
    if s != [] {
      NoParenDepth(s[..|s| - 1]);
    }
  }

  lemma {:induction false} NoCommas(s: string, base: int)
    requires forall i :: 0 <= i < |s| ==> s[i] != ','
    ensures CommasAbove(s, base)
    decreases |s|
  {
    if s != [] {
      NoCommas(s[..|s| - 1], base);
    }
  }

  lemma LiteralShape(n: int)
    ensures Nested(IntToString(n))
  {
    var s := IntToString(n);
    NoParenDepth(s);
    NoCommas(s, 0);
  }

  /** An operator name followed by its opening parenthesis. */
  lemma HeadShape(h: string, base: int)
    requires h != [] && h[|h| - 1] == '('
    requires forall i :: 0 <= i < |h| - 1 ==> h[i] != ',' && h[i] != '(' && h[i] != ')'
    ensures Depth(h) == 1 && CommasAbove(h, base)
  {
    NoParenDepth(h[..|h| - 1]);
    NoCommas(h, base);
  }

  lemma CloseShape(base: int)
    ensures Depth(")") == -1 && CommasAbove(")", base)
  {
    assert ")"[..0] == [];
  }

  lemma SeparatorShape()
    ensures Depth(", ") == 0 && CommasAbove(", ", 1)
  {
    assert ", "[..1] == ",";
    assert ","[..0] == [];
    assert ", "[..0] == [];
  }

  lemma UnaryShape(h: string, r: string)
    requires h != [] && h[|h| - 1] == '('
    requires forall i :: 0 <= i < |h| - 1 ==> h[i] != ',' && h[i] != '(' && h[i] != ')'
    requires Nested(r)
    ensures Nested(h + r + ")")
  {
    HeadShape(h, 0);
    CloseShape(1);
    CommasAboveMono(r, 0, 1);
    CommasAboveConcat(h, r, 0);
    DepthConcat(h, r);
    CommasAboveConcat(h + r, ")", 0);
    DepthConcat(h + r, ")");
  }

  lemma BinaryShape(h: string, r1: string, r2: string)
    requires h != [] && h[|h| - 1] == '('
    requires forall i :: 0 <= i < |h| - 1 ==> h[i] != ',' && h[i] != '(' && h[i] != ')'
    requires Nested(r1) && Nested(r2)
    ensures Nested(h + (r1 + ", " + r2) + ")")
  {
    assert h + (r1 + ", " + r2) + ")" == h + r1 + ", " + r2 + ")";
    HeadShape(h, 0);
    SeparatorShape();
    CloseShape(1);
    CommasAboveMono(r1, 0, 1);
    CommasAboveMono(r2, 0, 1);
    CommasAboveConcat(h, r1, 0);
    DepthConcat(h, r1);
    CommasAboveConcat(h + r1, ", ", 0);
    DepthConcat(h + r1, ", ");
    CommasAboveConcat(h + r1 + ", ", r2, 0);
    DepthConcat(h + r1 + ", ", r2);
    CommasAboveConcat(h + r1 + ", " + r2, ")", 0);
    DepthConcat(h + r1 + ", " + r2, ")");
  }

  /** The text of an operator head: a name, then its opening parenthesis. */
  predicate IsHead(h: string) {
    && h != [] && h[|h| - 1] == '('
    && forall i :: 0 <= i < |h| - 1 ==> h[i] != ',' && h[i] != '(' && h[i] != ')'
  }

  lemma HeadsAreHeads()
    ensures IsHead("NOT(") && IsHead("AND(") && IsHead("OR(") && IsHead("XOR(")
  {
  }

  /** Rendered text is nested. */
  lemma RenderNested(f: Formula)
    ensures Nested(Render(f))
  {
    HeadsAreHeads();
    match f
    case Lit(n) => LiteralShape(n);
    case Not(e) => RenderNested(e); UnaryShape("NOT(", Render(e));
    case And(a, b) => RenderNested(a); RenderNested(b); BinaryShape("AND(", Render(a), Render(b));
    case Or(a, b) => RenderNested(a); RenderNested(b); BinaryShape("OR(", Render(a), Render(b));
    case Xor(a, b) => RenderNested(a); RenderNested(b); BinaryShape("XOR(", Render(a), Render(b));
  }

  /** Rendered text has no surrounding whitespace, so stripping keeps it. */
  lemma RenderStripped(f: Formula)
    ensures Render(f) != [] && !IsSpace(Render(f)[0]) && !IsSpace(Render(f)[|Render(f)| - 1])
    ensures Strip(Render(f)) == Render(f)
  {
    var r := Render(f);
    assert r[0] == (match f case Lit(n) => IntToString(n)[0] case Not(_) => 'N' case And(_, _) => 'A'
                                 case Or(_, _) => 'O' case Xor(_, _) => 'X');
    StripKeeps(r);
  }

  /** The first comma of `r1 + ", " + r2` at depth 0 is the one after `r1`. */
  lemma SplitRendered(r1: string, r2: string)
    requires Nested(r1) && Nested(r2)
    requires r1 != [] && !IsSpace(r1[0]) && !IsSpace(r1[|r1| - 1])
    requires r2 != [] && !IsSpace(r2[0]) && !IsSpace(r2[|r2| - 1])
    ensures TopLevelSplit(r1 + ", " + r2) == Ok((r1, r2))
  {
    var s := r1 + ", " + r2;
    var k := |r1|;
    assert s[..k] == r1;
    assert IsTopComma(s, k);
    forall j | 0 <= j < k ensures !IsTopComma(s, j) {
      assert s[..j] == r1[..j];
      assert s[j] == r1[j];
      if r1[j] == ',' {
        CommasAboveAt(r1, 0, j);
      }
    }
    assert TopCommaFrom(s, 0) == Some(k);
    StripKeeps(r1);
    assert s[k + 1..] == " " + r2;
    StripAfterSpaces(" ", r2);
  }

  lemma EvalLiteralText(n: int, m: Model)
    ensures Eval(IntToString(n), m) == Denote(Lit(n), m)
  {
    var s := IntToString(n);
    StripKeeps(s);
    LiteralTextValue(n);
    assert FormOf(s) == LiteralForm;
  }

  lemma LiteralTextValue(n: int)
    ensures IsLiteralText(IntToString(n)) && LiteralValue(IntToString(n)) == n
  {
    var s := IntToString(n);
    if n < 0 {
      assert s[1..] == NatToString(-n);
      NatToStringRoundTrip(-n);
    } else {
      NatToStringRoundTrip(n);
    }
  }

  /** The text that opens a binary operator of the given form. */
  function HeadOf(k: Form): string
    requires k == AndForm || k == OrForm || k == XorForm
  {
    match k
    case AndForm => "AND("
    case OrForm => "OR("
    case XorForm => "XOR("
  }

  lemma WrappedInner(h: string, x: string)
    ensures var s := h + x + ")"; |s| > |h| && s[|h|..|s| - 1] == x && s[..|h|] == h
  {
    var s := h + x + ")";
    assert s[|h|..|s| - 1] == x;
    assert s[..|h|] == h;
  }

  lemma WrappedStripped(h: string, x: string)
    requires h != [] && !IsSpace(h[0])
    ensures Strip(h + x + ")") == h + x + ")"
  {
    var s := h + x + ")";
    assert s[0] == h[0];
    StripKeeps(s);
  }

  lemma EvalNotText(r: string, m: Model)
    ensures Eval("NOT(" + r + ")", m) == NotOf(Eval(r, m))
  {
    var s := "NOT(" + r + ")";
    WrappedInner("NOT(", r);
    WrappedStripped("NOT(", r);
    assert !IsLiteralText(s) by { assert s[0] == 'N'; }
    assert FormOf(s) == NotForm;
    assert Eval(s, m) == EvalStripped(s, m) == EvalNot(s, m);
  }

  lemma FormOfWrapped(k: Form, x: string)
    requires k == AndForm || k == OrForm || k == XorForm
    ensures FormOf(HeadOf(k) + x + ")") == k
  {
    var op := HeadOf(k);
    var s := op + x + ")";
    WrappedInner(op, x);
    assert s[0] == op[0];
    assert !IsLiteralText(s);
    assert !("NOT(" <= s);
    match k
    case AndForm =>
      assert OperatorForm(s, "AND(");
    case OrForm =>
      assert !("AND(" <= s);
      assert OperatorForm(s, "OR(");
    case XorForm =>
      assert !("AND(" <= s) && !("OR(" <= s);
      assert OperatorForm(s, "XOR(");
  }

  /** How `_eval` reads `op + r1 + ", " + r2 + ")"`: its form is `op`'s and
      `_split_args` hands back `r1` and `r2`. */
  lemma BinaryTextForm(k: Form, r1: string, r2: string)
    requires k == AndForm || k == OrForm || k == XorForm
    requires Nested(r1) && Nested(r2)
    requires r1 != [] && !IsSpace(r1[0]) && !IsSpace(r1[|r1| - 1])
    requires r2 != [] && !IsSpace(r2[0]) && !IsSpace(r2[|r2| - 1])
    ensures var s := HeadOf(k) + (r1 + ", " + r2) + ")";
      && Strip(s) == s && FormOf(s) == k && |s| > |HeadOf(k)|
      && TopLevelSplit(s[|HeadOf(k)|..|s| - 1]) == Ok((r1, r2))
  {
    var x := r1 + ", " + r2;
    WrappedInner(HeadOf(k), x);
    WrappedStripped(HeadOf(k), x);
    FormOfWrapped(k, x);
    SplitRendered(r1, r2);
  }

  lemma EvalOfBinary(s: string, m: Model)
    requires Strip(s) == s
    ensures FormOf(s) == AndForm ==> Eval(s, m) == EvalAnd(s, m)
    ensures FormOf(s) == OrForm ==> Eval(s, m) == EvalOr(s, m)
    ensures FormOf(s) == XorForm ==> Eval(s, m) == EvalXor(s, m)
  {
    assert Eval(s, m) == EvalStripped(s, m);
  }

  /** The operator branches of `_eval` once `_split_args` has found the two
      arguments. */
  lemma EvalAndSplit(s: string, m: Model, r1: string, r2: string)
    requires |s| >= 5 && TopLevelSplit(s[4..|s| - 1]) == Ok((r1, r2))
    ensures EvalAnd(s, m) == AndOf(Eval(r1, m), Eval(r2, m))
  {
  }

  lemma EvalOrSplit(s: string, m: Model, r1: string, r2: string)
    requires |s| >= 4 && TopLevelSplit(s[3..|s| - 1]) == Ok((r1, r2))
    ensures EvalOr(s, m) == OrOf(Eval(r1, m), Eval(r2, m))
  {
  }

  lemma EvalXorSplit(s: string, m: Model, r1: string, r2: string)
    requires |s| >= 5 && TopLevelSplit(s[4..|s| - 1]) == Ok((r1, r2))
    ensures EvalXor(s, m) == XorOf(Eval(r1, m), Eval(r2, m))
  {
  }

  /** `AND(a, b)`: false without looking at `b` when `a` is false. */
  lemma EvalAndText(r1: string, r2: string, m: Model)
    requires Shaped(r1) && Shaped(r2)
    ensures Eval("AND(" + (r1 + ", " + r2) + ")", m)
         == AndOf(Eval(r1, m), Eval(r2, m))
  {
    var s := "AND(" + (r1 + ", " + r2) + ")";
    BinaryTextForm(AndForm, r1, r2);
    EvalOfBinary(s, m);
    EvalAndSplit(s, m, r1, r2);
  }

  /** `OR(a, b)`: true without looking at `b` when `a` is true. */
  lemma EvalOrText(r1: string, r2: string, m: Model)
    requires Shaped(r1) && Shaped(r2)
    ensures Eval("OR(" + (r1 + ", " + r2) + ")", m)
         == OrOf(Eval(r1, m), Eval(r2, m))
  {
    var s := "OR(" + (r1 + ", " + r2) + ")";
    BinaryTextForm(OrForm, r1, r2);
    EvalOfBinary(s, m);
    EvalOrSplit(s, m, r1, r2);
  }

  /** `XOR(a, b)`: both arguments are evaluated, left first. */
  lemma EvalXorText(r1: string, r2: string, m: Model)
    requires Shaped(r1) && Shaped(r2)
    ensures Eval("XOR(" + (r1 + ", " + r2) + ")", m)
         == XorOf(Eval(r1, m), Eval(r2, m))
  {
    var s := "XOR(" + (r1 + ", " + r2) + ")";
    BinaryTextForm(XorForm, r1, r2);
    EvalOfBinary(s, m);
    EvalXorSplit(s, m, r1, r2);
  }

  /** The arguments' shape facts that `_split_args` relies on. */
  predicate Shaped(r: string) {
    Nested(r) && r != [] && !IsSpace(r[0]) && !IsSpace(r[|r| - 1])
  }

  lemma RenderShaped(f: Formula)
    ensures Shaped(Render(f))
  {
    RenderNested(f);
    RenderStripped(f);
  }

  /** The binary steps of `EvalRender`: the operator's text evaluates like
      the operator applied to its arguments' texts. */
  lemma EvalRenderAnd(a: Formula, b: Formula, m: Model)
    ensures Eval(Render(And(a, b)), m) == AndOf(Eval(Render(a), m), Eval(Render(b), m))
  {
    var ra, rb := Render(a), Render(b);
    RenderShaped(a); RenderShaped(b);
    assert Render(And(a, b)) == "AND(" + (ra + ", " + rb) + ")";
    EvalAndText(ra, rb, m);
  }

  lemma EvalRenderOr(a: Formula, b: Formula, m: Model)
    ensures Eval(Render(Or(a, b)), m) == OrOf(Eval(Render(a), m), Eval(Render(b), m))
  {
    var ra, rb := Render(a), Render(b);
    RenderShaped(a); RenderShaped(b);
    assert Render(Or(a, b)) == "OR(" + (ra + ", " + rb) + ")";
    EvalOrText(ra, rb, m);
  }

  lemma EvalRenderXor(a: Formula, b: Formula, m: Model)
    ensures Eval(Render(Xor(a, b)), m) == XorOf(Eval(Render(a), m), Eval(Render(b), m))
  {
    var ra, rb := Render(a), Render(b);
    RenderShaped(a); RenderShaped(b);
    assert Render(Xor(a, b)) == "XOR(" + (ra + ", " + rb) + ")";
    EvalXorText(ra, rb, m);
  }

  /** The text evaluator agrees with the tree semantics on every rendered
      formula: literals read the model (negated for a minus sign), and
      `NOT`, `AND`, `OR`, `XOR` apply their truth tables to the values of
      their arguments, to any depth of nesting. */
  lemma {:induction false} EvalRender(f: Formula, m: Model)
    ensures Eval(Render(f), m) == Denote(f, m)
  {
    match f
    case Lit(n) =>
      EvalLiteralText(n, m);
    case Not(e) =>
      EvalNotText(Render(e), m);
      EvalRender(e, m);
    case And(a, b) =>
      EvalRenderAnd(a, b, m); EvalRender(a, m); EvalRender(b, m);
    case Or(a, b) =>
      EvalRenderOr(a, b, m); EvalRender(a, m); EvalRender(b, m);
    case Xor(a, b) =>
      EvalRenderXor(a, b, m); EvalRender(a, m); EvalRender(b, m);
  }

  // ---------------------------------------------------------------------
  // Facts about the evaluator

  /** Surrounding whitespace never matters: `_eval` strips first. */
  lemma EvalIgnoresPadding(t: string, m: Model)
    ensures Eval(t, m) == Eval(Strip(t), m)
  {
    StripIdempotent(t);
  }

  /** An `UndefinedVariable` error names a variable the model lacks. */
  predicate NamesAbsent(r: Result<bool, EvalError>, m: Model) {
    r.Err? && r.error.UndefinedVariable? ==> r.error.v !in m
  }

  /** An `UndefinedVariable` error always names a variable the model lacks. */
  lemma {:induction false} UndefinedMeansAbsent(t: string, m: Model)
    ensures NamesAbsent(Eval(t, m), m)
    decreases |t|, 2
  {
    UndefinedStripped(Strip(t), m);
  }

  lemma {:induction false} UndefinedStripped(s: string, m: Model)
    ensures NamesAbsent(EvalStripped(s, m), m)
    decreases |s|, 1
  {
    match FormOf(s)
    case LiteralForm =>
    case NotForm =>
      assert EvalStripped(s, m) == NotOf(Eval(s[4..|s| - 1], m));
      UndefinedMeansAbsent(s[4..|s| - 1], m);
    case AndForm =>
      assert EvalStripped(s, m) == EvalAnd(s, m);
      UndefinedAnd(s, m);
    case OrForm =>
      assert EvalStripped(s, m) == EvalOr(s, m);
      UndefinedOr(s, m);
    case XorForm =>
      assert EvalStripped(s, m) == EvalXor(s, m);
      UndefinedXor(s, m);
    case NoForm =>
  }

  lemma {:induction false} UndefinedAnd(s: string, m: Model)
    requires |s| >= 5
    ensures NamesAbsent(EvalAnd(s, m), m)
    decreases |s|, 0
  {
    if TopLevelSplit(s[4..|s| - 1]).Ok? {
      var args := TopLevelSplit(s[4..|s| - 1]).value;
      assert EvalAnd(s, m) == AndOf(Eval(args.0, m), Eval(args.1, m));
      UndefinedMeansAbsent(args.0, m);
      UndefinedMeansAbsent(args.1, m);
    }
  }

  lemma {:induction false} UndefinedOr(s: string, m: Model)
    requires |s| >= 4
    ensures NamesAbsent(EvalOr(s, m), m)
    decreases |s|, 0
  {
    if TopLevelSplit(s[3..|s| - 1]).Ok? {
      var args := TopLevelSplit(s[3..|s| - 1]).value;
      assert EvalOr(s, m) == OrOf(Eval(args.0, m), Eval(args.1, m));
      UndefinedMeansAbsent(args.0, m);
      UndefinedMeansAbsent(args.1, m);
    }
  }

  lemma {:induction false} UndefinedXor(s: string, m: Model)
    requires |s| >= 5
    ensures NamesAbsent(EvalXor(s, m), m)
    decreases |s|, 0
  {
    if TopLevelSplit(s[4..|s| - 1]).Ok? {
      var args := TopLevelSplit(s[4..|s| - 1]).value;
      assert EvalXor(s, m) == XorOf(Eval(args.0, m), Eval(args.1, m));
      UndefinedMeansAbsent(args.0, m);
      UndefinedMeansAbsent(args.1, m);
    }
  }

  /** `m'` agrees with `m` on every variable `m` defines. */
  predicate Extends(m': Model, m: Model) {
    forall v :: v in m ==> v in m' && m'[v] == m[v]
  }

  /** A successful result is reproduced, unchanged, by `r'`. */
  predicate Keeps(r: Result<bool, EvalError>, r': Result<bool, EvalError>) {
    r.Ok? ==> r' == r
  }

  /** A value computed on a model is computed again, unchanged, on any model
      that extends it: evaluation only reads the variables it needs. */
  lemma {:induction false} EvalExtends(t: string, m: Model, m': Model)
    requires Extends(m', m)
    ensures Keeps(Eval(t, m), Eval(t, m'))
    decreases |t|, 2
  {
    ExtendsStripped(Strip(t), m, m');
  }

  lemma {:induction false} ExtendsStripped(s: string, m: Model, m': Model)
    requires Extends(m', m)
    ensures Keeps(EvalStripped(s, m), EvalStripped(s, m'))
    decreases |s|, 1
  {
    match FormOf(s)
    case LiteralForm =>
    case NotForm =>
      assert EvalStripped(s, m) == NotOf(Eval(s[4..|s| - 1], m));
      assert EvalStripped(s, m') == NotOf(Eval(s[4..|s| - 1], m'));
      EvalExtends(s[4..|s| - 1], m, m');
    case AndForm =>
      assert EvalStripped(s, m) == EvalAnd(s, m) && EvalStripped(s, m') == EvalAnd(s, m');
      ExtendsAnd(s, m, m');
    case OrForm =>
      assert EvalStripped(s, m) == EvalOr(s, m) && EvalStripped(s, m') == EvalOr(s, m');
      ExtendsOr(s, m, m');
    case XorForm =>
      assert EvalStripped(s, m) == EvalXor(s, m) && EvalStripped(s, m') == EvalXor(s, m');
      ExtendsXor(s, m, m');
    case NoForm =>
  }

  lemma {:induction false} ExtendsAnd(s: string, m: Model, m': Model)
    requires |s| >= 5 && Extends(m', m)
    ensures Keeps(EvalAnd(s, m), EvalAnd(s, m'))
    decreases |s|, 0
  {
    if TopLevelSplit(s[4..|s| - 1]).Ok? {
      var args := TopLevelSplit(s[4..|s| - 1]).value;
      assert EvalAnd(s, m) == AndOf(Eval(args.0, m), Eval(args.1, m));
      assert EvalAnd(s, m') == AndOf(Eval(args.0, m'), Eval(args.1, m'));
      EvalExtends(args.0, m, m');
      EvalExtends(args.1, m, m');
    }
  }

  lemma {:induction false} ExtendsOr(s: string, m: Model, m': Model)
    requires |s| >= 4 && Extends(m', m)
    ensures Keeps(EvalOr(s, m), EvalOr(s, m'))
    decreases |s|, 0
  {
    if TopLevelSplit(s[3..|s| - 1]).Ok? {
      var args := TopLevelSplit(s[3..|s| - 1]).value;
      assert EvalOr(s, m) == OrOf(Eval(args.0, m), Eval(args.1, m));
      assert EvalOr(s, m') == OrOf(Eval(args.0, m'), Eval(args.1, m'));
      EvalExtends(args.0, m, m');
      EvalExtends(args.1, m, m');
    }
  }

  lemma {:induction false} ExtendsXor(s: string, m: Model, m': Model)
    requires |s| >= 5 && Extends(m', m)
    ensures Keeps(EvalXor(s, m), EvalXor(s, m'))
    decreases |s|, 0
  {
    if TopLevelSplit(s[4..|s| - 1]).Ok? {
      var args := TopLevelSplit(s[4..|s| - 1]).value;
      assert EvalXor(s, m) == XorOf(Eval(args.0, m), Eval(args.1, m));
      assert EvalXor(s, m') == XorOf(Eval(args.0, m'), Eval(args.1, m'));
      EvalExtends(args.0, m, m');
      EvalExtends(args.1, m, m');
    }
  }

  /** The variables a formula mentions. */
  function Vars(f: Formula): set<int> {
    match f
    case Lit(n) => {Abs(n)}
    case Not(e) => Vars(e)
    case And(a, b) => Vars(a) + Vars(b)
    case Or(a, b) => Vars(a) + Vars(b)
    case Xor(a, b) => Vars(a) + Vars(b)
  }

  /** A rendered formula evaluates without error on every model that
      defines all of its variables. */
  lemma {:induction false} DefinedWhenCovered(f: Formula, m: Model)
    requires Vars(f) <= m.Keys
    ensures Eval(Render(f), m).Ok?
  {
    EvalRender(f, m);
    DenoteDefined(f, m);
  }

  lemma {:induction false} DenoteDefined(f: Formula, m: Model)
    requires Vars(f) <= m.Keys
    ensures Denote(f, m).Ok?
  {
    match f
    case Lit(n) =>
    case Not(e) => DenoteDefined(e, m);
    case And(a, b) => DenoteDefined(a, m); DenoteDefined(b, m);
    case Or(a, b) => DenoteDefined(a, m); DenoteDefined(b, m);
    case Xor(a, b) => DenoteDefined(a, m); DenoteDefined(b, m);
  }

  // ---------------------------------------------------------------------
  // The behaviour the test suite pins down, for any variable ids

  /** The texts the test suite evaluates, as renderings of trees. */
  lemma TestTextsFlat()
    ensures Render(Lit(5)) == "5" && Render(Lit(-5)) == "-5"
    ensures Render(Not(Lit(3))) == "NOT(3)"
    ensures Render(And(Lit(1), Lit(2))) == "AND(1, 2)"
    ensures Render(Or(Lit(1), Lit(2))) == "OR(1, 2)"
    ensures Render(Xor(Lit(1), Lit(2))) == "XOR(1, 2)"
  {
  }

  lemma TestTextNested()
    ensures Render(And(Or(Lit(1), Lit(2)), Not(Lit(3)))) == "AND(OR(1, 2), NOT(3))"
  {
  }

  /** A positive literal reads its variable, a negative one negates it, and
      either raises when the variable is missing. */
  lemma LiteralTable(n: int, m: Model)
    ensures Eval(IntToString(n), m)
         == if Abs(n) in m then Ok(if n > 0 then m[Abs(n)] else !m[Abs(n)]) else Err(UndefinedVariable(Abs(n)))
  {
    EvalLiteralText(n, m);
  }

  lemma NotTable(i: nat, x: bool)
    requires i > 0
    ensures Eval(Render(Not(Lit(i))), map[i := x]) == Ok(!x)
  {
    var m := map[i := x];
    assert Denote(Not(Lit(i)), m) == Ok(!x);
    EvalRender(Not(Lit(i)), m);
  }

  lemma AndTable(i: nat, j: nat, x: bool, y: bool)
    requires 0 < i && 0 < j && i != j
    ensures Eval(Render(And(Lit(i), Lit(j))), map[i := x, j := y]) == Ok(x && y)
  {
    var m, f := map[i := x, j := y], And(Lit(i), Lit(j));
    assert Denote(f, m) == Ok(x && y);
    EvalRender(f, m);
  }

  lemma OrTable(i: nat, j: nat, x: bool, y: bool)
    requires 0 < i && 0 < j && i != j
    ensures Eval(Render(Or(Lit(i), Lit(j))), map[i := x, j := y]) == Ok(x || y)
  {
    var m, f := map[i := x, j := y], Or(Lit(i), Lit(j));
    assert Denote(f, m) == Ok(x || y);
    EvalRender(f, m);
  }

  lemma XorTable(i: nat, j: nat, x: bool, y: bool)
    requires 0 < i && 0 < j && i != j
    ensures Eval(Render(Xor(Lit(i), Lit(j))), map[i := x, j := y]) == Ok(x != y)
  {
    var m, f := map[i := x, j := y], Xor(Lit(i), Lit(j));
    assert Denote(f, m) == Ok(x != y);
    EvalRender(f, m);
  }

  lemma NestedTable(i: nat, j: nat, k: nat, x: bool, y: bool, z: bool)
    requires 0 < i && 0 < j && 0 < k && i != j && j != k && i != k
    ensures Eval(Render(And(Or(Lit(i), Lit(j)), Not(Lit(k)))), map[i := x, j := y, k := z]) == Ok((x || y) && !z)
  {
    var m, f := map[i := x, j := y, k := z], And(Or(Lit(i), Lit(j)), Not(Lit(k)));
    assert Denote(f.a, m) == Ok(x || y);
    assert Denote(f.b, m) == Ok(!z);
    assert Denote(f, m) == Ok((x || y) && !z);
    EvalRender(f, m);
  }

  /** `AND` and `OR` short-circuit: a left argument that decides hides an
      undefined right one, which `XOR` still reports. */
  lemma ShortCircuitAnd(i: nat, j: nat)
    requires 0 < i && 0 < j && i != j
    ensures Eval(Render(And(Lit(i), Lit(j))), map[i := false]) == Ok(false)
  {
    var m, f := map[i := false], And(Lit(i), Lit(j));
    assert Denote(f, m) == Ok(false);
    EvalRender(f, m);
  }

  lemma ShortCircuitOr(i: nat, j: nat)
    requires 0 < i && 0 < j && i != j
    ensures Eval(Render(Or(Lit(i), Lit(j))), map[i := true]) == Ok(true)
  {
    var m, f := map[i := true], Or(Lit(i), Lit(j));
    assert Denote(f, m) == Ok(true);
    EvalRender(f, m);
  }

  lemma XorNoShortCircuit(i: nat, j: nat)
    requires 0 < i && 0 < j && i != j
    ensures Eval(Render(Xor(Lit(i), Lit(j))), map[i := true]) == Err(UndefinedVariable(j))
  {
    var m, f := map[i := true], Xor(Lit(i), Lit(j));
    assert Denote(f, m) == Err(UndefinedVariable(j));
    EvalRender(f, m);
  }

  /** The literal `0` is read as a negative literal (the test is `v > 0`),
      so it yields the negation of variable 0. */
  lemma ZeroLiteral(m: Model)
    ensures Eval("0", m) == if 0 in m then Ok(!m[0]) else Err(UndefinedVariable(0))
  {
    EvalLiteralText(0, m);
  }

  /** Text that is neither a literal nor ends in `)` matches no form. */
  lemma InvalidText(t: string, m: Model)
    requires !IsLiteralText(Strip(t)) && (Strip(t) == [] || Strip(t)[|Strip(t)| - 1] != ')')
    ensures Eval(t, m) == Err(InvalidExpression(Strip(t)))
  {
    assert FormOf(Strip(t)) == NoForm;
  }

  /** A binary operator whose body has no comma raises `MalformedArguments`. */
  lemma MalformedText(k: Form, r: string, m: Model)
    requires k == AndForm || k == OrForm || k == XorForm
    requires forall i :: 0 <= i < |r| ==> r[i] != ','
    ensures Eval(HeadOf(k) + r + ")", m) == Err(MalformedArguments(r))
  {
    var s := HeadOf(k) + r + ")";
    WrappedInner(HeadOf(k), r);
    WrappedStripped(HeadOf(k), r);
    FormOfWrapped(k, r);
    EvalOfBinary(s, m);
    assert |HeadOf(k)| == if k == OrForm then 3 else 4;
  }
}
