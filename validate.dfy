/** The check `validate_bundle` makes between the replayed formula and the
    expected simplified one: both texts go through `normalize_cnf`, and the
    two normalised line lists are compared for equality. */
module Validate {
  import opened Text
  import Cnf
  import Expr

  // ---------------------------------------------------------------------
  // Python's `sorted` on strings

  /** Python's `a <= b` on strings: code point by code point, a prefix
      before any longer text. */
  predicate Below(a: string, b: string)
    decreases |a|
  {
    a == [] || (b != [] && (a[0] < b[0] || (a[0] == b[0] && Below(a[1..], b[1..]))))
  }

  lemma {:induction false} BelowTotal(a: string, b: string)
    ensures Below(a, b) || Below(b, a)
    decreases |a|
  {
    if a != [] && b != [] && a[0] == b[0] {
      BelowTotal(a[1..], b[1..]);
    }
  }

  lemma {:induction false} BelowAntisymmetric(a: string, b: string)
    requires Below(a, b) && Below(b, a)
    ensures a == b
    decreases |a|
  {
    if a != [] {
      BelowAntisymmetric(a[1..], b[1..]);
      assert a == [a[0]] + a[1..] && b == [b[0]] + b[1..];
    }
  }

  lemma {:induction false} BelowTransitive(a: string, b: string, c: string)
    requires Below(a, b) && Below(b, c)
    ensures Below(a, c)
    decreases |a|
  {
    if a != [] && a[0] == b[0] && b[0] == c[0] {
      BelowTransitive(a[1..], b[1..], c[1..]);
    }
  }

  predicate Sorted(s: seq<string>) {
    forall i, j :: 0 <= i < j < |s| ==> Below(s[i], s[j])
  }

  /** `x` placed before the first element it is below. */
  function Insert(x: string, s: seq<string>): (r: seq<string>)
    ensures multiset(r) == multiset(s) + multiset{x}
    decreases |s|
  {
    if s == [] || Below(x, s[0]) then [x] + s
    else
      assert s == [s[0]] + s[1..];
      [s[0]] + Insert(x, s[1..])
  }

  /** `sorted(xs)`. Python uses another algorithm, but a sorted permutation
      is unique (SortedUnique), so any algorithm gives this result. */
  function Sort(xs: seq<string>): (r: seq<string>)
    ensures multiset(r) == multiset(xs)
    decreases |xs|
  {
    if xs == [] then []
    else
      assert xs == [xs[0]] + xs[1..];
      Insert(xs[0], Sort(xs[1..]))
  }

  lemma SortedTail(s: seq<string>)
    requires Sorted(s) && s != []
    ensures Sorted(s[1..])
  {
    forall i, j | 0 <= i < j < |s| - 1 ensures Below(s[1..][i], s[1..][j]) {
      assert s[1..][i] == s[i + 1] && s[1..][j] == s[j + 1];
    }
  }

  /** The first element of a sorted sequence is below all of them. */
  lemma SortedFirst(s: seq<string>, y: string)
    requires Sorted(s) && y in multiset(s)
    ensures Below(s[0], y)
  {
    var j :| 0 <= j < |s| && s[j] == y;
    if j == 0 {
      BelowTotal(y, y);
    }
  }

  lemma {:induction false} InsertSorted(x: string, s: seq<string>)
    requires Sorted(s)
    ensures Sorted(Insert(x, s))
    decreases |s|
  {
    if s == [] {
    } else if Below(x, s[0]) {
      var r := [x] + s;
      forall i, j | 0 <= i < j < |r| ensures Below(r[i], r[j]) {
        if i == 0 && j > 1 {
          BelowTransitive(x, s[0], s[j - 1]);
        }
      }
    } else {
      BelowTotal(x, s[0]);
      SortedTail(s);
      InsertSorted(x, s[1..]);
      var q := Insert(x, s[1..]);
      forall k | 0 <= k < |q| ensures Below(s[0], q[k]) {
        assert q[k] in multiset(q);
        if q[k] != x {
          assert q[k] in multiset(s[1..]);
          var j :| 0 <= j < |s[1..]| && s[1..][j] == q[k];
          assert s[1..][j] == s[j + 1];
        }
      }
      var r := [s[0]] + q;
      forall i, j | 0 <= i < j < |r| ensures Below(r[i], r[j]) {
        if i > 0 {
          assert r[i] == q[i - 1] && r[j] == q[j - 1];
        } else {
          assert r[j] == q[j - 1];
        }
      }
    }
  }

  /** `sorted(xs)` is sorted. */
  lemma {:induction false} SortSorted(xs: seq<string>)
    ensures Sorted(Sort(xs))
    decreases |xs|
  {
    if xs != [] {
      SortSorted(xs[1..]);
      InsertSorted(xs[0], Sort(xs[1..]));
    }
  }

  /** Two sorted sequences with the same elements are equal. */
  lemma {:induction false} SortedUnique(a: seq<string>, b: seq<string>)
    requires Sorted(a) && Sorted(b) && multiset(a) == multiset(b)
    ensures a == b
    decreases |a|
  {
    if a != [] {
      assert b != [] by {
        assert a[0] in multiset(b);
      }
      assert a[0] == b[0] by {
        assert a[0] in multiset(a);
        assert b[0] in multiset(b);
        SortedFirst(b, a[0]);
        SortedFirst(a, b[0]);
        BelowAntisymmetric(a[0], b[0]);
      }
      assert multiset(a[1..]) == multiset(b[1..]) by {
        assert a == [a[0]] + a[1..] && b == [b[0]] + b[1..];
        assert multiset(a[1..]) == multiset(a) - multiset{a[0]};
        assert multiset(b[1..]) == multiset(b) - multiset{b[0]};
      }
      SortedTail(a);
      SortedTail(b);
      SortedUnique(a[1..], b[1..]);
      SameHeadTail(a, b);
    } else {
      assert |b| == |multiset(b)|;
    }
  }

  // ---------------------------------------------------------------------
  // `normalize_cnf`

  /** What one line of the text contributes: nothing when it is blank or a
      comment starting with `c` once stripped, else its tokens joined by
      single blanks. */
  function Keep(line: string): seq<string> {
    var l := Strip(line);
    if l != [] && l[0] != 'c' then [Join(Words(l), " ")] else []
  }

  /** The contributions of a sequence of items, in order. */
  function FlatMap<A, B>(f: A -> seq<B>, xs: seq<A>): seq<B>
    decreases |xs|
  {
    if xs == [] then [] else FlatMap(f, xs[..|xs| - 1]) + f(xs[|xs| - 1])
  }

  /** The lines before sorting: the kept lines in text order. */
  function Kept(lines: seq<string>): seq<string> {
    FlatMap(Keep, lines)
  }

  function NormalizeLines(lines: seq<string>): seq<string> {
    Sort(Kept(lines))
  }

  /** `normalize_cnf(text)`: the stripped text split at line feeds, each
      line normalised, the result sorted. */
  function Normalized(text: string): seq<string> {
    NormalizeLines(SplitOn(Strip(text), '\n'))
  }

  /** `normalize_cnf`, with its loop over the lines. */
  method NormalizeCnf(text: string) returns (lines: seq<string>)
    ensures lines == Normalized(text)
  {
    var kept: seq<string> := [];
    var rows := SplitOn(Strip(text), '\n');
    for i := 0 to |rows|
      invariant kept == FlatMap(Keep, rows[..i])
    {
      assert rows[..i + 1][..i] == rows[..i];
      var line := Strip(rows[i]);
      if line != [] && line[0] != 'c' {
        var parts := Words(line);
        kept := kept + [Join(parts, " ")];
      }
    }
    assert rows[..|rows|] == rows;
    lines := Sort(kept);
  }

  /** The test `replayed_lines == expected_lines`. */
  predicate ReplayMatches(replayed: string, expected: string) {
    Normalized(replayed) == Normalized(expected)
  }

  // ---------------------------------------------------------------------
  // Facts about the normalisation

  /** A kept line is non-empty, does not start with `c` or a blank, has the
      stripped line's tokens, and is spaced canonically. A line is dropped
      exactly when it is blank or starts with `c` once stripped. */
  lemma KeepFacts(line: string)
    ensures |Keep(line)| <= 1
    ensures Keep(line) == [] <==> Strip(line) == [] || Strip(line)[0] == 'c'
    ensures Keep(line) != [] ==>
      var y := Keep(line)[0];
      y != [] && y[0] == Strip(line)[0] && y[0] != 'c' && !IsSpace(y[0]) &&
      Words(y) == Words(Strip(line)) && Join(Words(y), " ") == y
  {
    var l := Strip(line);
    if l != [] && l[0] != 'c' {
      WordsAreWords(l);
      FirstWord(l);
      JoinEnds(Words(l), " ");
      WordsOfJoin(Words(l));
    }
  }

  lemma {:induction false} FlatMapAppend<A, B>(f: A -> seq<B>, a: seq<A>, b: seq<A>)
    ensures FlatMap(f, a + b) == FlatMap(f, a) + FlatMap(f, b)
    decreases |b|
  {
    if b == [] {
      assert a + b == a;
    } else {
      assert (a + b)[..|a + b| - 1] == a + b[..|b| - 1];
      FlatMapAppend(f, a, b[..|b| - 1]);
    }
  }

  lemma FlatMapOne<A, B>(f: A -> seq<B>, x: A)
    ensures FlatMap(f, [x]) == f(x)
  {
    assert [x][..0] == [];
  }

  /** The last element of `xs` sits somewhere in a permutation `ys`; the
      rest of `ys` around it is a permutation of the rest of `xs`. */
  lemma Extract<A>(xs: seq<A>, ys: seq<A>) returns (a: seq<A>, b: seq<A>)
    requires xs != [] && multiset(xs) == multiset(ys)
    ensures ys == a + [xs[|xs| - 1]] + b
    ensures multiset(xs[..|xs| - 1]) == multiset(a + b)
  {
    var p, x := xs[..|xs| - 1], xs[|xs| - 1];
    assert xs == p + [x];
    assert x in multiset(ys);
    var k :| 0 <= k < |ys| && ys[k] == x;
    a, b := ys[..k], ys[k + 1..];
    assert ys == a + [x] + b;
    calc {
      multiset(p);
      multiset(xs) - multiset{x};
      multiset(ys) - multiset{x};
      multiset(a) + multiset(b);
      multiset(a + b);
    }
  }

  lemma FlatMapAround<A, B>(f: A -> seq<B>, a: seq<A>, x: A, b: seq<A>)
    ensures FlatMap(f, a + [x] + b) == FlatMap(f, a) + f(x) + FlatMap(f, b)
    ensures FlatMap(f, a + b) == FlatMap(f, a) + FlatMap(f, b)
  {
    FlatMapAppend(f, a + [x], b);
    FlatMapAppend(f, a, [x]);
    FlatMapAppend(f, a, b);
    FlatMapOne(f, x);
  }

  lemma FlatMapLast<A, B>(f: A -> seq<B>, xs: seq<A>)
    requires xs != []
    ensures FlatMap(f, xs) == FlatMap(f, xs[..|xs| - 1]) + f(xs[|xs| - 1])
  {
    assert xs == xs[..|xs| - 1] + [xs[|xs| - 1]];
    FlatMapAppend(f, xs[..|xs| - 1], [xs[|xs| - 1]]);
    FlatMapOne(f, xs[|xs| - 1]);
  }

  /** The contributions of a permutation are a permutation of the
      contributions. */
  lemma {:induction false} FlatMapPermutation<A, B>(f: A -> seq<B>, xs: seq<A>, ys: seq<A>)
    requires multiset(xs) == multiset(ys)
    ensures multiset(FlatMap(f, xs)) == multiset(FlatMap(f, ys))
    decreases |xs|
  {
    if xs == [] {
      assert |ys| == |multiset(ys)|;
    } else {
      var p, x := xs[..|xs| - 1], xs[|xs| - 1];
      var a, b := Extract(xs, ys);
      FlatMapPermutation(f, p, a + b);
      FlatMapLast(f, xs);
      FlatMapAround(f, a, x, b);
      calc {
        multiset(FlatMap(f, xs));
        multiset(FlatMap(f, p)) + multiset(f(x));
        multiset(FlatMap(f, a + b)) + multiset(f(x));
        multiset(FlatMap(f, a)) + multiset(FlatMap(f, b)) + multiset(f(x));
        multiset(FlatMap(f, a) + f(x) + FlatMap(f, b));
        multiset(FlatMap(f, ys));
      }
    }
  }

  /** Some line contributes `y`. */
  predicate KeptFrom(lines: seq<string>, y: string) {
    exists i :: 0 <= i < |lines| && Keep(lines[i]) == [y]
  }

  lemma KeptFromSnoc(lines: seq<string>, y: string)
    requires lines != []
    ensures KeptFrom(lines, y) <==> KeptFrom(lines[..|lines| - 1], y) || Keep(lines[|lines| - 1]) == [y]
  {
    var p := lines[..|lines| - 1];
    if KeptFrom(lines, y) {
      var i :| 0 <= i < |lines| && Keep(lines[i]) == [y];
      if i < |p| {
        assert p[i] == lines[i];
      }
    }
    if KeptFrom(p, y) {
      var i :| 0 <= i < |p| && Keep(p[i]) == [y];
      assert p[i] == lines[i];
    }
  }

  lemma KeptSnoc(lines: seq<string>)
    requires lines != []
    ensures Kept(lines) == Kept(lines[..|lines| - 1]) + Keep(lines[|lines| - 1])
  {
  }

  /** Kept lines come from the lines, at most one each. */
  lemma {:induction false} KeptMembers(lines: seq<string>)
    ensures |Kept(lines)| <= |lines|
    ensures forall y :: y in Kept(lines) <==> KeptFrom(lines, y)
    decreases |lines|
  {
    if lines != [] {
      var p := lines[..|lines| - 1];
      KeptMembers(p);
      KeepFacts(lines[|p|]);
      KeptSnoc(lines);
      forall y ensures y in Kept(lines) <==> KeptFrom(lines, y) {
        KeptFromSnoc(lines, y);
      }
    }
  }

  /** `normalize_cnf`: sorted, a permutation of the kept lines, no longer
      than the input, and its lines are exactly the normalised input lines
      that are neither blank nor comments. */
  lemma NormalizeFacts(lines: seq<string>)
    ensures Sorted(NormalizeLines(lines))
    ensures multiset(NormalizeLines(lines)) == multiset(Kept(lines))
    ensures |NormalizeLines(lines)| <= |lines|
    ensures forall y :: y in NormalizeLines(lines) <==> KeptFrom(lines, y)
  {
    SortSorted(Kept(lines));
    KeptMembers(lines);
    assert |NormalizeLines(lines)| == |multiset(Kept(lines))|;
    forall y ensures y in NormalizeLines(lines) <==> y in Kept(lines) {
      assert y in NormalizeLines(lines) <==> y in multiset(NormalizeLines(lines));
    }
  }

  lemma NormalizeMembers(lines: seq<string>)
    ensures forall y :: y in NormalizeLines(lines) <==> KeptFrom(lines, y)
  {
    NormalizeFacts(lines);
  }

  /** Permuting the input lines does not change the output. */
  lemma NormalizePermutation(a: seq<string>, b: seq<string>)
    requires multiset(a) == multiset(b)
    ensures NormalizeLines(a) == NormalizeLines(b)
  {
    FlatMapPermutation(Keep, a, b);
    SortSorted(Kept(a));
    SortSorted(Kept(b));
    SortedUnique(NormalizeLines(a), NormalizeLines(b));
  }

  // ---------------------------------------------------------------------
  // The comparison on formulas written by `to_dimacs`

  lemma ClauseLineChars(c: Cnf.Clause)
    ensures forall k :: 0 <= k < |Cnf.ClauseLine(c)| ==>
      IsDigit(Cnf.ClauseLine(c)[k]) || Cnf.ClauseLine(c)[k] == '-' || Cnf.ClauseLine(c)[k] == ' '
    ensures Cnf.ClauseLine(c)[|Cnf.ClauseLine(c)| - 1] == '0'
  {
  }

  /** Four words joined by blanks. */
  lemma JoinFour(w1: string, w2: string, w3: string, w4: string)
    ensures Join([w1, w2, w3, w4], " ") == w1 + (" " + (w2 + (" " + (w3 + (" " + w4)))))
  {
    var ws := [w1, w2, w3, w4];
    assert ws[1..] == [w2, w3, w4] && ws[1..][1..] == [w3, w4] && [w3, w4][1..] == [w4];
    assert Join([w3, w4], " ") == w3 + (" " + w4);
    assert Join([w2, w3, w4], " ") == w2 + (" " + (w3 + (" " + w4)));
  }

  lemma HeaderShape(n: nat, m: nat)
    ensures Cnf.Header(n, m) == "p" + (" " + ("cnf" + (" " + (NatToString(n) + (" " + NatToString(m))))))
  {
  }

  lemma DigitsWord(s: string)
    requires s != [] && AllDigits(s)
    ensures IsWord(s)
  {
    assert forall i :: 0 <= i < |s| ==> IsDigit(s[i]);
  }

  lemma HeaderWords(n: nat, m: nat)
    ensures Words(Cnf.Header(n, m)) == ["p", "cnf", NatToString(n), NatToString(m)]
    ensures Join(Words(Cnf.Header(n, m)), " ") == Cnf.Header(n, m)
  {
    HeaderShape(n, m);
    assert IsWord("p") && IsWord("cnf");
    DigitsWord(NatToString(n));
    DigitsWord(NatToString(m));
    var ws := ["p", "cnf", NatToString(n), NatToString(m)];
    JoinFour("p", "cnf", NatToString(n), NatToString(m));
    WordsOfJoin(ws);
  }

  /** The header line is kept as it is. */
  lemma HeaderKept(n: nat, m: nat)
    ensures Keep(Cnf.Header(n, m)) == [Cnf.Header(n, m)]
  {
    var h := Cnf.Header(n, m);
    var b := NatToString(m);
    HeaderShape(n, m);
    assert h[|h| - 1] == b[|b| - 1] && IsDigit(b[|b| - 1]);
    assert h[0] == 'p';
    StripKeeps(h);
    HeaderWords(n, m);
  }

  /** Two headers are equal only for equal counts. */
  lemma HeaderInjective(n: nat, m: nat, n': nat, m': nat)
    requires Cnf.Header(n, m) == Cnf.Header(n', m')
    ensures n == n' && m == m'
  {
    HeaderWords(n, m);
    HeaderWords(n', m');
    NatToStringRoundTrip(n);
    NatToStringRoundTrip(n');
    NatToStringRoundTrip(m);
    NatToStringRoundTrip(m');
  }

  /** What is kept of a clause line does not start with `p`. */
  lemma ClauseLineNotHeader(c: Cnf.Clause, y: string)
    requires Keep(Cnf.ClauseLine(c)) == [y]
    ensures y != [] && y[0] != 'p'
  {
    var line := Cnf.ClauseLine(c);
    KeepFacts(line);
    StripChars(line);
    ClauseLineChars(c);
    assert Strip(line)[0] in line;
  }

  /** `to_dimacs` text splits back into its lines. */
  lemma DimacsNormalized(cs: seq<Cnf.Clause>)
    ensures Normalized(Cnf.DimacsText(cs)) == NormalizeLines(Cnf.DimacsLines(cs))
  {
    var lines := Cnf.DimacsLines(cs);
    forall k | 0 <= k < |lines| ensures lines[k] != [] && '\n' !in lines[k] {
      if k > 0 {
        ClauseLineChars(cs[k - 1]);
        assert lines[k] == Cnf.ClauseLine(cs[k - 1]);
      }
    }
    JoinEnds(lines, "\n");
    var body := Join(lines, "\n");
    var last := lines[|lines| - 1];
    assert !IsSpace(body[|body| - 1]) by {
      if |lines| > 1 {
        ClauseLineChars(cs[|cs| - 1]);
      } else {
        var m := NatToString(|cs|);
        assert last[|last| - 1] == m[|m| - 1] && IsDigit(m[|m| - 1]);
      }
    }
    StripNewline(body);
    SplitOnJoin(lines, '\n');
  }

  lemma VarsOfWithin(a: seq<Cnf.Clause>, b: seq<Cnf.Clause>)
    requires multiset(a) == multiset(b)
    ensures Cnf.VarsOf(a) <= Cnf.VarsOf(b)
  {
    forall v | v in Cnf.VarsOf(a) ensures v in Cnf.VarsOf(b) {
      var i, j :| 0 <= i < |a| && 0 <= j < |a[i]| && Expr.Abs(a[i][j]) == v;
      assert a[i] in multiset(b);
      var i' :| 0 <= i' < |b| && b[i'] == a[i];
      assert Expr.Abs(b[i'][j]) == v;
    }
  }

  /** Reordering the clauses keeps the header's variable count. */
  lemma MaxVarPermutation(a: seq<Cnf.Clause>, b: seq<Cnf.Clause>)
    requires multiset(a) == multiset(b)
    ensures Cnf.MaxVar(a) == Cnf.MaxVar(b)
  {
    VarsOfWithin(a, b);
    VarsOfWithin(b, a);
    Cnf.MaxVarBounds(a);
    Cnf.MaxVarBounds(b);
  }

  function ClauseLines(cs: seq<Cnf.Clause>): seq<string> {
    FlatMap((c: Cnf.Clause) => [Cnf.ClauseLine(c)], cs)
  }

  lemma ClauseLinesAre(cs: seq<Cnf.Clause>)
    ensures Cnf.DimacsLines(cs)[1..] == ClauseLines(cs)
  {
    var a, b := Cnf.DimacsLines(cs)[1..], ClauseLines(cs);
    FlatMapSingletons((c: Cnf.Clause) => [Cnf.ClauseLine(c)], Cnf.ClauseLine, cs);
    assert forall i :: 0 <= i < |a| ==> a[i] == Cnf.ClauseLine(cs[i]);
    SameElements(a, b);
  }

  /** A contribution of exactly one value per element keeps the elements'
      positions. */
  lemma {:induction false} FlatMapSingletons<A, B>(f: A -> seq<B>, g: A -> B, xs: seq<A>)
    requires forall x :: f(x) == [g(x)]
    ensures |FlatMap(f, xs)| == |xs|
    ensures forall i :: 0 <= i < |xs| ==> FlatMap(f, xs)[i] == g(xs[i])
    decreases |xs|
  {
    if xs != [] {
      var p := xs[..|xs| - 1];
      FlatMapSingletons(f, g, p);
      assert forall i :: 0 <= i < |p| ==> p[i] == xs[i];
    }
  }

  /** The replay check does not depend on the order of the clauses. */
  lemma ClauseOrderIgnored(a: seq<Cnf.Clause>, b: seq<Cnf.Clause>)
    requires multiset(a) == multiset(b)
    ensures ReplayMatches(Cnf.DimacsText(a), Cnf.DimacsText(b))
  {
    MaxVarPermutation(a, b);
    assert |a| == |multiset(a)| == |b|;
    ClauseLinesAre(a);
    ClauseLinesAre(b);
    FlatMapPermutation((c: Cnf.Clause) => [Cnf.ClauseLine(c)], a, b);
    var la, lb := Cnf.DimacsLines(a), Cnf.DimacsLines(b);
    assert la == [la[0]] + la[1..] && lb == [lb[0]] + lb[1..];
    NormalizePermutation(la, lb);
    DimacsNormalized(a);
    DimacsNormalized(b);
  }

  /** A contribution that is a line starting with `p`. */
  predicate GivesP(ys: seq<string>) {
    ys != [] && ys[0] != [] && ys[0][0] == 'p'
  }

  /** When only the first line can give a line starting with `p`, and
      the first line gives `h`, which does, a normalised text equal to
      another that holds a line `y` starting with `p` gives `y == h`. */
  lemma FirstLineOnly(lines: seq<string>, h: string, y: string)
    requires lines != [] && Keep(lines[0]) == [h]
    requires forall i :: 1 <= i < |lines| ==> !GivesP(Keep(lines[i]))
    requires y in NormalizeLines(lines) && y != [] && y[0] == 'p'
    ensures y == h
  {
    NormalizeMembers(lines);
    var i :| 0 <= i < |lines| && Keep(lines[i]) == [y];
  }

  /** What the first line gives is a line of the normalised text. */
  lemma FirstLineKept(lines: seq<string>, h: string)
    requires lines != [] && Keep(lines[0]) == [h]
    ensures h in NormalizeLines(lines)
  {
    NormalizeMembers(lines);
    assert KeptFrom(lines, h);
  }

  /** Two line lists that normalise alike, each with a first line that
      alone can give a line starting with `p`, have equal first lines
      after normalisation. */
  lemma SameFirstLine(la: seq<string>, lb: seq<string>, ha: string, hb: string)
    requires NormalizeLines(la) == NormalizeLines(lb)
    requires la != [] && Keep(la[0]) == [ha] && ha != [] && ha[0] == 'p'
    requires lb != [] && Keep(lb[0]) == [hb]
    requires forall i :: 1 <= i < |lb| ==> !GivesP(Keep(lb[i]))
    ensures ha == hb
  {
    FirstLineKept(la, ha);
    FirstLineOnly(lb, hb, ha);
  }

  lemma HeaderStartsWithP(n: nat, m: nat)
    ensures Cnf.Header(n, m) != [] && Cnf.Header(n, m)[0] == 'p'
  {
  }

  /** A header line first, then clause lines: two such lists that
      normalise alike have equal counts in their headers. */
  lemma HeadersAgree(la: seq<string>, lb: seq<string>, b: seq<Cnf.Clause>, na: nat, ma: nat, nb: nat, mb: nat)
    requires NormalizeLines(la) == NormalizeLines(lb)
    requires la != [] && la[0] == Cnf.Header(na, ma)
    requires |lb| == |b| + 1 && lb[0] == Cnf.Header(nb, mb)
    requires forall i :: 1 <= i < |lb| ==> lb[i] == Cnf.ClauseLine(b[i - 1])
    ensures na == nb && ma == mb
  {
    HeaderKept(na, ma);
    HeaderKept(nb, mb);
    HeaderStartsWithP(na, ma);
    forall i | 1 <= i < |lb| ensures !GivesP(Keep(lb[i])) {
      KeepFacts(lb[i]);
      if Keep(lb[i]) != [] {
        ClauseLineNotHeader(b[i - 1], Keep(lb[i])[0]);
      }
    }
    SameFirstLine(la, lb, Cnf.Header(na, ma), Cnf.Header(nb, mb));
    HeaderInjective(na, ma, nb, mb);
  }

  /** The lines `to_dimacs` writes for two formulas normalise alike only
      when the formulas have the same variable and clause counts. */
  lemma HeaderComparedLines(a: seq<Cnf.Clause>, b: seq<Cnf.Clause>, la: seq<string>, lb: seq<string>)
    requires la == Cnf.DimacsLines(a) && lb == Cnf.DimacsLines(b)
    requires NormalizeLines(la) == NormalizeLines(lb)
    ensures Cnf.MaxVar(a) == Cnf.MaxVar(b) && |a| == |b|
  {
    Cnf.DimacsShape(a);
    Cnf.DimacsShape(b);
    HeadersAgree(la, lb, b, Cnf.MaxVar(a), |a|, Cnf.MaxVar(b), |b|);
  }

  /** The header is kept, so the check on the texts `to_dimacs` writes also
      compares the variable count and the clause count. */
  lemma HeaderCompared(a: seq<Cnf.Clause>, b: seq<Cnf.Clause>, ta: string, tb: string)
    requires ta == Cnf.DimacsText(a) && tb == Cnf.DimacsText(b)
    requires ReplayMatches(ta, tb)
    ensures Cnf.MaxVar(a) == Cnf.MaxVar(b) && |a| == |b|
  {
    DimacsNormalized(a);
    DimacsNormalized(b);
    HeaderComparedLines(a, b, Cnf.DimacsLines(a), Cnf.DimacsLines(b));
  }
}
