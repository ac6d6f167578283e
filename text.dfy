/** The Python built-ins on `str` that the STTF code relies on: character
    classes (`str.isspace`, the regular-expression classes `\s`, `\d`, `\w`),
    `strip`, `split` with and without a separator, `join`, `int(...)` on
    decimal text and `str(...)` on integers.  Strings are `seq<char>`
    (Dafny's Unicode characters). */
module Text {
  import opened Wrappers

  /** Python's `str.isspace()`, which is also what `\s`, `str.strip()` and
      `str.split()` treat as whitespace: the ASCII controls tab to carriage
      return, the separators 0x1C to 0x1F, the space, and the Unicode
      spaces from U+0085 to U+3000. */
  predicate IsSpace(c: char) {
    if c <= ' ' then '\t' <= c <= '\r' || '\U{1C}' <= c
    else if c < '\U{85}' then false
    else
      || c == '\U{85}' || c == '\U{A0}' || c == '\U{1680}'
      || ('\U{2000}' <= c <= '\U{200A}')
      || c == '\U{2028}' || c == '\U{2029}' || c == '\U{202F}' || c == '\U{205F}' || c == '\U{3000}'
  }

  predicate NotSpace(c: char) { !IsSpace(c) }

  /** The regular-expression class `\d`, restricted to ASCII digits. */
  predicate IsDigit(c: char) { '0' <= c <= '9' }

  /** The regular-expression class `\w`, restricted to ASCII. */
  predicate IsWordChar(c: char) { ('a' <= c <= 'z') || ('A' <= c <= 'Z') || IsDigit(c) || c == '_' }

  /** The regular-expression `.` (anything but a line feed). */
  predicate NotNewline(c: char) { c != '\n' }

  /** Any character but `x`. */
  function NotChar(x: char): char -> bool {
    c => c != x
  }

  /** Length of the longest prefix of `s` whose characters all satisfy `p`:
      what a greedy `[class]*` consumes. */
  function Span(s: string, p: char -> bool): (n: nat)
    ensures n <= |s|
    ensures forall i :: 0 <= i < n ==> p(s[i])
    ensures n < |s| ==> !p(s[n])
  {
    if s == [] || !p(s[0]) then 0 else 1 + Span(s[1..], p)
  }

  /** The longest prefix of `s` without a line feed: what a greedy `(.*)` captures. */
  function RestOfLine(s: string): (r: string)
    ensures r <= s && '\n' !in r
    ensures |r| < |s| ==> s[|r|] == '\n'
  {
    var n := Span(s, NotNewline);
    assert forall i :: 0 <= i < n ==> s[..n][i] != '\n';
    s[..n]
  }

  function LStrip(s: string): (r: string)
    ensures |r| <= |s| && r == s[|s| - |r|..]
    ensures r == [] || !IsSpace(r[0])
    ensures forall i :: 0 <= i < |s| - |r| ==> IsSpace(s[i])
  {
    s[Span(s, IsSpace)..]
  }

  function RStrip(s: string): (r: string)
    ensures r <= s
    ensures r == [] || !IsSpace(r[|r| - 1])
    ensures forall i :: |r| <= i < |s| ==> IsSpace(s[i])
    decreases |s|
  {
    if s != [] && IsSpace(s[|s| - 1]) then RStrip(s[..|s| - 1]) else s
  }

  /** Python's `str.strip()` with no argument: whitespace is removed from
      both ends. */
  function Strip(s: string): (r: string)
    ensures |r| <= |s|
    ensures r != [] ==> !IsSpace(r[0]) && !IsSpace(r[|r| - 1])
    decreases |s|
  {
    if s != [] && IsSpace(s[0]) then Strip(s[1..])
    else if s != [] && IsSpace(s[|s| - 1]) then Strip(s[..|s| - 1])
    else s
  }

  /** Stripping a text that starts with a non-blank only removes its
      trailing whitespace. */
  lemma {:induction false} StripFromWord(s: string)
    requires s != [] && !IsSpace(s[0])
    ensures Strip(s) == RStrip(s)
    decreases |s|
  {
    if IsSpace(s[|s| - 1]) {
      assert |s| > 1;
      assert s[..|s| - 1][0] == s[0];
      StripFromWord(s[..|s| - 1]);
    }
  }

  /** Stripping a text that starts and goes on with non-blanks keeps its
      head and drops the trailing whitespace of its tail. */
  lemma StripHead(head: string, tail: string)
    requires head != [] && !IsSpace(head[0])
    requires tail != [] && !IsSpace(tail[0])
    ensures Strip(head + tail) == head + RStrip(tail)
    ensures RStrip(tail) != [] && RStrip(tail)[0] == tail[0]
  {
    StripFromWord(head + tail);
    RStripConcat(head, tail);
  }

  /** Two words and a tail, separated by blanks: the tail after a head. */
  lemma WordsThenTail(d: string, w: string, tail: string)
    ensures d + (" " + (w + (" " + tail))) == (d + (" " + (w + " "))) + tail
  {
  }

  lemma ThenTail(a: string, b: string, c: string, tail: string)
    ensures a + (b + (c + tail)) == (a + (b + c)) + tail
  {
  }

  /** Trailing whitespace of a concatenation: that of the second part, or,
      when the second part is all blank, that of the first too. */
  lemma {:induction false} RStripConcat(a: string, b: string)
    ensures RStrip(a + b) == if RStrip(b) == [] then RStrip(a) else a + RStrip(b)
    decreases |b|
  {
    if b == [] {
      assert a + b == a;
    } else if IsSpace(b[|b| - 1]) {
      assert (a + b)[..|a + b| - 1] == a + b[..|b| - 1];
      RStripConcat(a, b[..|b| - 1]);
    }
  }

  /** Python's `str.split(None, maxsplit)`: runs of whitespace separate the
      fields; after `maxsplit` fields (when it is not negative) the rest,
      without its leading whitespace, is the last field. */
  function Split(s: string, maxsplit: int): (parts: seq<string>)
    ensures forall k :: 0 <= k < |parts| ==> parts[k] != [] && !IsSpace(parts[k][0])
    decreases |s|
  {
    var t := LStrip(s);
    if t == [] then []
    else if maxsplit == 0 then [t]
    else
      var n := Span(t, NotSpace);
      assert n > 0 by { assert NotSpace(t[0]); }
      var rest := Split(t[n..], if maxsplit > 0 then maxsplit - 1 else maxsplit);
      FieldsCons(t[..n], rest);
      [t[..n]] + rest
  }

  lemma FieldsCons(w: string, rest: seq<string>)
    requires w != [] && !IsSpace(w[0])
    requires forall k :: 0 <= k < |rest| ==> rest[k] != [] && !IsSpace(rest[k][0])
    ensures forall k :: 0 <= k < |[w] + rest| ==> ([w] + rest)[k] != [] && !IsSpace(([w] + rest)[k][0])
  {
    forall k | 0 <= k < |[w] + rest| ensures ([w] + rest)[k] != [] && !IsSpace(([w] + rest)[k][0]) {
      if k > 0 {
        assert ([w] + rest)[k] == rest[k - 1];
      }
    }
  }

  /** Python's `str.split()`: the whitespace-separated words. */
  function Words(s: string): seq<string> {
    Split(s, -1)
  }

  /** Python's `str.split(sep)` for a one-character separator. */
  function SplitOn(s: string, sep: char): (parts: seq<string>)
    ensures |parts| >= 1
    decreases |s|
  {
    var n := Span(s, NotChar(sep));
    if n == |s| then [s] else [s[..n]] + SplitOn(s[n + 1..], sep)
  }

  /** Python's `sep.join(parts)`. */
  function Join(parts: seq<string>, sep: string): string {
    if parts == [] then []
    else if |parts| == 1 then parts[0]
    else parts[0] + sep + Join(parts[1..], sep)
  }

  predicate AllDigits(s: string) {
    forall i :: 0 <= i < |s| ==> IsDigit(s[i])
  }

  function DigitValue(c: char): nat
    requires IsDigit(c)
  {
    c as int - '0' as int
  }

  function DigitsValue(s: string): nat
    requires AllDigits(s)
    decreases |s|
  {
    if s == [] then 0 else DigitsValue(s[..|s| - 1]) * 10 + DigitValue(s[|s| - 1])
  }

  /** Python's `int(s)` on decimal text: surrounding whitespace, an optional
      sign, then one or more digits; anything else raises, here `None`. */
  function ParseInt(s: string): Option<int> {
    var t := Strip(s);
    if t != [] && (t[0] == '-' || t[0] == '+') then
      if |t| > 1 && AllDigits(t[1..]) then
        Some(if t[0] == '-' then 0 - DigitsValue(t[1..]) as int else DigitsValue(t[1..]) as int)
      else None
    else if t != [] && AllDigits(t) then Some(DigitsValue(t))
    else None
  }

  function DigitChar(d: nat): (c: char)
    requires d < 10
    ensures IsDigit(c) && DigitValue(c) == d
  {
    ('0' as int + d) as char
  }

  function NatToString(n: nat): (s: string)
    ensures s != [] && AllDigits(s)
    decreases n
  {
    if n < 10 then [DigitChar(n)] else NatToString(n / 10) + [DigitChar(n % 10)]
  }

  /** Python's `str(i)` for an integer. */
  function IntToString(i: int): (s: string)
    ensures s != []
    ensures forall k :: 0 <= k < |s| ==> IsDigit(s[k]) || (k == 0 && s[k] == '-')
  {
    if i < 0 then "-" + NatToString(-i) else NatToString(i)
  }

  /** Python's `" ".join(map(str, xs))`. */
  function IntsToString(xs: seq<int>): (s: string)
    ensures forall k :: 0 <= k < |s| ==> IsDigit(s[k]) || s[k] == '-' || s[k] == ' '
    ensures s != [] ==> s[0] != ' '
    decreases |xs|
  {
    if xs == [] then []
    else if |xs| == 1 then IntToString(xs[0])
    else IntToString(xs[0]) + (" " + IntsToString(xs[1..]))
  }

  // ---------------------------------------------------------------------
  // Facts about the operations above

  lemma {:induction false} NatToStringRoundTrip(n: nat)
    ensures DigitsValue(NatToString(n)) == n
    decreases n
  {
    if n >= 10 {
      var s := NatToString(n);
      assert s[..|s| - 1] == NatToString(n / 10);
      NatToStringRoundTrip(n / 10);
    }
  }

  lemma StripKeeps(s: string)
    requires s != [] && !IsSpace(s[0]) && !IsSpace(s[|s| - 1])
    ensures Strip(s) == s
  {
    assert LStrip(s) == s;
  }

  lemma ParseDigits(d: string)
    requires d != [] && AllDigits(d)
    ensures ParseInt(d) == Some(DigitsValue(d) as int)
  {
    StripKeeps(d);
  }

  lemma ParseNegative(d: string)
    requires d != [] && AllDigits(d)
    ensures ParseInt("-" + d) == Some(0 - DigitsValue(d) as int)
  {
    var s := "-" + d;
    assert s[|s| - 1] == d[|d| - 1];
    StripKeeps(s);
    assert s[1..] == d;
  }

  /** `int(str(i)) == i`. */
  lemma IntToStringRoundTrip(i: int)
    ensures ParseInt(IntToString(i)) == Some(i)
  {
    if i < 0 {
      ParseNegative(NatToString(-i));
      NatToStringRoundTrip(-i);
    } else {
      ParseDigits(NatToString(i));
      NatToStringRoundTrip(i);
    }
  }

  lemma {:induction false} SpanAll(a: string, b: string, p: char -> bool)
    requires forall i :: 0 <= i < |a| ==> p(a[i])
    ensures Span(a + b, p) == |a| + Span(b, p)
    decreases |a|
  {
    if a != [] {
      assert (a + b)[1..] == a[1..] + b;
      SpanAll(a[1..], b, p);
    } else {
      assert a + b == b;
    }
  }

  lemma {:induction false} SpanStops(a: string, b: string, p: char -> bool, k: nat)
    requires k < |a| && !p(a[k])
    ensures Span(a + b, p) == Span(a, p) <= k
    decreases |a|
  {
    if k > 0 && p(a[0]) {
      assert (a + b)[1..] == a[1..] + b;
      SpanStops(a[1..], b, p, k - 1);
    }
  }

  /** A space followed by text that does not start with whitespace strips to
      that text on the left. */
  lemma LStripAfterSpaces(a: string, b: string)
    requires forall i :: 0 <= i < |a| ==> IsSpace(a[i])
    requires b == [] || !IsSpace(b[0])
    ensures LStrip(a + b) == b
  {
    SpanAll(a, b, IsSpace);
  }

  lemma {:induction false} StripAfterSpaces(a: string, b: string)
    requires forall i :: 0 <= i < |a| ==> IsSpace(a[i])
    requires b != [] && !IsSpace(b[0]) && !IsSpace(b[|b| - 1])
    ensures Strip(a + b) == b
    decreases |a|
  {
    if a == [] {
      assert a + b == b;
      StripKeeps(b);
    } else {
      assert (a + b)[1..] == a[1..] + b;
      StripAfterSpaces(a[1..], b);
    }
  }

  /** Stripping twice is stripping once. */
  lemma StripIdempotent(s: string)
    ensures Strip(Strip(s)) == Strip(s)
  {
    var r := Strip(s);
    if r != [] {
      StripKeeps(r);
    }
  }
  /** `split` begins by dropping the leading whitespace. */
  lemma SplitAfterSpace(t: string, maxsplit: int)
    ensures Split(" " + t, maxsplit) == Split(t, maxsplit)
  {
    assert (" " + t)[1..] == t;
  }

  /** A word without whitespace, followed by nothing or by whitespace, is the
      first field of a split that may still split. */
  lemma SplitWord(a: string, b: string, maxsplit: int)
    requires a != [] && forall i :: 0 <= i < |a| ==> !IsSpace(a[i])
    requires b == [] || IsSpace(b[0])
    requires maxsplit != 0
    ensures Split(a + b, maxsplit) == [a] + Split(b, if maxsplit > 0 then maxsplit - 1 else maxsplit)
  {
    assert (a + b)[0] == a[0];
    assert LStrip(a + b) == a + b by {
      assert Span(a + b, IsSpace) == 0;
    }
    SpanAll(a, b, NotSpace);
    assert Span(b, NotSpace) == 0;
    assert (a + b)[..|a|] == a;
    assert (a + b)[|a|..] == b;
  }

  /** `list(map(str, xs))`. */
  function IntStrings(xs: seq<int>): (r: seq<string>)
    ensures |r| == |xs|
  {
    seq(|xs|, i requires 0 <= i < |xs| => IntToString(xs[i]))
  }

  lemma IntToStringNoSpace(i: int)
    ensures forall k :: 0 <= k < |IntToString(i)| ==> !IsSpace(IntToString(i)[k])
  {
  }

  /** The words of `" ".join(map(str, xs))`, followed by nothing or by text
      that starts with whitespace, are the integers' texts. */
  lemma {:induction false} SplitInts(xs: seq<int>, b: string)
    requires xs != []
    requires b == [] || IsSpace(b[0])
    ensures Words(IntsToString(xs) + b) == IntStrings(xs) + Words(b)
    decreases |xs|
  {
    var w := IntToString(xs[0]);
    IntToStringNoSpace(xs[0]);
    IntStringsCons(xs);
    if |xs| == 1 {
      SplitLastInt(xs, b);
    } else {
      var t := IntsToString(xs[1..]);
      assert IntsToString(xs) + b == w + (" " + (t + b));
      SplitWordSpace(w, t + b);
      SplitInts(xs[1..], b);
      ConcatAssoc([w], IntStrings(xs[1..]), Words(b));
    }
  }

  lemma SplitLastInt(xs: seq<int>, b: string)
    requires |xs| == 1
    requires b == [] || IsSpace(b[0])
    ensures Words(IntsToString(xs) + b) == [IntToString(xs[0])] + Words(b)
  {
    IntToStringNoSpace(xs[0]);
    SplitWord(IntToString(xs[0]), b, -1);
  }

  lemma SplitWordSpace(w: string, t: string)
    requires w != [] && forall i :: 0 <= i < |w| ==> !IsSpace(w[i])
    ensures Words(w + (" " + t)) == [w] + Words(t)
  {
    SplitWord(w, " " + t, -1);
    SplitAfterSpace(t, -1);
  }

  /** A word followed by a blank and more text, under a split limit. */
  lemma SplitWordThen(w: string, t: string, maxsplit: nat)
    requires w != [] && forall i :: 0 <= i < |w| ==> !IsSpace(w[i])
    requires maxsplit > 0
    ensures Split(w + (" " + t), maxsplit) == [w] + Split(t, maxsplit - 1)
  {
    SplitWord(w, " " + t, maxsplit);
    SplitAfterSpace(t, maxsplit - 1);
  }

  /** With no splits left, a text not starting with a blank is one field. */
  lemma SplitZero(t: string)
    requires t != [] && !IsSpace(t[0])
    ensures Split(t, 0) == [t]
  {
    assert Span(t, IsSpace) == 0;
  }

  lemma IntStringsCons(xs: seq<int>)
    requires xs != []
    ensures IntStrings(xs) == [IntToString(xs[0])] + IntStrings(xs[1..])
  {
    var r := [IntToString(xs[0])] + IntStrings(xs[1..]);
    forall i | 0 <= i < |xs| ensures IntStrings(xs)[i] == r[i] {
      if i > 0 {
        assert r[i] == IntStrings(xs[1..])[i - 1];
      }
    }
  }

  /** `str.split()` inverts `" ".join(map(str, xs))`. */
  lemma WordsOfInts(xs: seq<int>)
    ensures Words(IntsToString(xs)) == IntStrings(xs)
  {
    if xs != [] {
      SplitInts(xs, []);
      assert IntsToString(xs) + [] == IntsToString(xs);
    }
  }

  /** A word: non-empty and without whitespace. */
  predicate IsWord(w: string) {
    w != [] && forall i :: 0 <= i < |w| ==> !IsSpace(w[i])
  }

  /** The fields of `str.split()` are words. */
  lemma {:induction false} WordsAreWords(s: string)
    ensures forall k :: 0 <= k < |Words(s)| ==> IsWord(Words(s)[k])
    decreases |s|
  {
    var t := LStrip(s);
    if t == [] {
      assert Words(s) == [];
    } else {
      var n := Span(t, NotSpace);
      assert n > 0 by { assert NotSpace(t[0]); }
      var w := t[..n];
      assert IsWord(w) by {
        forall i | 0 <= i < |w| ensures !IsSpace(w[i]) {
          assert NotSpace(t[i]);
        }
      }
      var rest := Words(t[n..]);
      assert Words(s) == [w] + rest by {
        assert Split(s, -1) == [w] + Split(t[n..], -1);
      }
      WordsAreWords(t[n..]);
      ConsWords(w, rest);
    }
  }

  lemma ConsWords(w: string, rest: seq<string>)
    requires IsWord(w) && forall k :: 0 <= k < |rest| ==> IsWord(rest[k])
    ensures forall k :: 0 <= k < |[w] + rest| ==> IsWord(([w] + rest)[k])
  {
    forall k | 0 <= k < |[w] + rest| ensures IsWord(([w] + rest)[k]) {
      if k > 0 {
        assert ([w] + rest)[k] == rest[k - 1];
      }
    }
  }

  /** `str.split()` inverts `" ".join(words)`. */
  lemma {:induction false} WordsOfJoin(ws: seq<string>)
    requires forall k :: 0 <= k < |ws| ==> IsWord(ws[k])
    ensures Words(Join(ws, " ")) == ws
    decreases |ws|
  {
    if |ws| == 1 {
      SplitWord(ws[0], [], -1);
      assert ws[0] + [] == ws[0];
    } else if |ws| > 1 {
      var rest := Join(ws[1..], " ");
      assert ws[0] + " " + rest == ws[0] + (" " + rest);
      SplitWordSpace(ws[0], rest);
      WordsOfJoin(ws[1..]);
    }
  }

  /** A text that starts with a non-blank has a first word that starts
      with the same character. */
  lemma FirstWord(s: string)
    requires s != [] && !IsSpace(s[0])
    ensures Words(s) != [] && Words(s)[0][0] == s[0]
  {
    assert LStrip(s) == s;
  }

  /** The first and the last character of a join of non-empty parts. */
  lemma {:induction false} JoinEnds(parts: seq<string>, sep: string)
    requires parts != [] && forall k :: 0 <= k < |parts| ==> parts[k] != []
    ensures Join(parts, sep) != []
    ensures Join(parts, sep)[0] == parts[0][0]
    ensures Join(parts, sep)[|Join(parts, sep)| - 1] == parts[|parts| - 1][|parts[|parts| - 1]| - 1]
    decreases |parts|
  {
    if |parts| > 1 {
      JoinEnds(parts[1..], sep);
    }
  }

  /** `split` on a separator inverts a join with it. */
  lemma SplitOnNone(a: string, sep: char)
    requires sep !in a
    ensures SplitOn(a, sep) == [a]
  {
    assert forall i :: 0 <= i < |a| ==> NotChar(sep)(a[i]);
    SpanAll(a, [], NotChar(sep));
    assert a + [] == a;
  }

  lemma SplitOnFirst(a: string, rest: string, sep: char)
    requires sep !in a
    ensures SplitOn(a + ([sep] + rest), sep) == [a] + SplitOn(rest, sep)
  {
    var s := a + ([sep] + rest);
    assert forall i :: 0 <= i < |a| ==> NotChar(sep)(a[i]);
    SpanAll(a, [sep] + rest, NotChar(sep));
    assert Span([sep] + rest, NotChar(sep)) == 0;
    assert s[..|a|] == a && s[|a| + 1..] == rest;
  }

  lemma {:induction false} SplitOnJoin(parts: seq<string>, sep: char)
    requires parts != [] && forall k :: 0 <= k < |parts| ==> sep !in parts[k]
    ensures SplitOn(Join(parts, [sep]), sep) == parts
    decreases |parts|
  {
    if |parts| == 1 {
      SplitOnNone(parts[0], sep);
    } else {
      var rest := Join(parts[1..], [sep]);
      assert Join(parts, [sep]) == parts[0] + ([sep] + rest);
      SplitOnFirst(parts[0], rest, sep);
      SplitOnJoin(parts[1..], sep);
      assert parts == [parts[0]] + parts[1..];
    }
  }

  /** Every character of a stripped text is a character of the text. */
  lemma {:induction false} StripChars(s: string)
    ensures forall k :: 0 <= k < |Strip(s)| ==> Strip(s)[k] in s
    decreases |s|
  {
    if s != [] && IsSpace(s[0]) {
      StripChars(s[1..]);
    } else if s != [] && IsSpace(s[|s| - 1]) {
      StripChars(s[..|s| - 1]);
    }
  }

  /** A trimmed text followed by a line feed strips back to itself. */
  lemma StripNewline(s: string)
    requires s != [] && !IsSpace(s[0]) && !IsSpace(s[|s| - 1])
    ensures Strip(s + "\n") == s
  {
    assert (s + "\n")[..|s|] == s;
    StripKeeps(s);
  }

  // ---------------------------------------------------------------------
  // Sequences

  lemma ConcatAssoc<T>(a: seq<T>, b: seq<T>, c: seq<T>)
    ensures a + (b + c) == (a + b) + c
  {
  }

  lemma ConsSplit<T>(xs: seq<T>, t: seq<T>)
    requires xs != []
    ensures [xs[0]] + (xs[1..] + t) == xs + t
  {
    assert [xs[0]] + xs[1..] == xs;
  }

  lemma Three<T>(x: T, y: T, z: T)
    ensures [x] + ([y] + [z]) == [x, y, z]
  {
  }

  lemma PrefixOfPrefix<T>(xs: seq<T>, k: nat, j: nat)
    requires j <= k <= |xs|
    ensures xs[..k][..j] == xs[..j]
  {
  }

  lemma PrefixSnoc<T>(xs: seq<T>, k: nat)
    requires 0 < k <= |xs|
    ensures xs[..k] == xs[..k - 1] + [xs[k - 1]]
  {
  }

  lemma SameHeadTail<T>(a: seq<T>, b: seq<T>)
    requires a != [] && b != [] && a[0] == b[0] && a[1..] == b[1..]
    ensures a == b
  {
    assert a == [a[0]] + a[1..] && b == [b[0]] + b[1..];
  }

  lemma SnocPrefix<T>(xs: seq<T>, x: T)
    ensures (xs + [x])[..|xs|] == xs && (xs + [x])[|xs|] == x
  {
  }

  lemma DropLast<T>(xs: seq<T>)
    requires xs != []
    ensures xs[..|xs| - 1] + [xs[|xs| - 1]] == xs
  {
  }

  lemma PrefixOfLonger<T>(p: seq<T>, q: seq<T>, s: seq<T>)
    requires p <= q && q <= s
    ensures p <= s
  {
  }

  /** A sequence longer than the set holding its elements repeats one. */
  lemma {:induction false} Pigeonhole<T>(xs: seq<T>, s: set<T>) returns (i: nat, j: nat)
    requires forall k :: 0 <= k < |xs| ==> xs[k] in s
    requires |xs| > |s|
    ensures i < j < |xs| && xs[i] == xs[j]
    decreases |xs|
  {
    if xs[0] in xs[1..] {
      var k :| 0 <= k < |xs[1..]| && xs[1..][k] == xs[0];
      i, j := 0, k + 1;
    } else {
      var i', j' := Pigeonhole(xs[1..], s - {xs[0]});
      i, j := i' + 1, j' + 1;
    }
  }

  /** Sequences that agree at every index are equal. */
  lemma SameElements<T>(a: seq<T>, b: seq<T>)
    requires |a| == |b| && forall i :: 0 <= i < |a| ==> a[i] == b[i]
    ensures a == b
  {
  }
}
