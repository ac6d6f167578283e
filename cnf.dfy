/** `CNFFormula` of the replay engine: a list of clauses, a dictionary from
    clause ids to clauses, an id counter and the bookkeeping of renamed,
    eliminated and substituted variables.  The state is first described as
    a value with one function per operation; the class `CNFFormula` at the
    end keeps the same fields and is proved to perform those functions. */
module Cnf {
  import opened Wrappers
  import opened Text
  import Expr

  type Clause = seq<int>

  /** The fields of `CNFFormula`.  `order` lists the keys of `clauseIds` in
      the dictionary's insertion order, which is the order its loops visit. */
  datatype State = State(
    numVars: int,
    clauses: seq<Clause>,
    clauseIds: map<int, Clause>,
    order: seq<int>,
    nextClauseId: int,
    varMapping: map<int, int>,
    eliminatedVars: set<int>,
    substitutions: map<int, string>)

  /** A new `CNFFormula()`. */
  const Empty: State := State(0, [], map[], [], 1, map[], {}, map[])

  // ---------------------------------------------------------------------
  // List built-ins

  predicate Distinct<T(==)>(xs: seq<T>) {
    forall i, j :: 0 <= i < j < |xs| ==> xs[i] != xs[j]
  }

  /** Python's `list.index`: the first position holding `x`. */
  function IndexOf<T(==)>(xs: seq<T>, x: T): (r: nat)
    requires x in xs
    ensures r < |xs| && xs[r] == x
    ensures forall j :: 0 <= j < r ==> xs[j] != x
  {
    if xs[0] == x then 0 else 1 + IndexOf(xs[1..], x)
  }

  function RemoveAt<T>(xs: seq<T>, j: nat): (r: seq<T>)
    requires j < |xs|
    ensures |r| == |xs| - 1
  {
    xs[..j] + xs[j + 1..]
  }

  /** Python's `list.remove`: the first entry equal to `x` is deleted. */
  function ListRemove<T(==)>(xs: seq<T>, x: T): seq<T>
    requires x in xs
  {
    RemoveAt(xs, IndexOf(xs, x))
  }

  // ---------------------------------------------------------------------
  // The operations of `CNFFormula`

  /** `add_clause`: without an id the counter supplies one and advances;
      with one, the counter is left alone and an existing entry under that
      id is overwritten (keeping its place in the dictionary). */
  function WithClause(s: State, lits: Clause, id: Option<int>): (State, int) {
    var cid := if id.None? then s.nextClauseId else id.value;
    var next := if id.None? then s.nextClauseId + 1 else s.nextClauseId;
    (s.(clauses := s.clauses + [lits],
        clauseIds := s.clauseIds[cid := lits],
        order := if cid in s.clauseIds then s.order else s.order + [cid],
        nextClauseId := next),
     cid)
  }

  /** `remove_clause`: an unknown id changes nothing; a known one loses its
      dictionary entry and the first equal clause of the list. */
  function WithoutClause(s: State, id: int): State {
    if id !in s.clauseIds || id !in s.order then s
    else
      var c := s.clauseIds[id];
      s.(clauses := if c in s.clauses then ListRemove(s.clauses, c) else s.clauses,
         clauseIds := s.clauseIds - {id},
         order := ListRemove(s.order, id))
  }

  /** The literal comprehension of `rename_var`: a literal of variable `oldVar`
      becomes `newVar` with the literal's sign (a literal that is not positive
      counts as negative). */
  function RenameLit(lit: int, oldVar: int, newVar: int): int {
    if Expr.Abs(lit) == oldVar then (if lit > 0 then newVar else -newVar) else lit
  }

  function RenameClause(c: Clause, oldVar: int, newVar: int): (r: Clause)
    ensures |r| == |c|
  {
    seq(|c|, i requires 0 <= i < |c| => RenameLit(c[i], oldVar, newVar))
  }

  function RenameAll(cs: seq<Clause>, oldVar: int, newVar: int): (r: seq<Clause>)
    ensures |r| == |cs|
  {
    seq(|cs|, i requires 0 <= i < |cs| => RenameClause(cs[i], oldVar, newVar))
  }

  /** `rename_var`: the mapping is recorded and every clause, in the list and
      in the dictionary, is renamed. */
  function Renamed(s: State, oldVar: int, newVar: int): State {
    s.(varMapping := s.varMapping[oldVar := newVar],
       clauses := RenameAll(s.clauses, oldVar, newVar),
       clauseIds := map k | k in s.clauseIds :: RenameClause(s.clauseIds[k], oldVar, newVar))
  }

  /** `eliminate_var`. */
  function Eliminated(s: State, v: int): State {
    s.(eliminatedVars := s.eliminatedVars + {v})
  }

  /** `substitute_var`. */
  function Substituted(s: State, v: int, e: string): State {
    s.(substitutions := s.substitutions[v := e], eliminatedVars := s.eliminatedVars + {v})
  }

  /** `strengthen_clause`: a known id gets the new literals, in the
      dictionary and at the first equal position of the list. */
  function Strengthened(s: State, id: int, lits: Clause): State {
    if id !in s.clauseIds then s
    else
      var c := s.clauseIds[id];
      s.(clauses := if c in s.clauses then s.clauses[IndexOf(s.clauses, c) := lits] else s.clauses,
         clauseIds := s.clauseIds[id := lits])
  }

  /** `add_unit`. */
  function WithUnit(s: State, lit: int): State {
    WithClause(s, [lit], None).0
  }

  /** `any(abs(lit) == v for lit in c)`. */
  predicate Mentions(c: Clause, v: int) {
    exists i :: 0 <= i < |c| && Expr.Abs(c[i]) == v
  }

  /** The ids, in dictionary order, whose clause mentions `v`: the
      `to_remove` list of the `var_elim` and `var_subst` handlers. */
  function Mentioning(order: seq<int>, ids: map<int, Clause>, v: int): (r: seq<int>)
    decreases |order|
  {
    if order == [] then []
    else
      var prev := Mentioning(order[..|order| - 1], ids, v);
      var k := order[|order| - 1];
      if k in ids && Mentions(ids[k], v) then prev + [k] else prev
  }

  /** `remove_clause` applied to each id in turn. */
  function RemoveAll(s: State, ids: seq<int>): State
    decreases |ids|
  {
    if ids == [] then s else WithoutClause(RemoveAll(s, ids[..|ids| - 1]), ids[|ids| - 1])
  }

  /** What the `var_elim` and `var_subst` handlers do after recording the
      variable: every clause the dictionary has for it is removed. */
  function Purge(s: State, v: int): State {
    RemoveAll(s, Mentioning(s.order, s.clauseIds, v))
  }

  /** `get_active_vars`. */
  function VarsOf(cs: seq<Clause>): set<int> {
    set i, j | 0 <= i < |cs| && 0 <= j < |cs[i]| :: Expr.Abs(cs[i][j])
  }

  /** The largest magnitude of a literal, or 0 when there is none: the
      `max(active_vars) if active_vars else 0` of `to_dimacs`. */
  function MaxVar(cs: seq<Clause>): nat
    decreases |cs|
  {
    if cs == [] then 0 else Max(MaxVar(cs[..|cs| - 1]), MaxLit(cs[|cs| - 1]))
  }

  function MaxLit(c: Clause): nat
    decreases |c|
  {
    if c == [] then 0 else Max(MaxLit(c[..|c| - 1]), Expr.Abs(c[|c| - 1]))
  }

  function Max(a: nat, b: nat): nat {
    if a < b then b else a
  }

  function ClauseLine(c: Clause): string {
    IntsToString(c) + " 0"
  }

  function Header(maxVar: nat, count: nat): string {
    "p cnf " + (NatToString(maxVar) + (" " + NatToString(count)))
  }

  /** The lines of `to_dimacs`: the header, then one line per clause in list
      order. */
  function DimacsLines(cs: seq<Clause>): (r: seq<string>)
    ensures |r| == |cs| + 1
  {
    [Header(MaxVar(cs), |cs|)] + seq(|cs|, i requires 0 <= i < |cs| => ClauseLine(cs[i]))
  }

  /** The header first, then the clause lines in list order. */
  lemma DimacsShape(cs: seq<Clause>)
    ensures |DimacsLines(cs)| == |cs| + 1 && DimacsLines(cs)[0] == Header(MaxVar(cs), |cs|)
    ensures forall i :: 1 <= i < |DimacsLines(cs)| ==> DimacsLines(cs)[i] == ClauseLine(cs[i - 1])
  {
  }

  /** `to_dimacs`. */
  function DimacsText(cs: seq<Clause>): string {
    Join(DimacsLines(cs), "\n") + "\n"
  }

  // ---------------------------------------------------------------------
  // The invariant

  predicate Keyed(s: State) {
    && Distinct(s.order)
    && (forall k :: k in s.clauseIds ==> k in s.order)
    && (forall i :: 0 <= i < |s.order| ==> s.order[i] in s.clauseIds)
  }

  /** The dictionary's clauses, in dictionary order. */
  function Tracked(order: seq<int>, ids: map<int, Clause>): (r: seq<Clause>)
    requires forall k :: 0 <= k < |order| ==> order[k] in ids
    ensures |r| == |order|
  {
    seq(|order|, k requires 0 <= k < |order| => ids[order[k]])
  }

  /** What every operation keeps: the dictionary order lists each key once,
      the counter is positive, and each clause of the dictionary is backed
      by its own entry of the list (so `clause in self.clauses` always holds
      where the source tests it). */
  predicate Valid(s: State) {
    && Keyed(s)
    && s.nextClauseId >= 1
    && multiset(Tracked(s.order, s.clauseIds)) <= multiset(s.clauses)
  }

  lemma EmptyValid()
    ensures Valid(Empty)
  {
  }

  // ---------------------------------------------------------------------
  // Facts about the dictionary order

  lemma MultisetRemoveAt<T>(xs: seq<T>, j: nat)
    requires j < |xs|
    ensures multiset(RemoveAt(xs, j)) == multiset(xs) - multiset{xs[j]}
  {
    assert xs == xs[..j] + ([xs[j]] + xs[j + 1..]);
  }

  lemma DistinctRemoveAt<T>(xs: seq<T>, j: nat)
    requires j < |xs| && Distinct(xs)
    ensures Distinct(RemoveAt(xs, j))
    ensures forall x :: x in RemoveAt(xs, j) <==> x in xs && x != xs[j]
  {
    var r := RemoveAt(xs, j);
    assert forall i :: 0 <= i < |r| ==> r[i] == (if i < j then xs[i] else xs[i + 1]);
    forall x | x in xs && x != xs[j]
      ensures x in r
    {
      var i :| 0 <= i < |xs| && xs[i] == x;
      assert r[if i < j then i else i - 1] == x;
    }
  }

  lemma TrackedAppend(s: State, id: int, lits: Clause)
    requires Keyed(s) && id !in s.clauseIds
    ensures Tracked(s.order + [id], s.clauseIds[id := lits]) == Tracked(s.order, s.clauseIds) + [lits]
  {
  }

  lemma TrackedUpdate(s: State, id: int, lits: Clause)
    requires Keyed(s) && id in s.clauseIds
    ensures IndexOf(s.order, id) < |s.order|
    ensures Tracked(s.order, s.clauseIds[id := lits])
         == Tracked(s.order, s.clauseIds)[IndexOf(s.order, id) := lits]
  {
  }

  lemma KeyedRemove(s: State, id: int)
    requires Keyed(s) && id in s.clauseIds
    ensures Keyed(s.(clauseIds := s.clauseIds - {id}, order := ListRemove(s.order, id)))
  {
    DistinctRemoveAt(s.order, IndexOf(s.order, id));
    var r := ListRemove(s.order, id);
    assert forall i :: 0 <= i < |r| ==> r[i] in r;
  }

  lemma TrackedRemove(s: State, id: int)
    requires Keyed(s) && id in s.clauseIds
    ensures Keyed(s.(clauseIds := s.clauseIds - {id}, order := ListRemove(s.order, id)))
    ensures Tracked(ListRemove(s.order, id), s.clauseIds - {id})
         == RemoveAt(Tracked(s.order, s.clauseIds), IndexOf(s.order, id))
  {
    KeyedRemove(s, id);
    var a := Tracked(ListRemove(s.order, id), s.clauseIds - {id});
    var b := RemoveAt(Tracked(s.order, s.clauseIds), IndexOf(s.order, id));
    forall i | 0 <= i < |a| ensures a[i] == b[i] {
      TrackedRemoveAt(s, id, i);
    }
    SameElements(a, b);
  }

  lemma TrackedRemoveAt(s: State, id: int, i: nat)
    requires Keyed(s) && id in s.clauseIds && i < |s.order| - 1
    ensures forall k :: 0 <= k < |ListRemove(s.order, id)| ==> ListRemove(s.order, id)[k] in s.clauseIds - {id}
    ensures Tracked(ListRemove(s.order, id), s.clauseIds - {id})[i]
         == RemoveAt(Tracked(s.order, s.clauseIds), IndexOf(s.order, id))[i]
  {
    KeyedRemove(s, id);
    var j := IndexOf(s.order, id);
    var k := if i < j then i else i + 1;
    assert ListRemove(s.order, id)[i] == s.order[k];
    assert RemoveAt(Tracked(s.order, s.clauseIds), j)[i] == Tracked(s.order, s.clauseIds)[k];
    assert s.order[k] != id;
  }

  lemma TrackedHolds(s: State, id: int)
    requires Valid(s) && id in s.clauseIds
    ensures s.clauseIds[id] in s.clauses
  {
    var j := IndexOf(s.order, id);
    assert Tracked(s.order, s.clauseIds)[j] == s.clauseIds[id];
    assert s.clauseIds[id] in multiset(Tracked(s.order, s.clauseIds));
  }

  lemma {:induction false} RenameMono(a: seq<Clause>, b: seq<Clause>, oldVar: int, newVar: int)
    requires multiset(a) <= multiset(b)
    ensures multiset(RenameAll(a, oldVar, newVar)) <= multiset(RenameAll(b, oldVar, newVar))
    decreases |a|
  {
    if a != [] {
      var n := |a|;
      var x := a[n - 1];
      assert a == a[..n - 1] + [x];
      assert x in multiset(b);
      var j := IndexOf(b, x);
      var b' := RemoveAt(b, j);
      MultisetRemoveAt(b, j);
      RenameMono(a[..n - 1], b', oldVar, newVar);
      var ra := RenameAll(a, oldVar, newVar);
      var rb := RenameAll(b, oldVar, newVar);
      assert RenameAll(a[..n - 1], oldVar, newVar) == ra[..n - 1];
      assert ra == ra[..n - 1] + [ra[n - 1]];
      RenameRemoveAt(b, j, oldVar, newVar);
      MultisetRemoveAt(rb, j);
    }
  }

  lemma RenameRemoveAt(b: seq<Clause>, j: nat, oldVar: int, newVar: int)
    requires j < |b|
    ensures RenameAll(RemoveAt(b, j), oldVar, newVar) == RemoveAt(RenameAll(b, oldVar, newVar), j)
  {
    var l := RenameAll(RemoveAt(b, j), oldVar, newVar);
    var r := RemoveAt(RenameAll(b, oldVar, newVar), j);
    forall i | 0 <= i < |l|
      ensures l[i] == r[i]
    {
      var k := if i < j then i else i + 1;
      assert RemoveAt(b, j)[i] == b[k];
    }
  }

  // ---------------------------------------------------------------------
  // Every operation keeps the invariant

  lemma WithClauseValid(s: State, lits: Clause, id: Option<int>)
    requires Valid(s)
    ensures Valid(WithClause(s, lits, id).0)
  {
    var cid := WithClause(s, lits, id).1;
    if cid in s.clauseIds {
      TrackedUpdate(s, cid, lits);
      var t := Tracked(s.order, s.clauseIds);
      var j := IndexOf(s.order, cid);
      assert multiset(t[j := lits]) == multiset(t) - multiset{t[j]} + multiset{lits};
    } else {
      TrackedAppend(s, cid, lits);
    }
  }

  lemma WithoutClauseValid(s: State, id: int)
    requires Valid(s)
    ensures Valid(WithoutClause(s, id))
  {
    if id in s.clauseIds {
      TrackedRemove(s, id);
      TrackedHolds(s, id);
      var t := Tracked(s.order, s.clauseIds);
      var j := IndexOf(s.order, id);
      MultisetRemoveAt(t, j);
      MultisetRemoveAt(s.clauses, IndexOf(s.clauses, s.clauseIds[id]));
    }
  }

  lemma RenamedValid(s: State, oldVar: int, newVar: int)
    requires Valid(s)
    ensures Valid(Renamed(s, oldVar, newVar))
  {
    var r := Renamed(s, oldVar, newVar);
    assert Tracked(r.order, r.clauseIds) == RenameAll(Tracked(s.order, s.clauseIds), oldVar, newVar);
    RenameMono(Tracked(s.order, s.clauseIds), s.clauses, oldVar, newVar);
  }

  lemma StrengthenedValid(s: State, id: int, lits: Clause)
    requires Valid(s)
    ensures Valid(Strengthened(s, id, lits))
  {
    if id in s.clauseIds {
      TrackedUpdate(s, id, lits);
      TrackedHolds(s, id);
      var t := Tracked(s.order, s.clauseIds);
      var j := IndexOf(s.order, id);
      var i := IndexOf(s.clauses, s.clauseIds[id]);
      assert multiset(t[j := lits]) == multiset(t) - multiset{t[j]} + multiset{lits};
      assert multiset(s.clauses[i := lits]) == multiset(s.clauses) - multiset{s.clauses[i]} + multiset{lits};
    }
  }

  lemma {:induction false} RemoveAllValid(s: State, ids: seq<int>)
    requires Valid(s)
    ensures Valid(RemoveAll(s, ids))
    decreases |ids|
  {
    if ids != [] {
      RemoveAllValid(s, ids[..|ids| - 1]);
      WithoutClauseValid(RemoveAll(s, ids[..|ids| - 1]), ids[|ids| - 1]);
    }
  }

  lemma EliminatedValid(s: State, v: int)
    requires Valid(s)
    ensures Valid(Eliminated(s, v))
  {
  }

  lemma SubstitutedValid(s: State, v: int, e: string)
    requires Valid(s)
    ensures Valid(Substituted(s, v, e))
  {
  }

  // ---------------------------------------------------------------------
  // What each operation does

  /** When the counter is ahead of every id in use, `add_clause` without an
      id stores the clause under a new key, returns the old counter and
      advances it by exactly one, keeping it ahead. */
  lemma WithClauseFresh(s: State, lits: Clause)
    requires forall k :: k in s.clauseIds ==> k < s.nextClauseId
    ensures var (r, id) := WithClause(s, lits, None);
      && id == s.nextClauseId && id !in s.clauseIds
      && r.nextClauseId == s.nextClauseId + 1
      && r.clauseIds.Keys == s.clauseIds.Keys + {id} && r.clauseIds[id] == lits
      && r.clauses == s.clauses + [lits]
      && (forall k :: k in r.clauseIds ==> k < r.nextClauseId)
  {
  }

  /** With an explicit id the counter does not move, whatever the id. */
  lemma WithClauseExplicit(s: State, lits: Clause, id: int)
    ensures var (r, cid) := WithClause(s, lits, Some(id));
      && cid == id && r.nextClauseId == s.nextClauseId
      && r.clauseIds == s.clauseIds[id := lits] && r.clauses == s.clauses + [lits]
  {
  }

  /** `remove_clause` of an unknown id changes nothing; of a known one it
      drops the id and exactly one list entry equal to its clause. */
  lemma WithoutClauseEffect(s: State, id: int)
    requires Valid(s)
    ensures id !in s.clauseIds ==> WithoutClause(s, id) == s
    ensures id in s.clauseIds ==>
      var r := WithoutClause(s, id);
      && r.clauseIds == s.clauseIds - {id}
      && |r.clauses| == |s.clauses| - 1
      && multiset(r.clauses) == multiset(s.clauses) - multiset{s.clauseIds[id]}
  {
    if id in s.clauseIds {
      TrackedHolds(s, id);
      MultisetRemoveAt(s.clauses, IndexOf(s.clauses, s.clauseIds[id]));
    }
  }

  /** Renaming to a variable other than `oldVar` leaves no literal of
      `oldVar`, in the list or in the dictionary. */
  lemma RenamedClearsOld(s: State, oldVar: int, newVar: int)
    requires Expr.Abs(newVar) != oldVar
    ensures var r := Renamed(s, oldVar, newVar);
      && (forall i :: 0 <= i < |r.clauses| ==> !Mentions(r.clauses[i], oldVar))
      && (forall k :: k in r.clauseIds ==> !Mentions(r.clauseIds[k], oldVar))
      && |r.clauses| == |s.clauses| && r.clauseIds.Keys == s.clauseIds.Keys
      && r.varMapping == s.varMapping[oldVar := newVar]
  {
  }

  /** Renaming replaces `oldVar` by the magnitude of `newVar` among the
      active variables, and leaves the others. */
  lemma RenamedVars(cs: seq<Clause>, oldVar: int, newVar: int)
    ensures VarsOf(RenameAll(cs, oldVar, newVar))
         == (VarsOf(cs) - {oldVar}) + (if oldVar in VarsOf(cs) then {Expr.Abs(newVar)} else {})
  {
    var rs := RenameAll(cs, oldVar, newVar);
    forall v | v in VarsOf(rs)
      ensures v in (VarsOf(cs) - {oldVar}) + (if oldVar in VarsOf(cs) then {Expr.Abs(newVar)} else {})
    {
      var i, j :| 0 <= i < |rs| && 0 <= j < |rs[i]| && Expr.Abs(rs[i][j]) == v;
      assert rs[i][j] == RenameLit(cs[i][j], oldVar, newVar);
    }
    forall v | v in VarsOf(cs) && v != oldVar
      ensures v in VarsOf(rs)
    {
      var i, j :| 0 <= i < |cs| && 0 <= j < |cs[i]| && Expr.Abs(cs[i][j]) == v;
      assert rs[i][j] == cs[i][j];
    }
    if oldVar in VarsOf(cs) {
      var i, j :| 0 <= i < |cs| && 0 <= j < |cs[i]| && Expr.Abs(cs[i][j]) == oldVar;
      assert Expr.Abs(rs[i][j]) == Expr.Abs(newVar);
    }
  }

  /** `strengthen_clause` of a known id replaces its clause, in the
      dictionary and at the first equal entry of the list; of an unknown id
      it changes nothing. */
  lemma StrengthenedEffect(s: State, id: int, lits: Clause)
    requires Valid(s)
    ensures id !in s.clauseIds ==> Strengthened(s, id, lits) == s
    ensures id in s.clauseIds ==>
      var r := Strengthened(s, id, lits);
      && r.clauseIds == s.clauseIds[id := lits]
      && s.clauseIds[id] in s.clauses
      && r.clauses == s.clauses[IndexOf(s.clauses, s.clauseIds[id]) := lits]
  {
    if id in s.clauseIds {
      TrackedHolds(s, id);
    }
  }

  lemma MentioningFacts(order: seq<int>, ids: map<int, Clause>, v: int)
    requires Distinct(order)
    ensures Distinct(Mentioning(order, ids, v))
    ensures forall i :: 0 <= i < |Mentioning(order, ids, v)| ==> Mentioning(order, ids, v)[i] in ids
    ensures forall k :: k in Mentioning(order, ids, v) <==> k in order && k in ids && Mentions(ids[k], v)
    decreases |order|
  {
    if order != [] {
      var prefix := order[..|order| - 1];
      MentioningFacts(prefix, ids, v);
      assert order == prefix + [order[|order| - 1]];
    }
  }

  /** Removing distinct known ids one by one drops exactly those ids and
      one list entry for each. */
  lemma {:induction false} RemoveAllEffect(s: State, ids: seq<int>)
    requires Valid(s) && Distinct(ids)
    requires forall i :: 0 <= i < |ids| ==> ids[i] in s.clauseIds
    ensures var r := RemoveAll(s, ids);
      && Valid(r)
      && (forall k :: k in r.clauseIds <==> k in s.clauseIds && k !in ids)
      && (forall k :: k in r.clauseIds ==> r.clauseIds[k] == s.clauseIds[k])
      && |r.clauses| == |s.clauses| - |ids|
      && r.eliminatedVars == s.eliminatedVars && r.nextClauseId == s.nextClauseId
    decreases |ids|
  {
    if ids != [] {
      var prefix := ids[..|ids| - 1];
      var last := ids[|ids| - 1];
      assert ids == prefix + [last];
      assert forall i :: 0 <= i < |prefix| ==> prefix[i] == ids[i];
      RemoveAllEffect(s, prefix);
      WithoutClauseEffect(RemoveAll(s, prefix), last);
      RemoveAllValid(s, ids);
    }
  }

  /** The clause purge of `var_elim` and `var_subst`: afterwards no clause
      of the dictionary mentions the variable, every other clause is kept
      under its id, and one list entry goes for each clause removed. */
  lemma PurgeEffect(s: State, v: int)
    requires Valid(s)
    ensures var r := Purge(s, v);
      && Valid(r)
      && (forall k :: k in r.clauseIds <==> k in s.clauseIds && !Mentions(s.clauseIds[k], v))
      && (forall k :: k in r.clauseIds ==> r.clauseIds[k] == s.clauseIds[k] && !Mentions(r.clauseIds[k], v))
      && |r.clauses| == |s.clauses| - |Mentioning(s.order, s.clauseIds, v)|
      && r.eliminatedVars == s.eliminatedVars && r.nextClauseId == s.nextClauseId
  {
    MentioningFacts(s.order, s.clauseIds, v);
    RemoveAllEffect(s, Mentioning(s.order, s.clauseIds, v));
  }

  lemma VarsOfSnoc(cs: seq<Clause>, c: Clause)
    ensures VarsOf(cs + [c]) == VarsOf(cs) + VarsOf([c])
  {
    var l := cs + [c];
    forall v | v in VarsOf(l)
      ensures v in VarsOf(cs) + VarsOf([c])
    {
      var i, j :| 0 <= i < |l| && 0 <= j < |l[i]| && Expr.Abs(l[i][j]) == v;
      if i == |cs| {
        assert [c][0][j] == l[i][j];
      } else {
        assert cs[i][j] == l[i][j];
      }
    }
    forall v | v in VarsOf(cs) ensures v in VarsOf(l) {
      var i, j :| 0 <= i < |cs| && 0 <= j < |cs[i]| && Expr.Abs(cs[i][j]) == v;
      assert l[i][j] == cs[i][j];
    }
    forall v | v in VarsOf([c]) ensures v in VarsOf(l) {
      var i, j :| 0 <= i < 1 && 0 <= j < |[c][i]| && Expr.Abs([c][i][j]) == v;
      assert l[|cs|][j] == c[j];
    }
  }

  lemma {:induction false} MaxLitBounds(c: Clause)
    ensures forall j :: 0 <= j < |c| ==> Expr.Abs(c[j]) <= MaxLit(c)
    ensures c == [] ==> MaxLit(c) == 0
    ensures c != [] ==> exists j :: 0 <= j < |c| && Expr.Abs(c[j]) == MaxLit(c)
    decreases |c|
  {
    if c != [] {
      var p := c[..|c| - 1];
      MaxLitBounds(p);
      assert forall j :: 0 <= j < |p| ==> p[j] == c[j];
      if p != [] && MaxLit(p) >= Expr.Abs(c[|c| - 1]) {
        var j :| 0 <= j < |p| && Expr.Abs(p[j]) == MaxLit(p);
        assert Expr.Abs(c[j]) == MaxLit(c);
      }
    }
  }

  /** The header's variable count is the largest active variable, or 0
      when no clause has a literal. */
  lemma {:induction false} MaxVarBounds(cs: seq<Clause>)
    ensures forall v :: v in VarsOf(cs) ==> v <= MaxVar(cs)
    ensures VarsOf(cs) == {} ==> MaxVar(cs) == 0
    ensures VarsOf(cs) != {} ==> MaxVar(cs) in VarsOf(cs)
    decreases |cs|
  {
    if cs != [] {
      var p := cs[..|cs| - 1];
      var c := cs[|cs| - 1];
      assert cs == p + [c];
      MaxVarBounds(p);
      VarsOfSnoc(p, c);
      MaxLitBounds(c);
      assert forall v :: v in VarsOf([c]) <==> exists j :: 0 <= j < |c| && Expr.Abs(c[j]) == v by {
        assert forall j :: 0 <= j < |c| ==> [c][0][j] == c[j];
      }
      if c != [] {
        var j :| 0 <= j < |c| && Expr.Abs(c[j]) == MaxLit(c);
        assert MaxLit(c) in VarsOf([c]);
      }
    }
  }

  lemma {:induction false} SetHasMax(vs: set<int>)
    requires vs != {}
    ensures exists x :: x in vs && forall y :: y in vs ==> y <= x
    decreases |vs|
  {
    var y := PickOne(vs);
    var rest := vs - {y};
    assert vs == rest + {y};
    if rest == {} {
      assert vs == {y};
    } else {
      SetHasMax(rest);
      var x :| x in rest && forall z :: z in rest ==> z <= x;
      var m := if x < y then y else x;
      assert forall z :: z in vs ==> z == y || z in rest;
      assert m in vs && forall z :: z in vs ==> z <= m;
    }
  }

  lemma PickOne(vs: set<int>) returns (y: int)
    requires vs != {}
    ensures y in vs
  {
    assert (forall z :: z !in vs) ==> vs == {};
    y :| y in vs;
  }

  /** Python's `max` of a non-empty set. */
  function MaxOf(vs: set<int>): (r: int)
    requires vs != {}
    ensures r in vs && forall y :: y in vs ==> y <= r
  {
    SetHasMax(vs);
    var x :| x in vs && forall y :: y in vs ==> y <= x;
    x
  }

  /** The loop of `get_active_vars` over any clause list: the magnitude of
      every literal. */
  method VarsIn(clauses: seq<Clause>) returns (active: set<int>)
    ensures active == VarsOf(clauses)
  {
    active := {};
    for i := 0 to |clauses|
      invariant active == VarsOf(clauses[..i])
    {
      var clause := clauses[i];
      for j := 0 to |clause|
        invariant active == VarsOf(clauses[..i]) + VarsOf([clause[..j]])
      {
        assert clause[..j + 1] == clause[..j] + [clause[j]];
        LitsSnoc(clause[..j], clause[j]);
        active := active + {Expr.Abs(clause[j])};
      }
      assert clause[..|clause|] == clause;
      assert clauses[..i + 1] == clauses[..i] + [clause];
      VarsOfSnoc(clauses[..i], clause);
    }
    assert clauses[..|clauses|] == clauses;
  }

  // ---------------------------------------------------------------------
  // The class

  /** `CNFFormula`, with the fields of `State`.  Every method keeps `Valid`
      and performs the function of the same name above. */
  class CNFFormula {
    var numVars: int
    var clauses: seq<Clause>
    var clauseIds: map<int, Clause>
    var order: seq<int>
    var nextClauseId: int
    var varMapping: map<int, int>
    var eliminatedVars: set<int>
    var substitutions: map<int, string>

    function Snapshot(): State
      reads this
    {
      State(numVars, clauses, clauseIds, order, nextClauseId, varMapping, eliminatedVars, substitutions)
    }

    constructor ()
      ensures Snapshot() == Empty && Valid(Snapshot())
    {
      numVars := 0;
      clauses := [];
      clauseIds := map[];
      order := [];
      nextClauseId := 1;
      varMapping := map[];
      eliminatedVars := {};
      substitutions := map[];
      EmptyValid();
    }

    method AddClause(literals: Clause, clauseId: Option<int>) returns (id: int)
      requires Valid(Snapshot())
      modifies this
      ensures (Snapshot(), id) == WithClause(old(Snapshot()), literals, clauseId)
      ensures Valid(Snapshot())
    {
      WithClauseValid(Snapshot(), literals, clauseId);
      if clauseId.None? {
        id := nextClauseId;
        nextClauseId := nextClauseId + 1;
      } else {
        id := clauseId.value;
      }
      clauses := clauses + [literals];
      if id !in clauseIds {
        order := order + [id];
      }
      clauseIds := clauseIds[id := literals];
    }

    method RemoveClause(clauseId: int)
      requires Valid(Snapshot())
      modifies this
      ensures Snapshot() == WithoutClause(old(Snapshot()), clauseId)
      ensures Valid(Snapshot())
    {
      WithoutClauseValid(Snapshot(), clauseId);
      if clauseId in clauseIds {
        var clause := clauseIds[clauseId];
        if clause in clauses {
          clauses := ListRemove(clauses, clause);
        }
        clauseIds := clauseIds - {clauseId};
        order := ListRemove(order, clauseId);
      }
    }

    method RenameVar(oldVar: int, newVar: int)
      requires Valid(Snapshot())
      modifies this
      ensures Snapshot() == Renamed(old(Snapshot()), oldVar, newVar)
      ensures Valid(Snapshot())
    {
      ghost var s0 := Snapshot();
      var cs := clauses;
      for i := 0 to |cs|
        invariant |cs| == |clauses|
        invariant forall j :: 0 <= j < i ==> cs[j] == RenameClause(clauses[j], oldVar, newVar)
        invariant forall j :: i <= j < |cs| ==> cs[j] == clauses[j]
        modifies {}
      {
        cs := cs[i := RenameClause(cs[i], oldVar, newVar)];
      }
      var ids := clauseIds;
      for k := 0 to |order|
        invariant ids.Keys == clauseIds.Keys
        invariant forall j :: 0 <= j < k ==> ids[order[j]] == RenameClause(clauseIds[order[j]], oldVar, newVar)
        invariant forall j :: k <= j < |order| ==> ids[order[j]] == clauseIds[order[j]]
        modifies {}
      {
        var cid := order[k];
        assert forall j :: 0 <= j < |order| && j != k ==> order[j] != cid;
        ids := ids[cid := RenameClause(ids[cid], oldVar, newVar)];
      }
      forall c | c in ids
        ensures ids[c] == RenameClause(clauseIds[c], oldVar, newVar)
      {
        var j := IndexOf(order, c);
      }
      assert ids == map c | c in clauseIds :: RenameClause(clauseIds[c], oldVar, newVar);
      assert cs == RenameAll(clauses, oldVar, newVar);
      varMapping := varMapping[oldVar := newVar];
      clauses := cs;
      clauseIds := ids;
      assert Snapshot() == Renamed(s0, oldVar, newVar);
      assert Valid(Snapshot()) by {
        RenamedValid(s0, oldVar, newVar);
      }
    }

    method EliminateVar(v: int)
      requires Valid(Snapshot())
      modifies this
      ensures Snapshot() == Eliminated(old(Snapshot()), v)
      ensures Valid(Snapshot())
    {
      eliminatedVars := eliminatedVars + {v};
    }

    method SubstituteVar(v: int, expr: string)
      requires Valid(Snapshot())
      modifies this
      ensures Snapshot() == Substituted(old(Snapshot()), v, expr)
      ensures Valid(Snapshot())
    {
      substitutions := substitutions[v := expr];
      eliminatedVars := eliminatedVars + {v};
    }

    method StrengthenClause(clauseId: int, newLiterals: Clause)
      requires Valid(Snapshot())
      modifies this
      ensures Snapshot() == Strengthened(old(Snapshot()), clauseId, newLiterals)
      ensures Valid(Snapshot())
    {
      StrengthenedValid(Snapshot(), clauseId, newLiterals);
      if clauseId in clauseIds {
        var oldClause := clauseIds[clauseId];
        if oldClause in clauses {
          var idx := IndexOf(clauses, oldClause);
          clauses := clauses[idx := newLiterals];
        }
        clauseIds := clauseIds[clauseId := newLiterals];
      }
    }

    method AddUnit(literal: int)
      requires Valid(Snapshot())
      modifies this
      ensures Snapshot() == WithUnit(old(Snapshot()), literal)
      ensures Valid(Snapshot())
    {
      var _ := AddClause([literal], None);
    }

    /** `get_active_vars`. */
    method ActiveVars() returns (active: set<int>)
      ensures active == VarsOf(clauses)
    {
      active := VarsIn(clauses);
    }

    /** `to_dimacs`. */
    method ToDimacs() returns (text: string)
      ensures text == DimacsText(clauses)
    {
      var active := ActiveVars();
      MaxVarBounds(clauses);
      var maxVar := if active == {} then 0 else MaxOf(active);
      assert maxVar == MaxVar(clauses);
      var cs := clauses;
      var lines := [Header(maxVar, |cs|)];
      for i := 0 to |cs|
        invariant |lines| == i + 1 && lines[0] == Header(maxVar, |cs|)
        invariant forall k :: 1 <= k <= i ==> lines[k] == ClauseLine(cs[k - 1])
      {
        lines := lines + [ClauseLine(cs[i])];
      }
      DimacsShape(cs);
      assert lines == DimacsLines(cs);
      text := Join(lines, "\n") + "\n";
    }
  }

  lemma LitsSnoc(c: Clause, lit: int)
    ensures VarsOf([c + [lit]]) == VarsOf([c]) + {Expr.Abs(lit)}
  {
    var l := [c + [lit]];
    assert forall j :: 0 <= j < |c| ==> l[0][j] == c[j];
    assert l[0][|c|] == lit;
    forall v | v in VarsOf(l) ensures v in VarsOf([c]) + {Expr.Abs(lit)} {
      var i, j :| 0 <= i < 1 && 0 <= j < |l[i]| && Expr.Abs(l[i][j]) == v;
      if j < |c| {
        assert [c][0][j] == l[0][j];
      }
    }
    forall v | v in VarsOf([c]) ensures v in VarsOf(l) {
      var i, j :| 0 <= i < 1 && 0 <= j < |[c][i]| && Expr.Abs([c][i][j]) == v;
      assert l[0][j] == c[j];
    }
  }
}
