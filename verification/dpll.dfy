/** The DPLL satisfiability check of the 3-CNF phase-transition
    experiment. Clauses are lists of integer literals; a positive literal
    asks for its variable to be true and any other literal (zero included)
    for it to be false. Unit propagation runs to a fixpoint, then the
    search branches on the first unassigned variable met in a scan of the
    clauses, trying true before false. */
module Dpll {
  import opened Wrappers

  type Clause = seq<int>
  type Formula = seq<Clause>
  type Assignment = map<nat, bool>

  /** `abs(lit)` */
  function Var(lit: int): nat
  {
    if lit < 0 then -lit else lit
  }

  /** `is_true`: no value for an unassigned variable. */
  function IsTrue(lit: int, a: Assignment): Option<bool>
  {
    var v := Var(lit);
    if v !in a then None
    else if lit > 0 then Some(a[v]) else Some(!a[v])
  }

  /** The variables of the formula. */
  function Vars(f: Formula): set<nat>
  {
    set j, k | 0 <= j < |f| && 0 <= k < |f[j]| :: Var(f[j][k])
  }

  /** `b` keeps every binding of `a`. */
  predicate Extends(b: Assignment, a: Assignment)
  {
    a.Keys <= b.Keys && forall v | v in a :: b[v] == a[v]
  }

  lemma ExtendsTrans(c: Assignment, b: Assignment, a: Assignment)
    requires Extends(c, b) && Extends(b, a)
    ensures Extends(c, a)
  {
  }

  /** A literal that has a value keeps it as the assignment grows. */
  lemma IsTrueStable(lit: int, a: Assignment, b: Assignment)
    requires Extends(b, a) && IsTrue(lit, a).Some?
    ensures IsTrue(lit, b) == IsTrue(lit, a)
  {
  }

  predicate ClauseTrue(c: Clause, a: Assignment)
  {
    exists k | 0 <= k < |c| :: IsTrue(c[k], a) == Some(true)
  }

  predicate ClauseFalse(c: Clause, a: Assignment)
  {
    forall k | 0 <= k < |c| :: IsTrue(c[k], a) == Some(false)
  }

  predicate Satisfies(f: Formula, a: Assignment)
  {
    forall j | 0 <= j < |f| :: ClauseTrue(f[j], a)
  }

  /** Some assignment of exactly the formula's variables makes every
      clause true. */
  ghost predicate Satisfiable(f: Formula)
  {
    exists m: Assignment :: m.Keys == Vars(f) && Satisfies(f, m)
  }

  lemma InVars(f: Formula, j: nat, k: nat)
    requires j < |f| && k < |f[j]|
    ensures Var(f[j][k]) in Vars(f)
  {
  }

  /** The literal loop of the propagation pass over one clause: whether a
      true literal was met, and the unassigned literals met before it,
      repetitions included, after those already in `acc`. */
  function ScanClause(c: Clause, a: Assignment, acc: seq<int>): (r: (bool, seq<int>))
    ensures r.0 <==> ClauseTrue(c, a)
    ensures forall x | x in r.1 :: x in acc || (x in c && IsTrue(x, a).None?)
    ensures !r.0 ==> forall k | 0 <= k < |c| && IsTrue(c[k], a).None? :: c[k] in r.1
    ensures !r.0 ==> forall x | x in acc :: x in r.1
    decreases |c|
  {
    if c == [] then (false, acc)
    else
      var r := match IsTrue(c[0], a)
        case Some(true) => (true, acc)
        case Some(false) => ScanClause(c[1..], a, acc)
        case None => ScanClause(c[1..], a, acc + [c[0]]);
      assert forall k | 1 <= k < |c| :: c[k] == c[1..][k - 1];
      assert ClauseTrue(c[1..], a) ==> ClauseTrue(c, a);
      r
  }

  /** A clause none of whose literals is true or unassigned is false. */
  lemma NoneLeftIsFalse(c: Clause, a: Assignment)
    requires !ScanClause(c, a, []).0 && ScanClause(c, a, []).1 == []
    ensures ClauseFalse(c, a)
  {
    forall k | 0 <= k < |c|
      ensures IsTrue(c[k], a) == Some(false)
    {
      assert IsTrue(c[k], a) != Some(true);
    }
  }

  /** After a propagation pass that changed nothing, a clause is true or
      has at least two unassigned literal occurrences. */
  predicate Stable(c: Clause, a: Assignment)
  {
    var s := ScanClause(c, a, []);
    s.0 || |s.1| >= 2
  }

  datatype Sweep = Conflict | Swept(a: Assignment, changed: bool)

  /** One pass of the propagation loop over the clauses from index `i`:
      a clause with no true and no unassigned literal is a conflict, and
      the one unassigned literal of a unit clause is made true at once, so
      later clauses of the same pass see it. */
  function Pass(f: Formula, a: Assignment, i: nat, changed: bool): (r: Sweep)
    requires i <= |f| && a.Keys <= Vars(f)
    ensures r.Swept? ==> Extends(r.a, a) && r.a.Keys <= Vars(f)
    ensures r.Swept? ==> (r.changed <==> changed || r.a.Keys != a.Keys)
    decreases |f| - i
  {
    if i == |f| then Swept(a, changed)
    else
      var s := ScanClause(f[i], a, []);
      if s.0 then Pass(f, a, i + 1, changed)
      else if |s.1| == 0 then Conflict
      else if |s.1| == 1 then
        var lit := s.1[0];
        assert lit in s.1;
        var k :| 0 <= k < |f[i]| && f[i][k] == lit;
        InVars(f, i, k);
        var r := Pass(f, a[Var(lit) := lit > 0], i + 1, true);
        assert r.Swept? ==> Var(lit) in r.a.Keys && Var(lit) !in a.Keys;
        r
      else Pass(f, a, i + 1, changed)
  }

  /** A pass that changes nothing leaves every clause it scanned true or
      with two unassigned literals. */
  lemma {:induction false} PassStable(f: Formula, a: Assignment, i: nat, changed: bool)
    requires i <= |f| && a.Keys <= Vars(f)
    ensures var r := Pass(f, a, i, changed);
      r.Swept? && !r.changed ==> forall j | i <= j < |f| :: Stable(f[j], r.a)
    decreases |f| - i
  {
    if i < |f| {
      var s := ScanClause(f[i], a, []);
      var r := Pass(f, a, i, changed);
      if s.0 {
        PassStable(f, a, i + 1, changed);
        if r.Swept? && !r.changed {
          SameKeys(r.a, a);
        }
      } else if |s.1| == 1 {
        var lit := s.1[0];
        assert lit in s.1;
        var k :| 0 <= k < |f[i]| && f[i][k] == lit;
        InVars(f, i, k);
        PassStable(f, a[Var(lit) := lit > 0], i + 1, true);
      } else if |s.1| >= 2 {
        PassStable(f, a, i + 1, changed);
        if r.Swept? && !r.changed {
          SameKeys(r.a, a);
        }
      }
    }
  }

  /** An extension binding no new variable is the same assignment. */
  lemma SameKeys(b: Assignment, a: Assignment)
    ensures Extends(b, a) && b.Keys == a.Keys ==> b == a
  {
  }

  lemma Shrinks(vs: set<nat>, a: set<nat>, b: set<nat>)
    requires a < b <= vs
    ensures |vs - b| < |vs - a|
  {
    var x :| x in b && x !in a;
    assert vs - b <= vs - a;
    assert vs - a == (vs - b) + ((vs - a) - (vs - b));
    assert x in (vs - a) - (vs - b);
  }

  /** A pass that binds something leaves fewer variables unbound. */
  lemma Grows(f: Formula, a: Assignment, b: Assignment)
    requires Extends(b, a) && b.Keys != a.Keys && b.Keys <= Vars(f)
    ensures |Vars(f) - b.Keys| < |Vars(f) - a.Keys|
  {
    Shrinks(Vars(f), a.Keys, b.Keys);
  }

  /** The propagation loop: passes until one changes nothing or a conflict
      appears. It only ever binds unassigned variables, and what it returns
      leaves every clause true or with two unassigned literals. */
  function Propagate(f: Formula, a: Assignment): (r: Option<Assignment>)
    requires a.Keys <= Vars(f)
    ensures r.Some? ==> Extends(r.value, a) && r.value.Keys <= Vars(f)
    decreases |Vars(f) - a.Keys|
  {
    match Pass(f, a, 0, false)
    case Conflict => None
    case Swept(b, changed) =>
      if changed then
        Grows(f, a, b);
        Propagate(f, b)
      else Some(b)
  }

  /** What propagation returns leaves every clause true or with two
      unassigned literals: no unit clause and no conflict is left. */
  lemma {:induction false} PropagateStable(f: Formula, a: Assignment)
    requires a.Keys <= Vars(f)
    ensures var r := Propagate(f, a);
      r.Some? ==> forall j | 0 <= j < |f| :: Stable(f[j], r.value)
    decreases |Vars(f) - a.Keys|
  {
    var p := Pass(f, a, 0, false);
    if p.Swept? {
      if p.changed {
        Grows(f, a, p.a);
        PropagateStable(f, p.a);
        assert Propagate(f, a) == Propagate(f, p.a);
      } else {
        PassStable(f, a, 0, false);
        assert Propagate(f, a) == Some(p.a);
      }
    }
  }

  datatype Status = Unsat | AllSat | BranchOn(v: nat)

  /** The literal loop of the branch scan over one clause: whether a true
      literal was met, and the branching variable so far (the first
      unassigned variable met, even in a clause that turns out true). */
  function ScanBranch(c: Clause, a: Assignment, bv: Option<nat>): (r: (bool, Option<nat>))
    ensures r.0 <==> ClauseTrue(c, a)
    ensures bv.Some? ==> r.1 == bv
    ensures bv.None? && r.1.Some? ==> exists k | 0 <= k < |c| :: IsTrue(c[k], a).None? && r.1.value == Var(c[k])
    ensures bv.None? && r.1.None? && !r.0 ==> ClauseFalse(c, a)
    decreases |c|
  {
    if c == [] then (false, bv)
    else
      var r := match IsTrue(c[0], a)
        case Some(true) => (true, bv)
        case Some(false) => ScanBranch(c[1..], a, bv)
        case None => ScanBranch(c[1..], a, if bv.None? then Some(Var(c[0])) else bv);
      assert forall k | 1 <= k < |c| :: c[k] == c[1..][k - 1];
      assert ClauseTrue(c[1..], a) ==> ClauseTrue(c, a);
      r
  }

  /** The branch scan over the clauses from index `i`: a clause that is
      not true while no branching variable has been found yet is
      unsatisfiable; with no branching variable at the end every clause is
      true. */
  function Choose(f: Formula, a: Assignment, i: nat, bv: Option<nat>): (r: Status)
    requires i <= |f|
    requires bv.Some? ==> bv.value in Vars(f) && bv.value !in a
    ensures r.BranchOn? ==> r.v in Vars(f) && r.v !in a
    ensures r.AllSat? ==> bv.None? && forall j | i <= j < |f| :: ClauseTrue(f[j], a)
    ensures r.Unsat? ==> exists j | i <= j < |f| :: ClauseFalse(f[j], a)
    decreases |f| - i
  {
    if i == |f| then (if bv.None? then AllSat else BranchOn(bv.value))
    else
      var s := ScanBranch(f[i], a, bv);
      if !s.0 && s.1.None? then Unsat
      else
        BranchVarIn(f, a, i, bv);
        Choose(f, a, i + 1, s.1)
  }

  /** The branching variable a clause scan picks is a variable of the
      formula and unassigned. */
  lemma BranchVarIn(f: Formula, a: Assignment, i: nat, bv: Option<nat>)
    requires i < |f|
    requires bv.Some? ==> bv.value in Vars(f) && bv.value !in a
    ensures var r := ScanBranch(f[i], a, bv).1;
      r.Some? ==> r.value in Vars(f) && r.value !in a
  {
    var r := ScanBranch(f[i], a, bv).1;
    if bv.None? && r.Some? {
      var k :| 0 <= k < |f[i]| && IsTrue(f[i][k], a).None? && r.value == Var(f[i][k]);
      InVars(f, i, k);
    }
  }

  lemma Fewer(vs: set<nat>, a: Assignment, b: Assignment, v: nat, x: bool)
    requires a.Keys <= b.Keys <= vs && v in vs && v !in b
    ensures b[v := x].Keys <= vs
    ensures |vs - b[v := x].Keys| < |vs - a.Keys|
  {
    assert b[v := x].Keys == b.Keys + {v};
    Shrinks(vs, a.Keys, b[v := x].Keys);
  }

  /** `dpll`: propagate, then stop or branch, true first. */
  function Dpll(f: Formula, a: Assignment): bool
    requires a.Keys <= Vars(f)
    decreases |Vars(f) - a.Keys|
  {
    match Propagate(f, a)
    case None => false
    case Some(b) =>
      match Choose(f, b, 0, None)
      case Unsat => false
      case AllSat => true
      case BranchOn(v) =>
        Fewer(Vars(f), a, b, v, true);
        Fewer(Vars(f), a, b, v, false);
        Dpll(f, b[v := true]) || Dpll(f, b[v := false])
  }

  /** `solve`: the formula is satisfiable exactly when DPLL from the empty
      assignment says so. */
  function Solve(f: Formula): (r: bool)
    ensures r <==> Satisfiable(f)
  {
    DpllDecides(f);
    Dpll(f, map[])
  }

  /** A true clause stays true, and a false clause false, as the
      assignment grows. */
  lemma ClauseStable(c: Clause, a: Assignment, b: Assignment)
    requires Extends(b, a)
    ensures ClauseTrue(c, a) ==> ClauseTrue(c, b)
    ensures ClauseFalse(c, a) ==> !ClauseTrue(c, b)
  {
    if ClauseTrue(c, a) {
      var k :| 0 <= k < |c| && IsTrue(c[k], a) == Some(true);
      IsTrueStable(c[k], a, b);
    }
    if ClauseFalse(c, a) {
      forall k | 0 <= k < |c|
        ensures IsTrue(c[k], b) == Some(false)
      {
        IsTrueStable(c[k], a, b);
      }
    }
  }

  /** Every variable of the formula bound: `a`'s bindings, and true for the
      rest. */
  function Fill(vs: set<nat>, a: Assignment): (m: Assignment)
    requires a.Keys <= vs
    ensures m.Keys == vs && Extends(m, a)
  {
    map v | v in vs :: if v in a then a[v] else true
  }

  /** Soundness: when DPLL answers true, some assignment of all the
      formula's variables that keeps the starting bindings satisfies it. */
  lemma {:induction false} DpllSound(f: Formula, a: Assignment) returns (m: Assignment)
    requires a.Keys <= Vars(f) && Dpll(f, a)
    ensures m.Keys == Vars(f) && Extends(m, a) && Satisfies(f, m)
    decreases |Vars(f) - a.Keys|, 1
  {
    var b := Propagate(f, a).value;
    var st := Choose(f, b, 0, None);
    if st.AllSat? {
      m := FillSatisfies(f, b);
    } else {
      var x := Dpll(f, b[st.v := true]);
      m := BranchSound(f, a, b, st.v, x);
    }
    ExtendsTrans(m, b, a);
  }

  /** The branch DPLL took to answer true has a model. */
  lemma {:induction false} BranchSound(f: Formula, a: Assignment, b: Assignment, v: nat, x: bool) returns (m: Assignment)
    requires a.Keys <= b.Keys <= Vars(f) && v in Vars(f) && v !in b
    requires Dpll(f, b[v := x])
    ensures m.Keys == Vars(f) && Extends(m, b) && Satisfies(f, m)
    decreases |Vars(f) - a.Keys|, 0
  {
    var c := b[v := x];
    Fewer(Vars(f), a, b, v, x);
    m := DpllSound(f, c);
    UpdateExtends(b, v, x);
    ExtendsTrans(m, c, b);
  }

  lemma UpdateExtends(b: Assignment, v: nat, x: bool)
    requires v !in b
    ensures Extends(b[v := x], b)
  {
  }

  /** An assignment that already makes every clause true stays a model
      once the other variables are bound. */
  lemma FillSatisfies(f: Formula, b: Assignment) returns (m: Assignment)
    requires b.Keys <= Vars(f) && forall j | 0 <= j < |f| :: ClauseTrue(f[j], b)
    ensures m.Keys == Vars(f) && Extends(m, b) && Satisfies(f, m)
  {
    m := Fill(Vars(f), b);
    forall j | 0 <= j < |f|
      ensures ClauseTrue(f[j], m)
    {
      ClauseStable(f[j], b, m);
    }
  }

  /** Propagation keeps every model: a satisfying assignment that keeps
      the bindings of `a` meets no conflict in a pass, and it agrees with
      every unit literal the pass makes true. */
  lemma {:induction false} PassKeepsModel(f: Formula, a: Assignment, i: nat, changed: bool, m: Assignment)
    requires i <= |f| && a.Keys <= Vars(f)
    requires Extends(m, a) && Satisfies(f, m)
    ensures Pass(f, a, i, changed).Swept? && Extends(m, Pass(f, a, i, changed).a)
    decreases |f| - i
  {
    if i < |f| {
      var s := ScanClause(f[i], a, []);
      ModelLeavesChoice(f[i], a, m);
      if s.0 {
        PassKeepsModel(f, a, i + 1, changed, m);
      } else if |s.1| == 0 {
        assert false;
      } else if |s.1| == 1 {
        var lit := s.1[0];
        UnitAgrees(f[i], a, m);
        PassUnit(f, a, i, changed);
        PassKeepsModel(f, a[Var(lit) := lit > 0], i + 1, true, m);
      } else {
        PassKeepsModel(f, a, i + 1, changed, m);
      }
    }
  }

  /** On a unit clause, a pass binds its literal and goes on. */
  lemma PassUnit(f: Formula, a: Assignment, i: nat, changed: bool)
    requires i < |f| && a.Keys <= Vars(f)
    requires var s := ScanClause(f[i], a, []); !s.0 && |s.1| == 1
    ensures var lit := ScanClause(f[i], a, []).1[0];
      && a[Var(lit) := lit > 0].Keys <= Vars(f)
      && Pass(f, a, i, changed) == Pass(f, a[Var(lit) := lit > 0], i + 1, true)
  {
    var lit := ScanClause(f[i], a, []).1[0];
    assert lit in ScanClause(f[i], a, []).1;
    var k :| 0 <= k < |f[i]| && f[i][k] == lit;
    InVars(f, i, k);
  }

  /** A clause a model that keeps `a` makes true is, under `a`, true or
      has an unassigned literal left. */
  lemma ModelLeavesChoice(c: Clause, a: Assignment, m: Assignment)
    requires Extends(m, a) && ClauseTrue(c, m)
    ensures ScanClause(c, a, []).0 || |ScanClause(c, a, []).1| > 0
  {
    if !ScanClause(c, a, []).0 && |ScanClause(c, a, []).1| == 0 {
      NoneLeftIsFalse(c, a);
      var k :| 0 <= k < |c| && IsTrue(c[k], m) == Some(true);
      IsTrueStable(c[k], a, m);
    }
  }

  /** In a unit clause the one unassigned literal is the only one a model
      that keeps `a` can make true. */
  lemma UnitAgrees(c: Clause, a: Assignment, m: Assignment)
    requires Extends(m, a) && ClauseTrue(c, m)
    requires !ScanClause(c, a, []).0 && |ScanClause(c, a, []).1| == 1
    ensures var lit := ScanClause(c, a, []).1[0];
      Var(lit) !in a && Extends(m, a[Var(lit) := lit > 0])
  {
    var un := ScanClause(c, a, []).1;
    var lit := un[0];
    assert lit in un;
    var k :| 0 <= k < |c| && IsTrue(c[k], m) == Some(true);
    if IsTrue(c[k], a).Some? {
      assert false;
    }
    assert c[k] in un;
  }

  lemma {:induction false} PropagateKeepsModel(f: Formula, a: Assignment, m: Assignment)
    requires a.Keys <= Vars(f) && Extends(m, a) && Satisfies(f, m)
    ensures Propagate(f, a).Some? && Extends(m, Propagate(f, a).value)
    decreases |Vars(f) - a.Keys|
  {
    PassKeepsModel(f, a, 0, false, m);
    var p := Pass(f, a, 0, false);
    if p.changed {
      Grows(f, a, p.a);
      PropagateKeepsModel(f, p.a, m);
    }
  }

  /** Completeness: when a satisfying assignment of all the formula's
      variables keeps the starting bindings, DPLL answers true. */
  lemma {:induction false} DpllComplete(f: Formula, a: Assignment, m: Assignment)
    requires a.Keys <= Vars(f) && m.Keys == Vars(f)
    requires Extends(m, a) && Satisfies(f, m)
    ensures Dpll(f, a)
    decreases |Vars(f) - a.Keys|
  {
    PropagateKeepsModel(f, a, m);
    var b := Propagate(f, a).value;
    match Choose(f, b, 0, None)
    case Unsat =>
      var j :| 0 <= j < |f| && ClauseFalse(f[j], b);
      ClauseStable(f[j], b, m);
    case AllSat =>
    case BranchOn(v) =>
      Fewer(Vars(f), a, b, v, m[v]);
      DpllComplete(f, b[v := m[v]], m);
  }

  /** DPLL from the empty assignment decides satisfiability. */
  lemma DpllDecides(f: Formula)
    ensures Dpll(f, map[]) <==> Satisfiable(f)
  {
    if Dpll(f, map[]) {
      var m := DpllSound(f, map[]);
    }
    if Satisfiable(f) {
      var m: Assignment :| m.Keys == Vars(f) && Satisfies(f, m);
      DpllComplete(f, map[], m);
    }
  }

  /** The empty formula is satisfiable and a formula with an empty clause
      is not. */
  lemma EmptyCases()
    ensures Solve([])
    ensures !Solve([[]])
  {
    assert Vars([]) == {};
    assert Satisfies([], map[]);
    var f: Formula := [[]];
    if Satisfiable(f) {
      var m: Assignment :| m.Keys == Vars(f) && Satisfies(f, m);
      assert ClauseTrue(f[0], m);
    }
  }

  /** A literal and its negation in one clause make it true under any
      model. */
  lemma TautologyClause()
    ensures Solve([[1, -1, 2]])
  {
    var f: Formula := [[1, -1, 2]];
    assert Var(f[0][0]) == 1 && Var(f[0][2]) == 2;
    assert Vars(f) == {1, 2};
    var m: Assignment := map[1 := true, 2 := true];
    assert IsTrue(f[0][0], m) == Some(true);
    assert Satisfies(f, m);
  }

  /** A clause whose every literal is `lit` is true exactly when `lit` is. */
  lemma {:induction false} AllSameLiteral(c: Clause, lit: int, m: Assignment)
    requires forall k | 0 <= k < |c| :: c[k] == lit
    requires ClauseTrue(c, m)
    ensures IsTrue(lit, m) == Some(true)
  {
    var k :| 0 <= k < |c| && IsTrue(c[k], m) == Some(true);
  }

  /** A literal and its negation are unassigned together, and otherwise
      have opposite values. */
  lemma IsTrueNegation(lit: int, a: Assignment)
    requires lit != 0
    ensures IsTrue(-lit, a).None? <==> IsTrue(lit, a).None?
    ensures IsTrue(lit, a).Some? ==> IsTrue(-lit, a) == Some(!IsTrue(lit, a).value)
  {
  }

  /** A literal and its negation are never both true. */
  lemma NegationFalse(lit: int, m: Assignment)
    requires lit != 0 && IsTrue(lit, m) == Some(true)
    ensures IsTrue(-lit, m) == Some(false)
  {
  }

  /** A clause made only of `lit` and one made only of its negation are
      never true together. */
  lemma ClashNoModel(c: Clause, d: Clause, lit: int, m: Assignment)
    requires lit != 0
    requires forall k | 0 <= k < |c| :: c[k] == lit
    requires forall k | 0 <= k < |d| :: d[k] == -lit
    ensures !(ClauseTrue(c, m) && ClauseTrue(d, m))
  {
    if ClauseTrue(c, m) && ClauseTrue(d, m) {
      AllSameLiteral(c, lit, m);
      NegationFalse(lit, m);
      AllSameLiteral(d, -lit, m);
    }
  }

  /** Two clauses made only of `x` and only of `y`, and one whose every
      literal is the negation of one of them, are never true together. */
  lemma UnitsNoModel(c: Clause, d: Clause, e: Clause, x: int, y: int, m: Assignment)
    requires x != 0 && y != 0
    requires forall k | 0 <= k < |c| :: c[k] == x
    requires forall k | 0 <= k < |d| :: d[k] == y
    requires forall k | 0 <= k < |e| :: e[k] == -x || e[k] == -y
    ensures !(ClauseTrue(c, m) && ClauseTrue(d, m) && ClauseTrue(e, m))
  {
    if ClauseTrue(c, m) && ClauseTrue(d, m) && ClauseTrue(e, m) {
      AllSameLiteral(c, x, m);
      AllSameLiteral(d, y, m);
      NegationFalse(x, m);
      NegationFalse(y, m);
    }
  }

  /** No model of a formula holding three such clauses. */
  lemma ThreeClauses(f: Formula, x: int, y: int)
    requires |f| >= 3 && x != 0 && y != 0
    requires forall k | 0 <= k < |f[0]| :: f[0][k] == x
    requires forall k | 0 <= k < |f[1]| :: f[1][k] == y
    requires forall k | 0 <= k < |f[2]| :: f[2][k] == -x || f[2][k] == -y
    ensures !Satisfiable(f)
  {
    forall m: Assignment | Satisfies(f, m)
      ensures false
    {
      assert ClauseTrue(f[0], m) && ClauseTrue(f[1], m) && ClauseTrue(f[2], m);
      UnitsNoModel(f[0], f[1], f[2], x, y, m);
    }
  }

  /** No model of a formula holding two clashing clauses. */
  lemma TwoClauses(f: Formula, lit: int)
    requires |f| >= 2 && lit != 0
    requires forall k | 0 <= k < |f[0]| :: f[0][k] == lit
    requires forall k | 0 <= k < |f[1]| :: f[1][k] == -lit
    ensures !Satisfiable(f)
  {
    forall m: Assignment | Satisfies(f, m)
      ensures false
    {
      assert ClauseTrue(f[0], m) && ClauseTrue(f[1], m);
      ClashNoModel(f[0], f[1], lit, m);
    }
  }

  /** A variable forced true by one clause and false by another: no
      model, whatever the repetitions. */
  lemma OppositeUnits()
    ensures !Solve([[1, 1, 1], [-1, -1, -1]])
  {
    TwoClauses([[1, 1, 1], [-1, -1, -1]], 1);
  }

  /** x, y and (not-x or not-y), with repetitions: no model. */
  lemma TwoUnitsAndClash()
    ensures !Solve([[1, 1, 1], [2, 2, 2], [-1, -1, -2]])
  {
    ThreeClauses([[1, 1, 1], [2, 2, 2], [-1, -1, -2]], 1, 2);
  }

  /** Repeated literals do not stop the solver from finding a model. */
  lemma RepeatedButSatisfiable()
    ensures Solve([[1, 1, 1], [-2, -2, -2], [-1, -1, -2]])
  {
    var f: Formula := [[1, 1, 1], [-2, -2, -2], [-1, -1, -2]];
    var m: Assignment := map[1 := true, 2 := false];
    RepeatedModel();
    RepeatedVars();
    assert m.Keys == Vars(f) && Satisfies(f, m);
  }

  lemma RepeatedModel()
    ensures Satisfies([[1, 1, 1], [-2, -2, -2], [-1, -1, -2]], map[1 := true, 2 := false])
  {
    var f: Formula := [[1, 1, 1], [-2, -2, -2], [-1, -1, -2]];
    var m: Assignment := map[1 := true, 2 := false];
    assert IsTrue(f[0][0], m) == Some(true);
    assert IsTrue(f[1][0], m) == Some(true);
    assert IsTrue(f[2][2], m) == Some(true);
  }

  lemma RepeatedVars()
    ensures Vars([[1, 1, 1], [-2, -2, -2], [-1, -1, -2]]) == {1, 2}
  {
    var f: Formula := [[1, 1, 1], [-2, -2, -2], [-1, -1, -2]];
    InVars(f, 0, 0);
    InVars(f, 1, 0);
    forall v | v in Vars(f)
      ensures v == 1 || v == 2
    {
      var j, k :| 0 <= j < |f| && 0 <= k < |f[j]| && Var(f[j][k]) == v;
      assert f[j][k] in [1, -1, 2, -2];
    }
  }

  /** Propagation does not treat a clause repeating one unassigned literal
      as a unit clause: it counts occurrences. */
  lemma RepeatedIsNotUnit()
    ensures ScanClause([1, 1, 1], map[], []) == (false, [1, 1, 1])
    ensures Stable([1, 1, 1], map[])
  {
    var a: Assignment := map[];
    assert IsTrue(1, a) == None;
    assert ScanClause([], a, [1, 1, 1]) == (false, [1, 1, 1]);
    assert [1][1..] == [] && [1, 1] + [1] == [1, 1, 1];
    assert ScanClause([1], a, [1, 1]) == (false, [1, 1, 1]);
    assert [1, 1][1..] == [1] && [1] + [1] == [1, 1];
    assert ScanClause([1, 1], a, [1]) == (false, [1, 1, 1]);
    assert [1, 1, 1][1..] == [1, 1] && [] + [1] == [1];
  }
}
