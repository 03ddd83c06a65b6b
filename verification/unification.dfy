/**
  The unifier of the older term generation and the substitution operations
  built on it: `Unifier::unify`, `Unifier::apply`, `Substitution::combine`
  and `Substitution::rollBack` with the `Added`/`Replaced` undo log.
 */
module Unification {
  import opened Wrappers
  import opened Terms

  /**
    The argument loop of `unify` runs over the first term's arity and reads
    the second predicate's argument at the same index. This predicate states
    that every such read stays in bounds, for every pair of predicates the
    recursion can meet.
   */
  predicate Covers(t0: Term, t1: Term) {
    t1.Var? || !t0.Pred? || !t1.Pred? ||
    (|t0.args| <= |t1.args| && forall i :: 0 <= i < |t0.args| ==> Covers(t0.args[i], t1.args[i]))
  }

  lemma {:induction false} CoversReflexive(t: Term)
    ensures Covers(t, t)
    decreases t
  {
    if t.Pred? {
      forall i | 0 <= i < |t.args| {
        CoversReflexive(t.args[i]);
      }
    }
  }

  /**
    `unify(t0, t1)` on a unifier whose mapping is `m`: the success flag and
    the mapping afterwards. A variable on the right is bound to the left
    term; otherwise a variable on the left is bound to the right term.
    Bindings overwrite, so a repeated variable keeps its last binding. The
    functor/arity test between two predicates compares the first predicate
    with itself and so never fails; the arguments are then unified pairwise
    up to the first failure, whose partial bindings stay in the mapping.
   */
  function Unify(t0: Term, t1: Term, m: Mapping): (r: (bool, Mapping))
    requires Covers(t0, t1)
    decreases t0, 1, 0
  {
    if t1.Var? then (true, Set(m, t1.name, t0))
    else
      match t0
      case Var(n) => (true, Set(m, n, t1))
      case Pred(_, _) => if !t1.Pred? then (false, m) else UnifyArgs(t0, t1, 0, m)
      case Str(v) => (t1.Str? && t1.str == v, m)
      case Dbl(v) => (t1.Dbl? && t1.dbl == v, m)
      case Int32(v) => (t1.Int32? && t1.int32 == v, m)
      case Long(v) => (t1.Long? && t1.long == v, m)
      case Top => (t1.Top?, m)
      case Bottom => (t1.Bottom?, m)
      case List(_) => (false, m)
  }

  /** The argument loop, from index `i` on. */
  function UnifyArgs(p0: Term, p1: Term, i: nat, m: Mapping): (r: (bool, Mapping))
    requires p0.Pred? && p1.Pred? && Covers(p0, p1) && i <= |p0.args|
    decreases p0, 0, |p0.args| - i
  {
    if i == |p0.args| then (true, m)
    else
      var r := Unify(p0.args[i], p1.args[i], m);
      if !r.0 then r else UnifyArgs(p0, p1, i + 1, r.1)
  }

  /** A reference definition of when `unify` succeeds, without the loop. */
  predicate Matches(t0: Term, t1: Term)
    requires Covers(t0, t1)
  {
    if t1.Var? || t0.Var? then true
    else if t0.Pred? then
      t1.Pred? && forall i :: 0 <= i < |t0.args| ==> Matches(t0.args[i], t1.args[i])
    else !t0.List? && t0 == t1
  }

  /** `unify` succeeds exactly when the terms match, whatever the mapping. */
  lemma {:induction false} UnifyMatches(t0: Term, t1: Term, m: Mapping)
    requires Covers(t0, t1)
    ensures Unify(t0, t1, m).0 <==> Matches(t0, t1)
    decreases t0, 1, 0
  {
    if !t1.Var? && t0.Pred? && t1.Pred? {
      UnifyArgsMatches(t0, t1, 0, m);
    }
  }

  lemma {:induction false} UnifyArgsMatches(p0: Term, p1: Term, i: nat, m: Mapping)
    requires p0.Pred? && p1.Pred? && Covers(p0, p1) && i <= |p0.args|
    ensures UnifyArgs(p0, p1, i, m).0 <==>
            forall j :: i <= j < |p0.args| ==> Matches(p0.args[j], p1.args[j])
    decreases p0, 0, |p0.args| - i
  {
    if i < |p0.args| {
      var r := Unify(p0.args[i], p1.args[i], m);
      UnifyMatches(p0.args[i], p1.args[i], m);
      if r.0 {
        UnifyArgsMatches(p0, p1, i + 1, r.1);
      }
    }
  }

  /** Whether a unifier of two terms exists (`Unifier::exists`). */
  predicate Unifiable(t0: Term, t1: Term)
    requires Covers(t0, t1)
  {
    Unify(t0, t1, map[]).0
  }

  /** Every term of the older generation unifies with itself. */
  lemma {:induction false} MatchesReflexive(t: Term)
    requires Legacy(t)
    ensures Covers(t, t) && Matches(t, t)
    decreases t
  {
    CoversReflexive(t);
    if t.Pred? {
      forall i | 0 <= i < |t.args| {
        MatchesReflexive(t.args[i]);
      }
    }
  }

  /** Unifying two ground terms binds nothing. */
  lemma {:induction false} UnifyGroundKeepsMapping(t0: Term, t1: Term, m: Mapping)
    requires Covers(t0, t1) && IsGround(t0) && IsGround(t1)
    ensures Unify(t0, t1, m).1 == m
    decreases t0, 1, 0
  {
    if t0.Pred? && t1.Pred? {
      UnifyArgsGroundKeepsMapping(t0, t1, 0, m);
    }
  }

  lemma {:induction false} UnifyArgsGroundKeepsMapping(p0: Term, p1: Term, i: nat, m: Mapping)
    requires p0.Pred? && p1.Pred? && Covers(p0, p1) && i <= |p0.args|
    requires IsGround(p0) && IsGround(p1)
    ensures UnifyArgs(p0, p1, i, m).1 == m
    decreases p0, 0, |p0.args| - i
  {
    if i < |p0.args| {
      UnifyGroundKeepsMapping(p0.args[i], p1.args[i], m);
      UnifyArgsGroundKeepsMapping(p0, p1, i + 1, m);
    }
  }

  /** A ground term of the older generation unifies with itself and binds
      nothing. */
  lemma {:induction false} UnifySelfGround(t: Term, m: Mapping)
    requires Legacy(t) && IsGround(t)
    ensures Covers(t, t) && Unify(t, t, m) == (true, m)
  {
    MatchesReflexive(t);
    UnifyMatches(t, t, m);
    UnifyGroundKeepsMapping(t, t, m);
  }

  /** When the right term is ground, a successful `unify` binds exactly the
      variables of the left term. */
  lemma {:induction false} UnifyBindsLeftVars(t0: Term, t1: Term, m: Mapping)
    requires Covers(t0, t1) && IsGround(t1) && Unify(t0, t1, m).0
    ensures Unify(t0, t1, m).1.Keys == m.Keys + Vars(t0)
    decreases t0, 1, 0
  {
    if t0.Pred? {
      forall v | v in VarsFrom(t0.args, 0) ensures v in Vars(t0) {
        var j :| 0 <= j < |t0.args| && v in Vars(t0.args[j]);
      }
      UnifyArgsBindsLeftVars(t0, t1, 0, m);
    }
  }

  /** The variables of the arguments from index `i` on. */
  function VarsFrom(args: seq<Term>, i: nat): set<string> {
    set j, v | i <= j < |args| && v in Vars(args[j]) :: v
  }

  lemma {:induction false} UnifyArgsBindsLeftVars(p0: Term, p1: Term, i: nat, m: Mapping)
    requires p0.Pred? && p1.Pred? && Covers(p0, p1) && i <= |p0.args|
    requires IsGround(p1) && UnifyArgs(p0, p1, i, m).0
    ensures UnifyArgs(p0, p1, i, m).1.Keys == m.Keys + VarsFrom(p0.args, i)
    decreases p0, 0, |p0.args| - i
  {
    if i == |p0.args| {
      assert VarsFrom(p0.args, i) == {};
    } else {
      var r := Unify(p0.args[i], p1.args[i], m);
      UnifyBindsLeftVars(p0.args[i], p1.args[i], m);
      UnifyArgsBindsLeftVars(p0, p1, i + 1, r.1);
      assert VarsFrom(p0.args, i) == Vars(p0.args[i]) + VarsFrom(p0.args, i + 1);
    }
  }

  /**
    `Unifier::apply`: Bottom when no unifier exists; the left term when the
    mapping is empty, the left term is ground or the right term is a
    variable; else the right term when it is ground or the left term is a
    variable; else the left predicate with the mapping applied.
   */
  function Apply(t0: Term, t1: Term): (r: Term)
    requires Covers(t0, t1)
    ensures !Unifiable(t0, t1) ==> r == Bottom
    ensures Unifiable(t0, t1) && (IsGround(t0) || t1.Var?) ==> r == t0
    ensures Unifiable(t0, t1) && Unify(t0, t1, map[]).1 == map[] ==> r == t0
  {
    var u := Unify(t0, t1, map[]);
    if !u.0 then Bottom
    else if |u.1| == 0 || IsGround(t0) || t1.Var? then t0
    else if IsGround(t1) || t0.Var? then t1
    else if t0.Pred? then ApplySubstitution(t0, u.1)
    else Bottom
  }

  /** Merging with a ground side gives a ground term; with a non-ground
      left side and a ground right side it is the right term. */
  lemma {:induction false} ApplyGround(t0: Term, t1: Term)
    requires Covers(t0, t1) && Unifiable(t0, t1)
    requires IsGround(t0) || IsGround(t1)
    ensures IsGround(Apply(t0, t1))
    ensures !IsGround(t0) ==> Apply(t0, t1) == t1
  {
    if !IsGround(t0) {
      UnifyBindsLeftVars(t0, t1, map[]);
      GroundIffNoVars(t0);
    }
  }

  /** Unifying a variable with a constant yields the constant. */
  lemma {:induction false} ApplyVariableConstant()
    ensures Covers(Var("X"), Str("a"))
    ensures Unify(Var("X"), Str("a"), map[]) == (true, map["X" := Str("a")])
    ensures Apply(Var("X"), Str("a")) == Str("a")
  {
  }

  /** Distinct constants of one kind do not unify and apply gives Bottom. */
  lemma {:induction false} ApplyDistinctConstants()
    ensures Covers(Str("a"), Str("b")) && !Unifiable(Str("a"), Str("b"))
    ensures Apply(Str("a"), Str("b")) == Bottom
  {
  }

  /** The functor/arity test never fails: p(a) unifies with q(a) and with
      q(a, b). */
  lemma {:induction false} UnifyIgnoresFunctor()
    ensures Covers(Pred("p", [Str("a")]), Pred("q", [Str("a")]))
    ensures Unifiable(Pred("p", [Str("a")]), Pred("q", [Str("a")]))
    ensures Covers(Pred("p", [Str("a")]), Pred("q", [Str("a"), Str("b")]))
    ensures Unifiable(Pred("p", [Str("a")]), Pred("q", [Str("a"), Str("b")]))
  {
    var p := Pred("p", [Str("a")]);
    assert UnifyArgs(p, Pred("q", [Str("a")]), 1, map[]) == (true, map[]);
    assert UnifyArgs(p, Pred("q", [Str("a"), Str("b")]), 1, map[]) == (true, map[]);
  }

  /** A repeated variable keeps its last binding: unifying p(X, X) with
      p(a, b) succeeds and binds X to b only. */
  lemma {:induction false} RepeatedVariableKeepsLastBinding()
    ensures Covers(Pred("p", [Var("X"), Var("X")]), Pred("p", [Str("a"), Str("b")]))
    ensures Unify(Pred("p", [Var("X"), Var("X")]), Pred("p", [Str("a"), Str("b")]), map[])
            == (true, map["X" := Str("b")])
  {
    var p0 := Pred("p", [Var("X"), Var("X")]);
    var p1 := Pred("p", [Str("a"), Str("b")]);
    assert UnifyArgs(p0, p1, 2, map["X" := Str("b")]) == (true, map["X" := Str("b")]);
    assert map["X" := Str("a")]["X" := Str("b")] == map["X" := Str("b")];
    assert UnifyArgs(p0, p1, 1, map["X" := Str("a")]) == (true, map["X" := Str("b")]);
  }

  // ---------------------------------------------------------------------
  // Substitution::combine and Substitution::rollBack
  // ---------------------------------------------------------------------

  /** An undo-log entry: `Added` erases the key again, `Replaced` restores
      the term the key was bound to before. */
  datatype Operation = Added(key: string) | Replaced(key: string, previous: Term)

  /** The undo log (a queue, replayed front first). */
  type Diff = seq<Operation>

  /** The entries of the other substitution in its iteration order; a map
      never repeats a key. */
  type Entries = seq<(string, Term)>

  predicate DistinctKeys(es: Entries) {
    forall i, j :: 0 <= i < j < |es| ==> es[i].0 != es[j].0
  }

  /** The keys whose bindings will be merged by unification from entry `i`
      on satisfy the arity bound of `unify`. */
  predicate Mergeable(m: Mapping, es: Entries, i: nat) {
    forall j :: i <= j < |es| && es[j].0 in m ==> Covers(m[es[j].0], es[j].1)
  }

  datatype Combined = Combined(ok: bool, mapping: Mapping, diff: Diff)

  /**
    `combine`: a key the mapping lacks is inserted and logged as `Added`;
    a bound key gets the unifier's `apply()` of the old and new term and is
    logged as `Replaced(old)`; the first failed unification returns false
    and leaves the earlier edits in place.
   */
  function Combine(m: Mapping, es: Entries, diff: Diff): (r: Combined)
    requires DistinctKeys(es) && Mergeable(m, es, 0)
  {
    CombineFrom(m, es, 0, diff)
  }

  function CombineFrom(m: Mapping, es: Entries, i: nat, diff: Diff): (r: Combined)
    requires DistinctKeys(es) && i <= |es| && Mergeable(m, es, i)
    decreases |es| - i
  {
    if i == |es| then Combined(true, m, diff)
    else
      var (k, t1) := es[i];
      if k !in m then
        CombineFrom(m[k := t1], es, i + 1, diff + [Added(k)])
      else
        var t0 := m[k];
        if Unifiable(t0, t1) then
          CombineFrom(m[k := Apply(t0, t1)], es, i + 1, diff + [Replaced(k, t0)])
        else
          Combined(false, m, diff)
  }

  /** Undoes one log entry. */
  function Undo(m: Mapping, op: Operation): Mapping {
    match op
    case Added(k) => m - {k}
    case Replaced(k, prev) => m[k := prev]
  }

  /** `rollBack` replays the whole log front first and empties it. */
  function RollBack(m: Mapping, diff: Diff): Mapping
    decreases |diff|
  {
    if |diff| == 0 then m else RollBack(Undo(m, diff[0]), diff[1..])
  }

  function OpKeys(diff: Diff): set<string> {
    set i | 0 <= i < |diff| :: diff[i].key
  }

  lemma {:induction false} OpKeysTail(diff: Diff)
    requires |diff| > 0
    ensures OpKeys(diff) == {diff[0].key} + OpKeys(diff[1..])
  {
    forall x | x in OpKeys(diff[1..]) ensures x in OpKeys(diff) {
      var i :| 0 <= i < |diff[1..]| && diff[1..][i].key == x;
      assert diff[i + 1].key == x;
    }
  }

  lemma {:induction false} OpKeysAppend(diff: Diff, op: Operation)
    ensures OpKeys(diff + [op]) == OpKeys(diff) + {op.key}
  {
    assert (diff + [op])[|diff|] == op;
    forall x | x in OpKeys(diff) ensures x in OpKeys(diff + [op]) {
      var i :| 0 <= i < |diff| && diff[i].key == x;
      assert (diff + [op])[i].key == x;
    }
  }

  /** Replaying a log commutes with an update of a key the log never touches. */
  lemma {:induction false} RollBackFrame(m: Mapping, diff: Diff, k: string, t: Term)
    requires k !in OpKeys(diff)
    ensures RollBack(m[k := t], diff) == RollBack(m, diff)[k := t]
    decreases |diff|
  {
    if |diff| > 0 {
      assert diff[0].key != k;
      assert Undo(m[k := t], diff[0]) == Undo(m, diff[0])[k := t];
      OpKeysTail(diff);
      RollBackFrame(Undo(m, diff[0]), diff[1..], k, t);
    }
  }

  /** Replaying a log leaves untouched keys as they are. */
  lemma {:induction false} RollBackKeeps(m: Mapping, diff: Diff, k: string)
    requires k !in OpKeys(diff)
    ensures k in RollBack(m, diff) <==> k in m
    ensures k in m ==> RollBack(m, diff)[k] == m[k]
    decreases |diff|
  {
    if |diff| > 0 {
      assert diff[0].key != k;
      OpKeysTail(diff);
      RollBackKeeps(Undo(m, diff[0]), diff[1..], k);
    }
  }

  lemma {:induction false} RollBackAppend(m: Mapping, diff: Diff, op: Operation)
    ensures RollBack(m, diff + [op]) == Undo(RollBack(m, diff), op)
    decreases |diff|
  {
    if |diff| > 0 {
      assert (diff + [op])[1..] == diff[1..] + [op];
      RollBackAppend(Undo(m, diff[0]), diff[1..], op);
    }
  }

  lemma {:induction false} CombineFromRollBack(m0: Mapping, m: Mapping, es: Entries, i: nat, diff: Diff)
    requires DistinctKeys(es) && i <= |es| && Mergeable(m, es, i)
    requires RollBack(m, diff) == m0
    requires forall j :: i <= j < |es| ==> es[j].0 !in OpKeys(diff)
    ensures RollBack(CombineFrom(m, es, i, diff).mapping, CombineFrom(m, es, i, diff).diff) == m0
    decreases |es| - i
  {
    if i < |es| {
      var (k, t1) := es[i];
      RollBackKeeps(m, diff, k);
      var op: Operation;
      var m': Mapping;
      if k !in m {
        op, m' := Added(k), m[k := t1];
      } else if Unifiable(m[k], t1) {
        op, m' := Replaced(k, m[k]), m[k := Apply(m[k], t1)];
      } else {
        return;
      }
      RollBackAppend(m', diff, op);
      RollBackFrame(m, diff, k, m'[k]);
      assert RollBack(m', diff + [op]) == m0;
      OpKeysAppend(diff, op);
      forall j | i + 1 <= j < |es|
        ensures es[j].0 != k
      {
        assert es[i].0 != es[j].0;
      }
      CombineFromRollBack(m0, m', es, i + 1, diff + [op]);
    }
  }

  /** Rolling back the log of one `combine`, successful or not, restores
      the mapping as it was before the call. */
  lemma {:induction false} CombineRollBack(m: Mapping, es: Entries)
    requires DistinctKeys(es) && Mergeable(m, es, 0)
    ensures RollBack(Combine(m, es, []).mapping, Combine(m, es, []).diff) == m
  {
    CombineFromRollBack(m, m, es, 0, []);
  }

  /** The map the entries enumerate. */
  function EntryMap(es: Entries): (r: Mapping)
    ensures r.Keys == set j | 0 <= j < |es| :: es[j].0
    decreases |es|
  {
    if |es| == 0 then map[] else EntryMap(es[..|es| - 1])[es[|es| - 1].0 := es[|es| - 1].1]
  }

  lemma {:induction false} EntryMapAt(es: Entries, j: nat)
    requires DistinctKeys(es) && j < |es|
    ensures es[j].0 in EntryMap(es) && EntryMap(es)[es[j].0] == es[j].1
    decreases |es|
  {
    if j < |es| - 1 {
      EntryMapAt(es[..|es| - 1], j);
    }
  }

  /** One more entry of a duplicate-free enumeration adds a fresh key. */
  lemma {:induction false} EntryMapSnoc(es: Entries, i: nat)
    requires DistinctKeys(es) && i < |es|
    ensures es[i].0 !in EntryMap(es[..i])
    ensures EntryMap(es[..i + 1]) == EntryMap(es[..i])[es[i].0 := es[i].1]
  {
    assert es[..i + 1][..i] == es[..i];
  }

  /** Every key both maps bind satisfies the arity bound of `unify`. */
  predicate MapsCover(m: Mapping, other: Mapping) {
    forall k :: k in m && k in other ==> Covers(m[k], other[k])
  }

  lemma {:induction false} EntryMapCovers(m: Mapping, es: Entries, n: nat)
    requires DistinctKeys(es) && Mergeable(m, es, 0) && n <= |es|
    ensures MapsCover(m, EntryMap(es[..n]))
  {
    forall k | k in m && k in EntryMap(es[..n])
      ensures Covers(m[k], EntryMap(es[..n])[k])
    {
      var j :| 0 <= j < n && es[..n][j].0 == k;
      EntryMapAt(es[..n], j);
    }
  }

  /** The reference result of merging `other` into `m`: keys of either,
      with the unifier's result on keys of both. */
  function Merged(m: Mapping, other: Mapping): (r: Mapping)
    requires MapsCover(m, other)
    ensures r.Keys == m.Keys + other.Keys
  {
    map k | k in m.Keys + other.Keys ::
      if k in m && k in other then Apply(m[k], other[k])
      else if k in other then other[k]
      else m[k]
  }

  lemma {:induction false} MergedStep(m0: Mapping, other: Mapping, k: string, t: Term)
    requires MapsCover(m0, other[k := t]) && k !in other
    ensures MapsCover(m0, other)
    ensures Merged(m0, other[k := t]) ==
            Merged(m0, other)[k := if k in m0 then Apply(m0[k], t) else t]
  {
  }

  /** The log entry `combine` writes for entry `j`. */
  function LoggedOp(m: Mapping, es: Entries, j: nat): Operation
    requires j < |es|
  {
    if es[j].0 in m then Replaced(es[j].0, m[es[j].0]) else Added(es[j].0)
  }

  /** Whether entry `j` clashes with the binding it meets. */
  predicate Clashes(m: Mapping, es: Entries, j: nat)
    requires j < |es| && Mergeable(m, es, 0)
  {
    es[j].0 in m && !Unifiable(m[es[j].0], es[j].1)
  }

  /** What a call of `CombineFrom` that started from `m0` and log `diff0`
      has done once it returns `r`. */
  predicate CombineOutcome(m0: Mapping, es: Entries, diff0: Diff, r: Combined)
    requires DistinctKeys(es) && Mergeable(m0, es, 0)
  {
    var n := |r.diff| - |diff0|;
    && 0 <= n <= |es|
    && r.diff[..|diff0|] == diff0
    && (forall j :: 0 <= j < n ==> r.diff[|diff0| + j] == LoggedOp(m0, es, j))
    && (forall j :: 0 <= j < n ==> !Clashes(m0, es, j))
    && MapsCover(m0, EntryMap(es[..n]))
    && r.mapping == Merged(m0, EntryMap(es[..n]))
    && (r.ok <==> n == |es|)
    && (!r.ok ==> Clashes(m0, es, n))
  }

  /** Entries from `i` on meet in `m` the bindings they meet in `m0`. */
  predicate AgreeFrom(m: Mapping, m0: Mapping, es: Entries, i: nat) {
    forall j :: i <= j < |es| ==>
      (es[j].0 in m <==> es[j].0 in m0) && (es[j].0 in m ==> m[es[j].0] == m0[es[j].0])
  }

  /** The log holds `diff0` followed by one entry per processed entry. */
  predicate LogPrefix(m0: Mapping, es: Entries, diff0: Diff, diff: Diff, i: nat)
    requires i <= |es|
  {
    |diff| == |diff0| + i && diff[..|diff0|] == diff0 &&
    forall j :: 0 <= j < i ==> diff[|diff0| + j] == LoggedOp(m0, es, j)
  }

  lemma {:induction false} LogPrefixStep(m0: Mapping, es: Entries, diff0: Diff, diff: Diff, i: nat)
    requires i < |es| && LogPrefix(m0, es, diff0, diff, i)
    ensures LogPrefix(m0, es, diff0, diff + [LoggedOp(m0, es, i)], i + 1)
  {
    var diff' := diff + [LoggedOp(m0, es, i)];
    assert diff'[..|diff0|] == diff[..|diff0|];
  }

  lemma {:induction false} AgreeStep(m: Mapping, m0: Mapping, es: Entries, i: nat, t: Term)
    requires DistinctKeys(es) && i < |es| && AgreeFrom(m, m0, es, i)
    ensures AgreeFrom(m[es[i].0 := t], m0, es, i + 1)
  {
    forall j | i + 1 <= j < |es|
      ensures es[j].0 != es[i].0
    {
    }
  }

  lemma {:induction false} MergeableStep(m: Mapping, es: Entries, i: nat, t: Term)
    requires DistinctKeys(es) && i < |es| && Mergeable(m, es, i)
    ensures Mergeable(m[es[i].0 := t], es, i + 1)
  {
    forall j | i + 1 <= j < |es|
      ensures es[j].0 != es[i].0
    {
    }
  }

  lemma {:induction false} CombineFromSpec(m0: Mapping, m: Mapping, es: Entries, i: nat, diff0: Diff, diff: Diff)
    requires DistinctKeys(es) && i <= |es| && Mergeable(m0, es, 0)
    requires Mergeable(m, es, i) && AgreeFrom(m, m0, es, i)
    requires forall j :: 0 <= j < i ==> !Clashes(m0, es, j)
    requires MapsCover(m0, EntryMap(es[..i]))
    requires m == Merged(m0, EntryMap(es[..i]))
    requires LogPrefix(m0, es, diff0, diff, i)
    ensures CombineOutcome(m0, es, diff0, CombineFrom(m, es, i, diff))
    decreases |es| - i
  {
    if i == |es| || (es[i].0 in m && !Unifiable(m[es[i].0], es[i].1)) {
      return;
    }
    var (k, t1) := es[i];
    var t := if k !in m then t1 else Apply(m[k], t1);
    var m' := m[k := t];
    var op := LoggedOp(m0, es, i);
    assert CombineFrom(m, es, i, diff) == CombineFrom(m', es, i + 1, diff + [op]);
    EntryMapSnoc(es, i);
    EntryMapCovers(m0, es, i + 1);
    MergedStep(m0, EntryMap(es[..i]), k, t1);
    AgreeStep(m, m0, es, i, t);
    MergeableStep(m, es, i, t);
    LogPrefixStep(m0, es, diff0, diff, i);
    CombineFromSpec(m0, m', es, i + 1, diff0, diff + [op]);
  }

  /**
    What `combine` leaves behind, in the terms of `CombineOutcome`: with
    `n` the number of log entries it wrote, the first `n` entries of
    `other` were merged as the reference map says and logged one entry
    each, in order; and it succeeds iff no entry clashes.
   */
  lemma {:induction false} CombineSpec(m: Mapping, es: Entries, diff: Diff)
    requires DistinctKeys(es) && Mergeable(m, es, 0)
    ensures CombineOutcome(m, es, diff, Combine(m, es, diff))
    ensures Combine(m, es, diff).ok <==> forall j :: 0 <= j < |es| ==> !Clashes(m, es, j)
  {
    assert EntryMap(es[..0]) == map[];
    assert Merged(m, map[]) == m;
    assert diff[..|diff|] == diff;
    CombineFromSpec(m, m, es, 0, diff, diff);
  }
}
