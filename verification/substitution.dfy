/**
  The substitution of the newer term generation: bindings to possibly null
  term pointers, insert-only `set`, `unifyWith` with an optional undo
  queue (`Reversible`), `computeHash` and the stream output.
 */
module Substitution {
  import opened Wrappers
  import opened Terms

  /** A shared term pointer; `None` is the null pointer. */
  type TermPtr = Option<Term>

  /** `std::map<Variable, TermPtr>`; variables are compared by name. */
  type Bindings = map<string, TermPtr>

  /** The bindings in the map's iteration order. */
  type Entries = seq<(string, TermPtr)>

  predicate DistinctKeys(es: Entries) {
    forall i, j :: 0 <= i < j < |es| ==> es[i].0 != es[j].0
  }

  /** `set` inserts, so a variable that is already bound keeps its term. */
  function Set(m: Bindings, v: string, t: TermPtr): (r: Bindings)
    ensures r.Keys == m.Keys + {v}
    ensures v in m ==> r == m
    ensures v !in m ==> r[v] == t && forall k :: k in m ==> r[k] == m[k]
  {
    if v in m then m else m[v := t]
  }

  /** A variable is contained exactly when `set` can no longer change its
      binding. */
  function Contains(m: Bindings, v: string): (r: bool)
    ensures r <==> forall t :: Set(m, v, t) == m
  {
    if v in m then true
    else
      assert Set(m, v, None) != m by { assert v in Set(m, v, None); }
      false
  }

  /** The bound pointer, or the null pointer for an unbound variable; a
      variable bound to the null pointer reads the same as an unbound one.
      A contained variable's pointer is the one that, set into the map
      without it, gives the map back. */
  function Get(m: Bindings, v: string): (r: TermPtr)
    ensures !Contains(m, v) ==> r.None?
    ensures Contains(m, v) ==> Set(m - {v}, v, r) == m
  {
    if v in m then m[v] else None
  }

  /** The first `set` of a variable wins. */
  lemma {:induction false} SetKeepsFirst(m: Bindings, v: string, a: TermPtr, b: TermPtr)
    requires v !in m
    ensures Get(Set(Set(m, v, a), v, b), v) == a
    ensures Set(Set(m, v, a), v, b) == Set(m, v, a)
  {
  }

  /** A bound variable and an unbound one are told apart by `contains`
      only: `get` gives the null pointer for both. */
  lemma {:induction false} GetCannotTellNullFromUnbound()
    ensures Get(map["X" := None], "X") == Get(map[], "X")
    ensures Contains(map["X" := None], "X") && !Contains(map[], "X")
  {
  }

  // ---------------------------------------------------------------------
  // unifyWith and the Reversible undo queue
  // ---------------------------------------------------------------------

  /** An entry of the undo queue: erase a binding that was inserted, or
      restore the pointer a binding held before. */
  datatype Undo = Erase(key: string) | Restore(key: string, previous: TermPtr)

  /** A `Reversible*`: `None` is the null pointer, which records nothing. */
  type Reversible = Option<seq<Undo>>

  /** `if (reversible) reversible->push(...)`: a null queue stays null; a
      queue gains one entry, for `u`'s key, and rolling it back replays
      `u` after everything queued before. */
  function Push(rev: Reversible, u: Undo): (r: Reversible)
    ensures r.None? <==> rev.None?
    ensures rev.Some? ==> |r.value| == |rev.value| + 1 && UndoKeys(r.value) == UndoKeys(rev.value) + {u.key}
    ensures rev.Some? ==> forall m :: RollBack(m, r.value) == Replay(RollBack(m, rev.value), u)
  {
    if rev.Some? then
      UndoKeysAppend(rev.value, u);
      RollBackAppendAll(rev.value, u);
      Some(rev.value + [u])
    else None
  }

  function Replay(m: Bindings, u: Undo): Bindings {
    match u
    case Erase(k) => m - {k}
    case Restore(k, prev) => m[k := prev]
  }

  /** `Reversible::rollBack` runs the queue front first and empties it. */
  function RollBack(m: Bindings, log: seq<Undo>): Bindings
    decreases |log|
  {
    if |log| == 0 then m else RollBack(Replay(m, log[0]), log[1..])
  }

  /**
    The unifier of two term pointers: `None` when none exists, otherwise
    the pointer its `apply()` returns. The unifier of this generation is
    not part of this model, so it is a parameter.
   */
  type UnifierFn = (TermPtr, TermPtr) -> Option<TermPtr>

  datatype Unified = Unified(ok: bool, bindings: Bindings, reversible: Reversible)

  /** Whether entry `j` meets a binding it has no unifier with. */
  predicate Clashes(m: Bindings, es: Entries, j: nat, u: UnifierFn)
    requires j < |es|
  {
    es[j].0 in m && u(m[es[j].0], es[j].1).None?
  }

  /** The binding entry `j` leaves behind when it does not clash. */
  function MergedAt(m: Bindings, es: Entries, j: nat, u: UnifierFn): TermPtr
    requires j < |es| && !Clashes(m, es, j, u)
  {
    if es[j].0 in m then u(m[es[j].0], es[j].1).value else es[j].1
  }

  /**
    `unifyWith` from entry `i` on: an unbound variable is inserted (undo:
    erase it); a bound one is replaced by the unifier's result (undo:
    restore the old pointer); the first entry without a unifier returns
    false and keeps the earlier edits. Undo entries are pushed only when
    the queue pointer is not null.
   */
  function UnifyWith(m: Bindings, es: Entries, i: nat, u: UnifierFn, rev: Reversible): (r: Unified)
    requires i <= |es|
    ensures r.reversible.None? <==> rev.None?
    decreases |es| - i
  {
    if i == |es| then Unified(true, m, rev)
    else
      var (k, t1) := es[i];
      if k !in m then
        UnifyWith(m[k := t1], es, i + 1, u, Push(rev, Erase(k)))
      else
        var t0 := m[k];
        var sigma := u(t0, t1);
        if sigma.Some? then
          UnifyWith(m[k := sigma.value], es, i + 1, u, Push(rev, Restore(k, t0)))
        else
          Unified(false, m, rev)
  }

  /** Entries from `i` on meet in `m` the bindings they meet in `m0`. */
  predicate AgreeFrom(m: Bindings, m0: Bindings, es: Entries, i: nat) {
    forall j :: i <= j < |es| ==>
      (es[j].0 in m <==> es[j].0 in m0) && (es[j].0 in m ==> m[es[j].0] == m0[es[j].0])
  }

  lemma {:induction false} AgreeStep(m: Bindings, m0: Bindings, es: Entries, i: nat, t: TermPtr)
    requires DistinctKeys(es) && i < |es| && AgreeFrom(m, m0, es, i)
    ensures AgreeFrom(m[es[i].0 := t], m0, es, i + 1)
  {
    forall j | i + 1 <= j < |es|
      ensures es[j].0 != es[i].0
    {
    }
  }

  /** The undo entry `unifyWith` pushes for entry `i`: erase a new key,
      restore a replaced one. */
  function UndoFor(m: Bindings, k: string): (r: Undo)
    ensures r.key == k
  {
    if k in m then Restore(k, m[k]) else Erase(k)
  }

  /** An entry that does not clash is merged and the rest follow. */
  lemma {:induction false} UnifyWithStep(m: Bindings, es: Entries, i: nat, u: UnifierFn, rev: Reversible)
    requires i < |es| && !Clashes(m, es, i, u)
    ensures UnifyWith(m, es, i, u, rev)
         == UnifyWith(m[es[i].0 := MergedAt(m, es, i, u)], es, i + 1, u, Push(rev, UndoFor(m, es[i].0)))
  {
  }

  /** At the end of the entries, or at a clash, nothing more is done. */
  lemma {:induction false} UnifyWithStop(m: Bindings, es: Entries, i: nat, u: UnifierFn, rev: Reversible)
    requires i == |es| || (i < |es| && Clashes(m, es, i, u))
    ensures UnifyWith(m, es, i, u, rev) == Unified(i == |es|, m, rev)
  {
  }

  /** The first entry from `i` on that clashes with `m`, or `|es|` when
      none does. */
  function FirstClash(m: Bindings, es: Entries, i: nat, u: UnifierFn): (n: nat)
    requires i <= |es|
    ensures i <= n <= |es|
    ensures forall j :: i <= j < n ==> !Clashes(m, es, j, u)
    ensures n < |es| ==> Clashes(m, es, n, u)
    decreases |es| - i
  {
    if i == |es| || Clashes(m, es, i, u) then i else FirstClash(m, es, i + 1, u)
  }

  /** The keys of the entries `i..n`. */
  function KeysIn(es: Entries, i: nat, n: nat): set<string>
    requires i <= n <= |es|
  {
    set j | i <= j < n :: es[j].0
  }

  /** The bindings after entries `i..n` were merged into `m0` without a
      clash: each of their keys bound to the merged pointer and every
      other binding as it was. */
  predicate MergedFrom(m0: Bindings, es: Entries, i: nat, n: nat, u: UnifierFn, r: Bindings)
    requires i <= n <= |es|
  {
    && (forall j :: i <= j < n ==> !Clashes(m0, es, j, u))
    && r.Keys == m0.Keys + KeysIn(es, i, n)
    && (forall j :: i <= j < n ==> r[es[j].0] == MergedAt(m0, es, j, u))
    && (forall k :: k in m0 && k !in KeysIn(es, i, n) ==> r[k] == m0[k])
  }

  lemma {:induction false} ClashesAgree(m: Bindings, m0: Bindings, es: Entries, i: nat, u: UnifierFn)
    requires AgreeFrom(m, m0, es, i)
    ensures forall j :: i <= j < |es| ==> (Clashes(m, es, j, u) <==> Clashes(m0, es, j, u))
  {
  }

  /** Maps that agree on the entries from `i` on clash first at the same
      entry. */
  lemma {:induction false} FirstClashAgree(m: Bindings, m0: Bindings, es: Entries, i: nat, u: UnifierFn)
    requires i <= |es| && AgreeFrom(m, m0, es, i)
    ensures FirstClash(m, es, i, u) == FirstClash(m0, es, i, u)
  {
    ClashesAgree(m, m0, es, i, u);
  }

  lemma {:induction false} KeysInCons(es: Entries, i: nat, n: nat)
    requires i < n <= |es|
    ensures KeysIn(es, i, n) == {es[i].0} + KeysIn(es, i + 1, n)
  {
  }

  lemma {:induction false} MergedFromStep(m: Bindings, es: Entries, i: nat, n: nat, u: UnifierFn, r: Bindings)
    requires DistinctKeys(es) && i < n <= |es| && !Clashes(m, es, i, u)
    requires AgreeFrom(m[es[i].0 := MergedAt(m, es, i, u)], m, es, i + 1)
    requires MergedFrom(m[es[i].0 := MergedAt(m, es, i, u)], es, i + 1, n, u, r)
    ensures MergedFrom(m, es, i, n, u, r)
  {
    var k := es[i].0;
    var m' := m[k := MergedAt(m, es, i, u)];
    ClashesAgree(m', m, es, i + 1, u);
    forall j | i + 1 <= j < n
      ensures es[j].0 != k && MergedAt(m', es, j, u) == MergedAt(m, es, j, u)
    {
      assert es[i].0 != es[j].0;
    }
    KeysInCons(es, i, n);
  }

  lemma {:induction false} UnifyWithOkFrom(m: Bindings, es: Entries, i: nat, u: UnifierFn, rev: Reversible)
    requires DistinctKeys(es) && i <= |es|
    ensures UnifyWith(m, es, i, u, rev).ok <==> FirstClash(m, es, i, u) == |es|
    decreases |es| - i
  {
    if i == |es| || Clashes(m, es, i, u) {
      return;
    }
    var k := es[i].0;
    var t := MergedAt(m, es, i, u);
    var rev' := Push(rev, UndoFor(m, k));
    UnifyWithStep(m, es, i, u, rev);
    AgreeStep(m, m, es, i, t);
    FirstClashAgree(m[k := t], m, es, i + 1, u);
    UnifyWithOkFrom(m[k := t], es, i + 1, u, rev');
  }

  lemma {:induction false} UnifyWithFromSpec(m: Bindings, es: Entries, i: nat, u: UnifierFn, rev: Reversible)
    requires DistinctKeys(es) && i <= |es|
    ensures MergedFrom(m, es, i, FirstClash(m, es, i, u), u, UnifyWith(m, es, i, u, rev).bindings)
    decreases |es| - i
  {
    if i == |es| || Clashes(m, es, i, u) {
      assert KeysIn(es, i, i) == {};
      return;
    }
    var k := es[i].0;
    var t := MergedAt(m, es, i, u);
    var rev' := Push(rev, UndoFor(m, k));
    var r := UnifyWith(m, es, i, u, rev);
    UnifyWithStep(m, es, i, u, rev);
    var n := FirstClash(m, es, i, u);
    AgreeStep(m, m, es, i, t);
    FirstClashAgree(m[k := t], m, es, i + 1, u);
    assert n == FirstClash(m[k := t], es, i + 1, u);
    UnifyWithFromSpec(m[k := t], es, i + 1, u, rev');
    MergedFromStep(m, es, i, n, u, r.bindings);
  }

  lemma {:induction false} UnifyWithUndoFrom(m: Bindings, es: Entries, i: nat, u: UnifierFn, rev: Reversible)
    requires DistinctKeys(es) && i <= |es| && rev.Some?
    ensures var r := UnifyWith(m, es, i, u, rev);
            && |r.reversible.value| == |rev.value| + (FirstClash(m, es, i, u) - i)
            && UndoKeys(r.reversible.value) == UndoKeys(rev.value) + KeysIn(es, i, FirstClash(m, es, i, u))
    decreases |es| - i
  {
    if i == |es| || Clashes(m, es, i, u) {
      assert KeysIn(es, i, i) == {};
      return;
    }
    var k := es[i].0;
    var t := MergedAt(m, es, i, u);
    var rev' := Push(rev, UndoFor(m, k));
    assert |rev'.value| == |rev.value| + 1 && UndoKeys(rev'.value) == UndoKeys(rev.value) + {k};
    UnifyWithStep(m, es, i, u, rev);
    var n := FirstClash(m, es, i, u);
    AgreeStep(m, m, es, i, t);
    FirstClashAgree(m[k := t], m, es, i + 1, u);
    assert n == FirstClash(m[k := t], es, i + 1, u);
    UnifyWithUndoFrom(m[k := t], es, i + 1, u, rev');
    KeysInCons(es, i, n);
  }

  /**
    `unifyWith` processes the entries of `other` up to the first one that
    meets a binding it has no unifier with, and succeeds iff there is no
    such entry. The entries before it are merged: each variable bound, to
    its own term when it was unbound and to the unifier's result
    otherwise; the clashing entry and those after it are not touched, and
    neither is any other binding. A non-null queue gains exactly one undo
    entry per merged entry, for its key.
   */
  lemma {:induction false} UnifyWithSpec(m: Bindings, es: Entries, u: UnifierFn, rev: Reversible)
    requires DistinctKeys(es)
    ensures UnifyWith(m, es, 0, u, rev).ok <==> forall j :: 0 <= j < |es| ==> !Clashes(m, es, j, u)
    ensures MergedFrom(m, es, 0, FirstClash(m, es, 0, u), u, UnifyWith(m, es, 0, u, rev).bindings)
    ensures !UnifyWith(m, es, 0, u, rev).ok ==> Clashes(m, es, FirstClash(m, es, 0, u), u)
    ensures rev.Some? ==>
              && |UnifyWith(m, es, 0, u, rev).reversible.value| == |rev.value| + FirstClash(m, es, 0, u)
              && UndoKeys(UnifyWith(m, es, 0, u, rev).reversible.value) == UndoKeys(rev.value) + KeysIn(es, 0, FirstClash(m, es, 0, u))
  {
    UnifyWithOkFrom(m, es, 0, u, rev);
    UnifyWithFromSpec(m, es, 0, u, rev);
    if rev.Some? {
      UnifyWithUndoFrom(m, es, 0, u, rev);
    }
  }

  function UndoKeys(log: seq<Undo>): set<string> {
    set i | 0 <= i < |log| :: log[i].key
  }

  lemma {:induction false} UndoKeysTail(log: seq<Undo>)
    requires |log| > 0
    ensures UndoKeys(log) == {log[0].key} + UndoKeys(log[1..])
  {
    forall x | x in UndoKeys(log[1..]) ensures x in UndoKeys(log) {
      var i :| 0 <= i < |log[1..]| && log[1..][i].key == x;
      assert log[i + 1].key == x;
    }
  }

  lemma {:induction false} UndoKeysAppend(log: seq<Undo>, u: Undo)
    ensures UndoKeys(log + [u]) == UndoKeys(log) + {u.key}
  {
    assert (log + [u])[|log|] == u;
    forall x | x in UndoKeys(log) ensures x in UndoKeys(log + [u]) {
      var i :| 0 <= i < |log| && log[i].key == x;
      assert (log + [u])[i].key == x;
    }
  }

  lemma {:induction false} RollBackFrame(m: Bindings, log: seq<Undo>, k: string, t: TermPtr)
    requires k !in UndoKeys(log)
    ensures RollBack(m[k := t], log) == RollBack(m, log)[k := t]
    decreases |log|
  {
    if |log| > 0 {
      UndoKeysTail(log);
      assert Replay(m[k := t], log[0]) == Replay(m, log[0])[k := t];
      RollBackFrame(Replay(m, log[0]), log[1..], k, t);
    }
  }

  lemma {:induction false} RollBackKeeps(m: Bindings, log: seq<Undo>, k: string)
    requires k !in UndoKeys(log)
    ensures k in RollBack(m, log) <==> k in m
    ensures k in m ==> RollBack(m, log)[k] == m[k]
    decreases |log|
  {
    if |log| > 0 {
      UndoKeysTail(log);
      RollBackKeeps(Replay(m, log[0]), log[1..], k);
    }
  }

  lemma {:induction false} RollBackAppend(m: Bindings, log: seq<Undo>, u: Undo)
    ensures RollBack(m, log + [u]) == Replay(RollBack(m, log), u)
    decreases |log|
  {
    if |log| > 0 {
      assert (log + [u])[1..] == log[1..] + [u];
      RollBackAppend(Replay(m, log[0]), log[1..], u);
    }
  }

  lemma {:induction false} RollBackAppendAll(log: seq<Undo>, u: Undo)
    ensures forall m :: RollBack(m, log + [u]) == Replay(RollBack(m, log), u)
  {
    forall m
      ensures RollBack(m, log + [u]) == Replay(RollBack(m, log), u)
    {
      RollBackAppend(m, log, u);
    }
  }

  /** One merged entry keeps the rollback invariant of `UnifyWithRollBackFrom`. */
  lemma {:induction false} RollBackStep(m0: Bindings, m: Bindings, es: Entries, i: nat, t: TermPtr, rev: Reversible)
    requires DistinctKeys(es) && i < |es| && rev.Some?
    requires RollBack(m, rev.value) == m0
    requires forall j :: i <= j < |es| ==> es[j].0 !in UndoKeys(rev.value)
    ensures var k := es[i].0;
            var rev' := Push(rev, UndoFor(m, k));
            && rev'.Some?
            && RollBack(m[k := t], rev'.value) == m0
            && forall j :: i + 1 <= j < |es| ==> es[j].0 !in UndoKeys(rev'.value)
  {
    var k := es[i].0;
    var op := UndoFor(m, k);
    RollBackKeeps(m, rev.value, k);
    RollBackAppend(m[k := t], rev.value, op);
    RollBackFrame(m, rev.value, k, t);
    UndoKeysAppend(rev.value, op);
    forall j | i + 1 <= j < |es|
      ensures es[j].0 != k
    {
      assert es[i].0 != es[j].0;
    }
  }

  lemma {:induction false} UnifyWithRollBackFrom(m0: Bindings, m: Bindings, es: Entries, i: nat, u: UnifierFn, rev: Reversible)
    requires DistinctKeys(es) && i <= |es| && rev.Some?
    requires RollBack(m, rev.value) == m0
    requires forall j :: i <= j < |es| ==> es[j].0 !in UndoKeys(rev.value)
    ensures var r := UnifyWith(m, es, i, u, rev);
            r.reversible.Some? && RollBack(r.bindings, r.reversible.value) == m0
    decreases |es| - i
  {
    var r := UnifyWith(m, es, i, u, rev);
    if i == |es| || Clashes(m, es, i, u) {
      UnifyWithStop(m, es, i, u, rev);
      assert r.reversible.Some? && RollBack(r.bindings, r.reversible.value) == m0;
    } else {
      var k := es[i].0;
      var t := MergedAt(m, es, i, u);
      RollBackStep(m0, m, es, i, t, rev);
      UnifyWithStep(m, es, i, u, rev);
      UnifyWithRollBackFrom(m0, m[k := t], es, i + 1, u, Push(rev, UndoFor(m, k)));
      assert r == UnifyWith(m[k := t], es, i + 1, u, Push(rev, UndoFor(m, k)));
      assert r.reversible.Some? && RollBack(r.bindings, r.reversible.value) == m0;
    }
  }

  /** Rolling back the queue one `unifyWith` filled, whether it succeeded
      or not, restores the bindings it started from. */
  lemma {:induction false} UnifyWithRollBack(m: Bindings, es: Entries, u: UnifierFn)
    requires DistinctKeys(es)
    ensures var r := UnifyWith(m, es, 0, u, Some([]));
            r.reversible.Some? && RollBack(r.bindings, r.reversible.value) == m
  {
    UnifyWithRollBackFrom(m, m, es, 0, u, Some([]));
  }

  /** A null queue pointer records nothing and changes nothing else. */
  lemma {:induction false} NullReversibleSameOutcome(m: Bindings, es: Entries, i: nat, u: UnifierFn, log: seq<Undo>)
    requires i <= |es|
    ensures UnifyWith(m, es, i, u, None).reversible == None
    ensures UnifyWith(m, es, i, u, None).ok == UnifyWith(m, es, i, u, Some(log)).ok
    ensures UnifyWith(m, es, i, u, None).bindings == UnifyWith(m, es, i, u, Some(log)).bindings
    decreases |es| - i
  {
    if i < |es| {
      var (k, t1) := es[i];
      if k !in m {
        NullReversibleSameOutcome(m[k := t1], es, i + 1, u, log + [Erase(k)]);
      } else if u(m[k], t1).Some? {
        NullReversibleSameOutcome(m[k := u(m[k], t1).value], es, i + 1, u, log + [Restore(k, m[k])]);
      }
    }
  }

  // ---------------------------------------------------------------------
  // computeHash
  // ---------------------------------------------------------------------

  /** The 32-bit golden-ratio constant of the hash combiner. */
  const GoldenRatioHash: bv64 := 0x9e3779b9

  /** One combining step on the 64-bit seed; all arithmetic wraps. */
  function Mix(seed: bv64, h: bv64): (r: bv64)
    ensures r ^ seed == h + GoldenRatioHash + (seed << 6) + (seed >> 2)
  {
    seed ^ (h + GoldenRatioHash + (seed << 6) + (seed >> 2))
  }

  /** The hash of one binding: key then value, a null value counting 0. */
  function MixBinding(seed: bv64, e: (string, TermPtr), keyHash: string -> bv64, termHash: Term -> bv64): bv64 {
    Mix(Mix(seed, keyHash(e.0)), if e.1.Some? then termHash(e.1.value) else 0)
  }

  /** The reference definition: the seed starts at 0 and folds in the
      bindings in iteration order. */
  function Hash(es: Entries, keyHash: string -> bv64, termHash: Term -> bv64): bv64
    decreases |es|
  {
    if |es| == 0 then 0
    else MixBinding(Hash(es[..|es| - 1], keyHash, termHash), es[|es| - 1], keyHash, termHash)
  }

  /** `computeHash` as the loop over the bindings. */
  method ComputeHash(es: Entries, keyHash: string -> bv64, termHash: Term -> bv64) returns (seed: bv64)
    ensures seed == Hash(es, keyHash, termHash)
    ensures |es| == 0 ==> seed == 0
  {
    seed := 0;
    var i := 0;
    while i < |es|
      invariant 0 <= i <= |es|
      invariant seed == Hash(es[..i], keyHash, termHash)
    {
      var keyH := keyHash(es[i].0);
      var valueH: bv64 := 0;
      if es[i].1.Some? {
        valueH := termHash(es[i].1.value);
      }
      seed := Mix(seed, keyH);
      seed := Mix(seed, valueH);
      assert es[..i + 1][..i] == es[..i];
      i := i + 1;
    }
    assert es[..i] == es;
  }

  /** Appending a binding extends the hash by two mixing steps, whatever
      came before. */
  lemma {:induction false} HashSnoc(es: Entries, e: (string, TermPtr), keyHash: string -> bv64, termHash: Term -> bv64)
    ensures Hash(es + [e], keyHash, termHash) == MixBinding(Hash(es, keyHash, termHash), e, keyHash, termHash)
  {
    assert (es + [e])[..|es|] == es;
  }

  /** A null binding hashes like a binding to a term whose hash is 0. */
  lemma {:induction false} NullHashesAsZero(es: Entries, k: string, t: Term, keyHash: string -> bv64, termHash: Term -> bv64)
    requires termHash(t) == 0
    ensures Hash(es + [(k, None)], keyHash, termHash) == Hash(es + [(k, Some(t))], keyHash, termHash)
  {
    HashSnoc(es, (k, None), keyHash, termHash);
    HashSnoc(es, (k, Some(t)), keyHash, termHash);
  }

  /** The empty substitution hashes to 0, and a single binding to the
      combiner applied twice to 0. */
  lemma {:induction false} HashSmall(k: string, p: TermPtr, keyHash: string -> bv64, termHash: Term -> bv64)
    ensures Hash([], keyHash, termHash) == 0
    ensures Hash([(k, p)], keyHash, termHash) ==
            Mix(GoldenRatioHash + keyHash(k), if p.Some? then termHash(p.value) else 0)
  {
    assert [(k, p)][..0] == [];
  }

  /** The combiner is not symmetric in the order of its inputs, so the
      hash depends on the iteration order of the map. */
  lemma {:induction false} MixOrderMatters()
    ensures Mix(Mix(0, 1), 2) != Mix(Mix(0, 2), 1)
  {
  }

  // ---------------------------------------------------------------------
  // operator<<
  // ---------------------------------------------------------------------

  /** One binding as printed: the name, a colon, a space and the term. */
  function ShowEntry(e: (string, TermPtr), show: Term -> string): string
    requires e.1.Some?
  {
    e.0 + ": " + show(e.1.value)
  }

  predicate NonNull(es: Entries) {
    forall i :: 0 <= i < |es| ==> es[i].1.Some?
  }

  /** The entries separated by commas. */
  function JoinEntries(es: Entries, show: Term -> string): string
    requires NonNull(es)
    decreases |es|
  {
    if |es| == 0 then ""
    else if |es| == 1 then ShowEntry(es[0], show)
    else JoinEntries(es[..|es| - 1], show) + "," + ShowEntry(es[|es| - 1], show)
  }

  /** Where entry `j` starts in the printed text: after the opening brace
      and, for each entry before it, its text and one comma. */
  function Offset(es: Entries, j: nat, show: Term -> string): (r: nat)
    requires NonNull(es) && j <= |es|
    ensures r >= 1 + j
    decreases j
  {
    if j == 0 then 1 else Offset(es, j - 1, show) + |ShowEntry(es[j - 1], show)| + 1
  }

  /** The printed text laid out position by position: a brace at each end,
      entry `j` at `Offset(j)`, a comma right before every entry but the
      first, and a length that leaves room for nothing else. */
  predicate Layout(es: Entries, show: Term -> string, out: string)
    requires NonNull(es)
  {
    && |out| == (if |es| == 0 then 2 else Offset(es, |es|, show))
    && out[0] == '{' && out[|out| - 1] == '}'
    && (forall j :: 0 <= j < |es| ==> Placed(es, j, show, out))
  }

  /** Entry `j` sits at its offset, preceded by a comma unless it is first. */
  predicate Placed(es: Entries, j: nat, show: Term -> string, out: string)
    requires NonNull(es) && j < |es|
  {
    var o, e := Offset(es, j, show), ShowEntry(es[j], show);
    && o + |e| <= |out|
    && out[o..o + |e|] == e
    && (j > 0 ==> out[o - 1] == ',')
  }

  /** Appending keeps an entry already placed in place. */
  lemma {:induction false} PlacedAppend(es: Entries, j: nat, show: Term -> string, out: string, tail: string)
    requires NonNull(es) && j < |es| && Placed(es, j, show, out)
    ensures Placed(es, j, show, out + tail)
  {
    var o, e := Offset(es, j, show), ShowEntry(es[j], show);
    assert (out + tail)[o..o + |e|] == out[o..o + |e|];
  }

  /** The stream output: the entries in braces, a comma before every entry
      but the first. Every bound pointer is dereferenced, so none may be
      null. */
  method Print(es: Entries, show: Term -> string) returns (out: string)
    requires NonNull(es)
    ensures out == "{" + JoinEntries(es, show) + "}"
    ensures Layout(es, show, out)
    ensures |es| == 0 ==> out == "{}"
  {
    out := "{";
    var i := 0;
    while i < |es|
      invariant 0 <= i <= |es|
      invariant out == "{" + JoinEntries(es[..i], show)
      invariant |out| == (if i == 0 then 1 else Offset(es, i, show) - 1)
      invariant out[0] == '{'
      invariant forall j :: 0 <= j < i ==> Placed(es, j, show, out)
    {
      assert es[..i + 1][..i] == es[..i];
      var e := ShowEntry(es[i], show);
      var sep := if i > 0 then "," else "";
      forall j | 0 <= j < i
        ensures Placed(es, j, show, out + sep + e)
      {
        PlacedAppend(es, j, show, out, sep + e);
        assert out + sep + e == out + (sep + e);
      }
      var out' := out + sep + e;
      assert out'[Offset(es, i, show)..Offset(es, i, show) + |e|] == e;
      out := out';
      i := i + 1;
    }
    assert es[..i] == es;
    forall j | 0 <= j < |es|
      ensures Placed(es, j, show, out + "}")
    {
      PlacedAppend(es, j, show, out, "}");
    }
    out := out + "}";
  }

  /** Printing one binding. */
  lemma {:induction false} PrintOne(show: Term -> string)
    requires show(Str("a")) == "a"
    ensures "{" + JoinEntries([("X", Some(Str("a")))], show) + "}" == "{X: a}"
  {
  }
}
