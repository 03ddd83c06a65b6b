/**
  The term model of the query language: the closed term variant, predicate
  indicators, groundness, the map-backed substitution of the older term
  generation and `Predicate::applySubstitution`.
 */
module Terms {
  import opened Wrappers

  /**
    A term. Constants carry their value; the two integer kinds are kept apart
    because unification compares the kind before the value. `List` is the
    newer generation's list term, which the parser builds for option lists
    and `[a,b]` arguments; the older generation has no list kind.
   */
  datatype Term =
    | Top
    | Bottom
    | Var(name: string)
    | Str(str: string)
    | Dbl(dbl: real)
    | Long(long: int)
    | Int32(int32: int)
    | Pred(functor: string, args: seq<Term>)
    | List(elems: seq<Term>)

  /** Functor and arity of a predicate. */
  datatype Indicator = Indicator(functor: string, arity: nat)

  /** The indicator a predicate is built with: its arity is its argument count. */
  function IndicatorOf(p: Term): (r: Indicator)
    requires p.Pred?
    ensures r.functor == p.functor && r.arity == |p.args|
  {
    Indicator(p.functor, |p.args|)
  }

  predicate IsConstant(t: Term) {
    t.Str? || t.Dbl? || t.Long? || t.Int32?
  }

  /** Groundness: constants, Top and Bottom are ground, a variable is not,
      and a compound term is ground iff all its parts are. */
  predicate IsGround(t: Term) {
    match t
    case Var(_) => false
    case Pred(_, args) => forall i :: 0 <= i < |args| ==> IsGround(args[i])
    case List(elems) => forall i :: 0 <= i < |elems| ==> IsGround(elems[i])
    case _ => true
  }

  /** The variables occurring in a term. */
  function Vars(t: Term): set<string> {
    match t
    case Var(n) => {n}
    case Pred(_, args) => set i, v | 0 <= i < |args| && v in Vars(args[i]) :: v
    case List(elems) => set i, v | 0 <= i < |elems| && v in Vars(elems[i]) :: v
    case _ => {}
  }

  /** A term of the older generation, which has no list kind. */
  predicate Legacy(t: Term) {
    match t
    case List(_) => false
    case Pred(_, args) => forall i :: 0 <= i < |args| ==> Legacy(args[i])
    case _ => true
  }

  /** The cached `isGround` flag is computed by scanning the arguments and
      stopping at the first one that is not ground. */
  method IsGroundScan(p: Term) returns (ground: bool)
    requires p.Pred?
    ensures ground <==> forall i :: 0 <= i < |p.args| ==> IsGround(p.args[i])
  {
    var i := 0;
    while i < |p.args|
      invariant 0 <= i <= |p.args|
      invariant forall j :: 0 <= j < i ==> IsGround(p.args[j])
    {
      if !IsGround(p.args[i]) {
        return false;
      }
      i := i + 1;
    }
    return true;
  }

  /** A term is ground exactly when no variable occurs in it. */
  lemma {:induction false} GroundIffNoVars(t: Term)
    ensures IsGround(t) <==> Vars(t) == {}
    decreases t
  {
    match t
    case Pred(_, args) =>
      forall i | 0 <= i < |args| {
        GroundIffNoVars(args[i]);
      }
      if !IsGround(t) {
        var i :| 0 <= i < |args| && !IsGround(args[i]);
        var v :| v in Vars(args[i]);
        assert v in Vars(t);
      }
    case List(elems) =>
      forall i | 0 <= i < |elems| {
        GroundIffNoVars(elems[i]);
      }
      if !IsGround(t) {
        var i :| 0 <= i < |elems| && !IsGround(elems[i]);
        var v :| v in Vars(elems[i]);
        assert v in Vars(t);
      }
    case _ =>
  }

  // ---------------------------------------------------------------------
  // The older substitution: a map from variable names to terms.
  // ---------------------------------------------------------------------

  /** `std::map<Variable, shared_ptr<Term>>`; variables are compared by name. */
  type Mapping = map<string, Term>

  /** Removes the binding of `v`, if any; every other binding stays. */
  function Erase(m: Mapping, v: string): (r: Mapping)
    ensures r.Keys == m.Keys - {v}
    ensures forall k :: k in r ==> r[k] == m[k]
  {
    m - {v}
  }

  /** A variable is contained exactly when erasing it changes the map. */
  function Contains(m: Mapping, v: string): (r: bool)
    ensures r <==> Erase(m, v) != m
  {
    v in m
  }

  /** `set` assigns through `operator[]`, so it overwrites an earlier
      binding: afterwards `v` is contained with the new term, and with `v`
      erased the map is what it was with `v` erased before. */
  function Set(m: Mapping, v: string, t: Term): (r: Mapping)
    ensures Contains(r, v) && r[v] == t
    ensures Erase(r, v) == Erase(m, v)
  {
    m[v := t]
  }

  /** The bound term, or the null term (`None`) for an unbound variable:
      a binding is found exactly for a contained variable, and setting the
      variable to the term found changes nothing. */
  function Get(m: Mapping, v: string): (r: Option<Term>)
    ensures r.Some? <==> Contains(m, v)
    ensures r.Some? ==> Set(m, v, r.value) == m
  {
    if v in m then Some(m[v]) else None
  }

  /** Setting a variable twice keeps only the second term. */
  lemma {:induction false} SetOverwrites(m: Mapping, v: string, a: Term, b: Term)
    ensures Set(Set(m, v, a), v, b) == Set(m, v, b)
    ensures Get(Set(Set(m, v, a), v, b), v) == Some(b)
  {
  }

  // ---------------------------------------------------------------------
  // Predicate::applySubstitution
  // ---------------------------------------------------------------------

  /** One argument of `applySubstitution`: a bound variable is replaced by
      its binding (once, without looking the result up again), a ground
      predicate is kept, a non-ground predicate is rebuilt recursively and
      every other argument is kept. */
  function SubstituteArg(a: Term, m: Mapping): Term {
    match a
    case Var(n) => if n in m then m[n] else a
    case Pred(f, args) => if IsGround(a) then a else Pred(f, SubstituteArgs(args, m))
    case _ => a
  }

  function SubstituteArgs(args: seq<Term>, m: Mapping): (r: seq<Term>)
    ensures |r| == |args|
    ensures forall i :: 0 <= i < |args| ==> r[i] == SubstituteArg(args[i], m)
  {
    seq(|args|, i requires 0 <= i < |args| => SubstituteArg(args[i], m))
  }

  /** A new predicate with the same indicator whose arguments are substituted. */
  function ApplySubstitution(p: Term, m: Mapping): (r: Term)
    requires p.Pred?
    ensures r.Pred? && IndicatorOf(r) == IndicatorOf(p)
    ensures forall i :: 0 <= i < |p.args| && p.args[i].Var? && p.args[i].name in m ==>
              r.args[i] == m[p.args[i].name]
    ensures forall i :: 0 <= i < |p.args| && p.args[i].Var? && p.args[i].name !in m ==>
              r.args[i] == p.args[i]
    ensures forall i :: 0 <= i < |p.args| && !p.args[i].Var? && (!p.args[i].Pred? || IsGround(p.args[i])) ==>
              r.args[i] == p.args[i]
    ensures forall i :: 0 <= i < |p.args| && p.args[i].Pred? && !IsGround(p.args[i]) ==>
              r.args[i] == ApplySubstitution(p.args[i], m)
  {
    Pred(p.functor, SubstituteArgs(p.args, m))
  }

  /** Terms whose variables the mapping does not bind are returned unchanged. */
  lemma {:induction false} SubstituteUnbound(a: Term, m: Mapping)
    requires Vars(a) !! m.Keys
    ensures SubstituteArg(a, m) == a
    decreases a
  {
    match a
    case Pred(f, args) =>
      if !IsGround(a) {
        forall i | 0 <= i < |args|
          ensures SubstituteArg(args[i], m) == args[i]
        {
          assert Vars(args[i]) <= Vars(a);
          SubstituteUnbound(args[i], m);
        }
        assert SubstituteArgs(args, m) == args;
      }
    case _ =>
  }

  /** Substituting a predicate whose variables are all bound to ground terms
      yields a ground predicate, provided no variable hides inside a list. */
  lemma {:induction false} SubstituteGrounds(a: Term, m: Mapping)
    requires Legacy(a)
    requires Vars(a) <= m.Keys
    requires forall k :: k in m ==> IsGround(m[k])
    ensures IsGround(SubstituteArg(a, m))
    decreases a
  {
    match a
    case Pred(f, args) =>
      if !IsGround(a) {
        forall i | 0 <= i < |args|
          ensures IsGround(SubstituteArgs(args, m)[i])
        {
          assert Vars(args[i]) <= Vars(a);
          SubstituteGrounds(args[i], m);
        }
      }
    case _ =>
  }

  /** The variables left after substitution are the unbound variables of
      the input and variables introduced by the bindings that were used. */
  lemma {:induction false} SubstituteVars(a: Term, m: Mapping, v: string)
    requires Legacy(a)
    requires v in Vars(SubstituteArg(a, m))
    ensures (v in Vars(a) && v !in m) || exists k :: k in Vars(a) && k in m && v in Vars(m[k])
    decreases a
  {
    match a
    case Var(n) =>
      if n in m {
        assert n in Vars(a);
      }
    case Pred(f, args) =>
      if !IsGround(a) {
        var r := SubstituteArgs(args, m);
        var i :| 0 <= i < |r| && v in Vars(r[i]);
        SubstituteVars(args[i], m, v);
        assert Vars(args[i]) <= Vars(a);
      } else {
        GroundIffNoVars(a);
      }
    case _ =>
  }

  /** Substitution does not dereference a binding again: with X bound to Y
      and Y bound to a, the argument X becomes Y. */
  lemma {:induction false} SubstituteOneStep()
    ensures ApplySubstitution(Pred("p", [Var("X")]), map["X" := Var("Y"), "Y" := Str("a")])
            == Pred("p", [Var("Y")])
  {
    var m := map["X" := Var("Y"), "Y" := Str("a")];
    assert SubstituteArg(Var("X"), m) == Var("Y");
  }

  /** Applying a substitution whose bound terms mention none of its keys a
      second time changes nothing. */
  lemma {:induction false} SubstituteIdempotent(a: Term, m: Mapping)
    requires forall k :: k in m ==> Vars(m[k]) !! m.Keys
    ensures SubstituteArg(SubstituteArg(a, m), m) == SubstituteArg(a, m)
    decreases a
  {
    match a
    case Var(n) =>
      if n in m {
        SubstituteUnbound(m[n], m);
      }
    case Pred(f, args) =>
      if !IsGround(a) {
        var r := SubstituteArgs(args, m);
        forall i | 0 <= i < |args|
          ensures SubstituteArg(r[i], m) == r[i]
        {
          SubstituteIdempotent(args[i], m);
        }
        assert SubstituteArgs(r, m) == r;
      }
    case _ =>
  }
}
