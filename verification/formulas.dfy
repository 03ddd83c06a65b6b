/**
  Formulas of the query language and the modal operators that qualify
  them, plus the errors a query can raise while it is read.
 */
module Formulas {
  import opened Wrappers
  import opened Terms

  /** A time interval whose ends may each be open. */
  datatype TimeInterval = TimeInterval(begin: Option<real>, end: Option<real>)

  /** The four modal operators; `None` parameters are the unparametrised
      defaults. */
  datatype ModalOperator =
    | Knowledge(agent: Option<string>)
    | Belief(agent: Option<string>, confidence: Option<real>)
    | PastOnce(interval: Option<TimeInterval>)
    | PastAlways(interval: Option<TimeInterval>)

  /** The symbol a modal operator is written with. */
  function Symbol(op: ModalOperator): (r: char)
    ensures r in {'K', 'B', 'P', 'H'}
  {
    match op
    case Knowledge(_) => 'K'
    case Belief(_, _) => 'B'
    case PastOnce(_) => 'P'
    case PastAlways(_) => 'H'
  }

  /** Two operators share a symbol exactly when they are of one kind. */
  lemma {:induction false} SymbolNamesKind(a: ModalOperator, b: ModalOperator)
    ensures Symbol(a) == Symbol(b) <==>
              a.Knowledge? == b.Knowledge? && a.Belief? == b.Belief? && a.PastOnce? == b.PastOnce?
  {
  }

  /** A formula; a predicate doubles as the atomic formula. */
  datatype Formula =
    | Atom(functor: string, args: seq<Term>)
    | Negation(arg: Formula)
    | Conjunction(conjuncts: seq<Formula>)
    | Disjunction(disjuncts: seq<Formula>)
    | Implication(lhs: Formula, rhs: Formula)
    | Modal(op: ModalOperator, body: Formula)

  /** The formula a predicate term stands for. */
  function AtomOf(p: Term): (r: Formula)
    requires p.Pred?
    ensures r.Atom? && r.functor == p.functor && r.args == p.args
  {
    Atom(p.functor, p.args)
  }

  /** The parts a conjunction contributes when it is conjoined again. */
  function ConjunctsOf(f: Formula): (r: seq<Formula>)
    ensures f.Conjunction? ==> r == f.conjuncts
    ensures !f.Conjunction? ==> r == [f]
  {
    if f.Conjunction? then f.conjuncts else [f]
  }

  function DisjunctsOf(f: Formula): (r: seq<Formula>)
    ensures f.Disjunction? ==> r == f.disjuncts
    ensures !f.Disjunction? ==> r == [f]
  {
    if f.Disjunction? then f.disjuncts else [f]
  }

  /** `a & b`: one conjunction holding the parts of both sides. */
  function Conj(a: Formula, b: Formula): (r: Formula)
    ensures r.Conjunction?
    ensures r.conjuncts == ConjunctsOf(a) + ConjunctsOf(b)
  {
    Conjunction(ConjunctsOf(a) + ConjunctsOf(b))
  }

  /** `a | b`: one disjunction holding the parts of both sides. */
  function Disj(a: Formula, b: Formula): (r: Formula)
    ensures r.Disjunction?
    ensures r.disjuncts == DisjunctsOf(a) + DisjunctsOf(b)
  {
    Disjunction(DisjunctsOf(a) + DisjunctsOf(b))
  }

  /** Conjoining is associative, so a chain gives one flat conjunction
      however it is grouped. */
  lemma {:induction false} ConjAssociative(a: Formula, b: Formula, c: Formula)
    ensures Conj(Conj(a, b), c) == Conj(a, Conj(b, c))
  {
    assert (ConjunctsOf(a) + ConjunctsOf(b)) + ConjunctsOf(c) == ConjunctsOf(a) + (ConjunctsOf(b) + ConjunctsOf(c));
  }

  lemma {:induction false} DisjAssociative(a: Formula, b: Formula, c: Formula)
    ensures Disj(Disj(a, b), c) == Disj(a, Disj(b, c))
  {
    assert (DisjunctsOf(a) + DisjunctsOf(b)) + DisjunctsOf(c) == DisjunctsOf(a) + (DisjunctsOf(b) + DisjunctsOf(c));
  }

  /** Errors a query raises while it is read. */
  datatype QueryError =
    | SyntaxError(input: string)
    | UnrecognizedOption(option: Term)
    | UnknownPrefix(prefix: string, name: string)
}
