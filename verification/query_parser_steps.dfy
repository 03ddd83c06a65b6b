/**
  One-step facts about the query grammar: each lemma unfolds a single rule
  once, given what its parts answered. Longer derivations are chained from
  these so that no proof has to unfold the whole grammar at once.
 */
module QueryParserSteps {
  import opened Wrappers
  import opened Terms
  import opened Formulas
  import opened Lexer
  import opened PrefixRegistry
  import opened QueryParser

  type RT = Res<Term, QueryError>
  type RS = Res<seq<Term>, QueryError>
  type RF = Res<Formula, QueryError>

  // ---------------------------------------------------------------------
  // Lists and compounds
  // ---------------------------------------------------------------------

  lemma {:induction false} ElementsFirst(kind: ElemKind, s: string, p: nat, reg: Registry, skip: bool, v: Term, q: nat)
    requires p <= |s| && Elem(kind, s, Sk(s, p, skip), reg) == Match(v, q)
    ensures q <= |s| && Elements(kind, s, p, reg, skip) == ElementsFrom(kind, s, q, reg, skip, [v])
  {
  }

  lemma {:induction false} ElementsFromMore(kind: ElemKind, s: string, q: nat, reg: Registry, skip: bool, acc: seq<Term>, v: Term, e: nat, r: RS)
    requires q <= |s| && At(s, Sk(s, q, skip), ',')
    requires Elem(kind, s, Sk(s, Sk(s, q, skip) + 1, skip), reg) == Match(v, e)
    requires ElementsFrom(kind, s, e, reg, skip, acc + [v]) == r
    ensures ElementsFrom(kind, s, q, reg, skip, acc) == r
  {
  }

  lemma {:induction false} ElementsFromStop(kind: ElemKind, s: string, q: nat, reg: Registry, skip: bool, acc: seq<Term>)
    requires q <= |s| && !At(s, Sk(s, q, skip), ',')
    ensures ElementsFrom(kind, s, q, reg, skip, acc) == Match(acc, q)
  {
  }

  lemma {:induction false} ElementsFromNoElem(kind: ElemKind, s: string, q: nat, reg: Registry, skip: bool, acc: seq<Term>)
    requires q <= |s| && At(s, Sk(s, q, skip), ',')
    requires !Elem(kind, s, Sk(s, Sk(s, q, skip) + 1, skip), reg).Match?
    ensures ElementsFrom(kind, s, q, reg, skip, acc).Match? ==> ElementsFrom(kind, s, q, reg, skip, acc).value == acc
  {
  }

  lemma {:induction false} DelimitedMatch(kind: ElemKind, open: char, close: char, s: string, p: nat, reg: Registry, skip: bool, xs: seq<Term>, q: nat)
    requires p <= |s| && At(s, Sk(s, p, skip), open)
    requires Elements(kind, s, Sk(s, p, skip) + 1, reg, skip) == Match(xs, q)
    requires q <= |s| && At(s, Sk(s, q, skip), close)
    ensures Delimited(kind, open, close, s, p, reg, skip) == Match(xs, Sk(s, q, skip) + 1)
  {
  }

  lemma {:induction false} DelimitedNone(kind: ElemKind, open: char, close: char, s: string, p: nat, reg: Registry, skip: bool)
    requires p <= |s| && !At(s, Sk(s, p, skip), open)
    ensures Delimited(kind, open, close, s, p, reg, skip) == NoMatch
  {
  }

  lemma {:induction false} CompoundMatch(s: string, p: nat, reg: Registry, skip: bool, f: string, e: nat, xs: seq<Term>, q: nat)
    requires p <= |s| && AtomRaw(s, p, reg) == Match(f, e)
    requires Delimited(ArgumentElem, '(', ')', s, e, reg, skip) == Match(xs, q)
    ensures Compound(s, p, reg, skip) == Match(Pred(f, xs), q)
  {
  }

  lemma {:induction false} CompoundNone(s: string, p: nat, reg: Registry, skip: bool, f: string, e: nat)
    requires p <= |s| && AtomRaw(s, p, reg) == Match(f, e)
    requires !At(s, Sk(s, e, skip), '(')
    ensures Compound(s, p, reg, skip) == NoMatch
  {
    DelimitedNone(ArgumentElem, '(', ')', s, e, reg, skip);
  }

  lemma {:induction false} PredicateWithArgs(s: string, p: nat, reg: Registry, t: Term, q: nat)
    requires p <= |s| && Compound(s, Skip(s, p), reg, true) == Match(t, q)
    ensures Predicate(s, p, reg) == Match(t, q)
  {
  }

  lemma {:induction false} PredicateNullary(s: string, p: nat, reg: Registry, f: string, e: nat)
    requires p <= |s| && AtomRaw(s, Skip(s, p), reg) == Match(f, e)
    requires !At(s, Skip(s, e), '(')
    ensures Predicate(s, p, reg) == Match(Pred(f, []), e)
  {
    CompoundNone(s, Skip(s, p), reg, true, f, e);
  }

  lemma {:induction false} ArgumentOfVariable(s: string, p: nat, reg: Registry, v: Term, e: nat)
    requires p <= |s| && Compound(s, p, reg, false) == NoMatch
    requires Variable(s, p) == Match(v, e)
    ensures Argument(s, p, reg) == Match(v, e)
  {
  }

  lemma {:induction false} ArgumentOfConstant(s: string, p: nat, reg: Registry, t: Term, e: nat)
    requires p <= |s| && Compound(s, p, reg, false) == NoMatch && Variable(s, p) == NoMatch
    requires Constant(s, p, reg) == Match(t, e)
    ensures Argument(s, p, reg) == Match(t, e)
  {
  }

  // ---------------------------------------------------------------------
  // Unary formulas
  // ---------------------------------------------------------------------

  lemma {:induction false} UnaryOfModal(s: string, p: nat, reg: Registry, f: Formula, e: nat)
    requires p <= |s| && ModalFormula(s, p, reg) == Match(f, e)
    ensures Unary(s, p, reg) == Match(f, e)
  {
  }

  lemma {:induction false} UnaryOfPredicate(s: string, p: nat, reg: Registry, t: Term, e: nat)
    requires p <= |s| && !(Skip(s, p) < |s| && s[Skip(s, p)] in {'B', 'K', 'P', 'H', '~'})
    requires Predicate(s, p, reg) == Match(t, e)
    ensures Unary(s, p, reg) == Match(AtomOf(t), e)
  {
    assert ModalFormula(s, p, reg) == NoMatch;
    assert Negated(s, p, reg) == NoMatch;
  }

  lemma {:induction false} OptionsNil(s: string, p: nat, reg: Registry)
    requires p <= |s| && !At(s, Skip(s, p), '[')
    ensures OptionsOrNil(s, p, reg) == Match(None, p)
  {
    DelimitedNone(OptionElem, '[', ']', s, Skip(s, p), reg, false);
  }

  lemma {:induction false} OptionsGiven(s: string, p: nat, reg: Registry, xs: seq<Term>, q: nat)
    requires p <= |s| && Options(s, Skip(s, p), reg) == Match(xs, q)
    ensures OptionsOrNil(s, p, reg) == Match(Some(xs), q)
  {
  }

  lemma {:induction false} ModalMatch(s: string, p: nat, reg: Registry, opts: Option<seq<Term>>, q: nat, f: Formula, e: nat, op: ModalOperator)
    requires p <= |s| && Skip(s, p) < |s| && s[Skip(s, p)] in {'B', 'K', 'P', 'H'}
    requires OptionsOrNil(s, Skip(s, p) + 1, reg) == Match(opts, q)
    requires UnaryOrBrackets(s, q, reg) == Match(f, e)
    requires BuildModal(s[Skip(s, p)], opts) == Ok(op)
    ensures ModalFormula(s, p, reg) == Match(Modal(op, f), e)
  {
  }

  lemma {:induction false} ModalThrows(s: string, p: nat, reg: Registry, opts: Option<seq<Term>>, q: nat, f: Formula, e: nat, x: QueryError)
    requires p <= |s| && Skip(s, p) < |s| && s[Skip(s, p)] in {'B', 'K', 'P', 'H'}
    requires OptionsOrNil(s, Skip(s, p) + 1, reg) == Match(opts, q)
    requires UnaryOrBrackets(s, q, reg) == Match(f, e)
    requires BuildModal(s[Skip(s, p)], opts) == Err(x)
    ensures ModalFormula(s, p, reg) == Abort(x)
  {
  }

  lemma {:induction false} NegatedMatch(s: string, p: nat, reg: Registry, f: Formula, e: nat)
    requires p <= |s| && At(s, Skip(s, p), '~')
    requires UnaryOrBrackets(s, Skip(s, p) + 1, reg) == Match(f, e)
    ensures Negated(s, p, reg) == Match(Negation(f), e)
  {
  }

  lemma {:induction false} UnaryOfNegated(s: string, p: nat, reg: Registry, f: Formula, e: nat)
    requires p <= |s| && At(s, Skip(s, p), '~')
    requires Negated(s, p, reg) == Match(f, e)
    ensures Unary(s, p, reg) == Match(f, e)
  {
    assert ModalFormula(s, p, reg) == NoMatch;
  }

  lemma {:induction false} OperandUnary(s: string, p: nat, reg: Registry, f: Formula, e: nat)
    requires p <= |s| && Unary(s, p, reg) == Match(f, e)
    ensures UnaryOrBrackets(s, p, reg) == Match(f, e)
  {
  }

  lemma {:induction false} OperandBrackets(s: string, p: nat, reg: Registry, r: RF)
    requires p <= |s| && Unary(s, p, reg) == NoMatch && Brackets(s, p, reg) == r
    ensures UnaryOrBrackets(s, p, reg) == r
  {
  }

  lemma {:induction false} BracketsMatch(s: string, p: nat, reg: Registry, f: Formula, q: nat)
    requires p <= |s| && At(s, Skip(s, p), '(')
    requires FormulaRule(s, Skip(s, p) + 1, reg) == Match(f, q)
    requires q <= |s| && At(s, Skip(s, q), ')')
    ensures Brackets(s, p, reg) == Match(f, Skip(s, q) + 1)
  {
  }

  lemma {:induction false} BracketsNone(s: string, p: nat, reg: Registry)
    requires p <= |s| && !At(s, Skip(s, p), '(')
    ensures Brackets(s, p, reg) == NoMatch
  {
  }

  // ---------------------------------------------------------------------
  // Conjunctions
  // ---------------------------------------------------------------------

  lemma {:induction false} ConjunctTailMatch(s: string, c: nat, reg: Registry, a: Formula, b: Formula, e: nat)
    requires At(s, c, ',') || At(s, c, '&')
    requires Conjunct(s, c + 1, reg) == Match(b, e)
    ensures ConjunctTail(s, c, reg, a) == Match(Conj(a, b), e)
  {
  }

  lemma {:induction false} ConjunctTailBrackets(s: string, c: nat, reg: Registry, a: Formula, b: Formula, e: nat)
    requires At(s, c, ',') || At(s, c, '&')
    requires Conjunct(s, c + 1, reg) == NoMatch && Brackets(s, c + 1, reg) == Match(b, e)
    ensures ConjunctTail(s, c, reg, a) == Match(Conj(a, b), e)
  {
  }

  lemma {:induction false} ConjunctTailNone(s: string, c: nat, reg: Registry, a: Formula)
    requires c <= |s| && !At(s, c, ',') && !At(s, c, '&')
    ensures ConjunctTail(s, c, reg, a) == NoMatch
  {
  }

  lemma {:induction false} ConjunctChainStep(s: string, p: nat, reg: Registry, a: Formula, e: nat, r: RF)
    requires p <= |s| && UnaryOrBrackets(s, p, reg) == Match(a, e)
    requires ConjunctTail(s, Skip(s, e), reg, a) == r
    ensures ConjunctChain(s, p, reg) == r
  {
  }

  lemma {:induction false} ConjunctChainNone(s: string, p: nat, reg: Registry)
    requires p <= |s| && UnaryOrBrackets(s, p, reg) == NoMatch
    ensures ConjunctChain(s, p, reg) == NoMatch
  {
  }

  lemma {:induction false} ConjunctOfChain(s: string, p: nat, reg: Registry, f: Formula, e: nat)
    requires p <= |s| && ConjunctChain(s, p, reg) == Match(f, e)
    ensures Conjunct(s, p, reg) == Match(f, e)
  {
  }

  lemma {:induction false} ConjunctOfUnary(s: string, p: nat, reg: Registry, r: RF)
    requires p <= |s| && ConjunctChain(s, p, reg) == NoMatch && Unary(s, p, reg) == r
    ensures Conjunct(s, p, reg) == r
  {
  }

  // ---------------------------------------------------------------------
  // Disjunctions
  // ---------------------------------------------------------------------

  lemma {:induction false} DisjunctTailMatch(s: string, c: nat, reg: Registry, a: Formula, b: Formula, e: nat)
    requires At(s, c, ';') || At(s, c, '|')
    requires Disjunct(s, c + 1, reg) == Match(b, e)
    ensures DisjunctTail(s, c, reg, a) == Match(Disj(a, b), e)
  {
  }

  lemma {:induction false} DisjunctTailBrackets(s: string, c: nat, reg: Registry, a: Formula, b: Formula, e: nat)
    requires At(s, c, ';') || At(s, c, '|')
    requires Disjunct(s, c + 1, reg) == NoMatch && Brackets(s, c + 1, reg) == Match(b, e)
    ensures DisjunctTail(s, c, reg, a) == Match(Disj(a, b), e)
  {
  }

  lemma {:induction false} DisjunctTailNone(s: string, c: nat, reg: Registry, a: Formula)
    requires c <= |s| && !At(s, c, ';') && !At(s, c, '|')
    ensures DisjunctTail(s, c, reg, a) == NoMatch
  {
  }

  lemma {:induction false} DisjunctChainStep(s: string, p: nat, reg: Registry, a: Formula, e: nat, r: RF)
    requires p <= |s| && Conjunct(s, p, reg) == Match(a, e)
    requires DisjunctTail(s, Skip(s, e), reg, a) == r
    ensures DisjunctChain(s, p, reg) == r
  {
  }

  lemma {:induction false} DisjunctChainBrackets(s: string, p: nat, reg: Registry, a: Formula, e: nat, r: RF)
    requires p <= |s| && Conjunct(s, p, reg) == NoMatch && Brackets(s, p, reg) == Match(a, e)
    requires DisjunctTail(s, Skip(s, e), reg, a) == r
    ensures DisjunctChain(s, p, reg) == r
  {
  }

  lemma {:induction false} DisjunctOfChain(s: string, p: nat, reg: Registry, f: Formula, e: nat)
    requires p <= |s| && DisjunctChain(s, p, reg) == Match(f, e)
    ensures Disjunct(s, p, reg) == Match(f, e)
  {
  }

  lemma {:induction false} DisjunctOfConjunct(s: string, p: nat, reg: Registry, r: RF)
    requires p <= |s| && DisjunctChain(s, p, reg) == NoMatch && Conjunct(s, p, reg) == r
    ensures Disjunct(s, p, reg) == r
  {
  }

  // ---------------------------------------------------------------------
  // Implications and whole formulas
  // ---------------------------------------------------------------------

  lemma {:induction false} ImpliesTailMatch(s: string, c: nat, reg: Registry, a: Formula, b: Formula, e: nat)
    requires At(s, c, '-') && At(s, c + 1, '>')
    requires Implies(s, c + 2, reg) == Match(b, e)
    ensures ImpliesTail(s, c, reg, a) == Match(Implication(a, b), e)
  {
  }

  lemma {:induction false} ImpliesTailBrackets(s: string, c: nat, reg: Registry, a: Formula, b: Formula, e: nat)
    requires At(s, c, '-') && At(s, c + 1, '>')
    requires Implies(s, c + 2, reg) == NoMatch && Brackets(s, c + 2, reg) == Match(b, e)
    ensures ImpliesTail(s, c, reg, a) == Match(Implication(a, b), e)
  {
  }

  lemma {:induction false} ImpliesTailNone(s: string, c: nat, reg: Registry, a: Formula)
    requires c <= |s| && !(At(s, c, '-') && At(s, c + 1, '>'))
    ensures ImpliesTail(s, c, reg, a) == NoMatch
  {
  }

  lemma {:induction false} ImpliesChainStep(s: string, p: nat, reg: Registry, a: Formula, e: nat, r: RF)
    requires p <= |s| && Disjunct(s, p, reg) == Match(a, e)
    requires ImpliesTail(s, Skip(s, e), reg, a) == r
    ensures ImpliesChain(s, p, reg) == r
  {
  }

  lemma {:induction false} ImpliesChainBrackets(s: string, p: nat, reg: Registry, a: Formula, e: nat, r: RF)
    requires p <= |s| && Disjunct(s, p, reg) == NoMatch && Brackets(s, p, reg) == Match(a, e)
    requires ImpliesTail(s, Skip(s, e), reg, a) == r
    ensures ImpliesChain(s, p, reg) == r
  {
  }

  lemma {:induction false} ImpliesOfChain(s: string, p: nat, reg: Registry, f: Formula, e: nat)
    requires p <= |s| && ImpliesChain(s, p, reg) == Match(f, e)
    ensures Implies(s, p, reg) == Match(f, e)
  {
  }

  lemma {:induction false} ImpliesOfDisjunct(s: string, p: nat, reg: Registry, r: RF)
    requires p <= |s| && ImpliesChain(s, p, reg) == NoMatch && Disjunct(s, p, reg) == r
    ensures Implies(s, p, reg) == r
  {
  }

  lemma {:induction false} FormulaOfImplies(s: string, p: nat, reg: Registry, f: Formula, e: nat)
    requires p <= |s| && Implies(s, p, reg) == Match(f, e)
    ensures FormulaRule(s, p, reg) == Match(f, e)
  {
  }

  lemma {:induction false} FormulaOfBrackets(s: string, p: nat, reg: Registry, r: RF)
    requires p <= |s| && Implies(s, p, reg) == NoMatch && Brackets(s, p, reg) == r
    ensures FormulaRule(s, p, reg) == r
  {
  }
}
