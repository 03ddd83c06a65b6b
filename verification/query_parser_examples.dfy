/**
  The outcome of the query parser on queries its authors wrote down as
  examples: precedence and associativity of the connectives, nested modal
  operators, rejected option lists and inputs that an entry point refuses
  because its rule does not cover them.
 */
module QueryParserExamples {
  import opened Wrappers
  import opened Terms
  import opened Formulas
  import opened Lexer
  import opened PrefixRegistry
  import opened QueryParser
  import opened QueryParserSteps
  import opened QueryParserLemmas
  import M = ModalOptions

  function Name(n: string): Formula {
    Atom(n, [])
  }

  /** A one-letter name standing alone reads as a nullary atom. */
  lemma {:induction false} Letter(s: string, p: nat, c: char, reg: Registry)
    requires At(s, p, c) && IsLower(c)
    requires p + 1 == |s| || !(IsWordChar(s[p + 1]) || IsSpace(s[p + 1]) || s[p + 1] in {':', '('})
    ensures Unary(s, p, reg) == Match(Name([c]), p + 1)
  {
    assert WordEnd(s, p + 1) == p + 1;
    assert Skip(s, p + 1) == p + 1;
    assert s[p..p + 1] == [c];
    UnaryNullary(s, p, reg);
  }

  /** Two one-letter names joined by a comma at the start of the input
      read as their conjunction. */
  lemma {:induction false} LetterPair(s: string, reg: Registry)
    requires 3 < |s| && IsLower(s[0]) && s[1] == ',' && IsLower(s[2])
    requires !(IsWordChar(s[3]) || IsSpace(s[3]) || s[3] in {':', '(', ',', '&'})
    ensures Conjunct(s, 0, reg) == Match(Conjunction([Name([s[0]]), Name([s[2]])]), 3)
  {
    Letter(s, 0, s[0], reg);
    Letter(s, 2, s[2], reg);
    assert Skip(s, 1) == 1 && Skip(s, 3) == 3;
    ConjunctSingle(s, 2, reg, Name([s[2]]), 3);
    ConjunctLink(s, 0, reg, Name([s[0]]), 1, Name([s[2]]), 3);
    assert Conj(Name([s[0]]), Name([s[2]])) == Conjunction([Name([s[0]]), Name([s[2]])]);
  }

  /** A one-letter name that no operator follows reads as a whole formula. */
  lemma {:induction false} LetterAlone(s: string, p: nat, reg: Registry)
    requires p + 1 == |s| && IsLower(s[p])
    ensures Disjunct(s, p, reg) == Match(Name([s[p]]), p + 1)
    ensures FormulaRule(s, p, reg) == Match(Name([s[p]]), p + 1)
  {
    Letter(s, p, s[p], reg);
    ConjunctSingle(s, p, reg, Name([s[p]]), p + 1);
    DisjunctSingle(s, p, reg, Name([s[p]]), p + 1);
    FormulaSingle(s, p, reg, Name([s[p]]), p + 1);
  }

  /** `a,b;c`: `,` binds tighter than `;`. */
  lemma {:induction false} ConjunctionFirst(s: string, reg: Registry)
    requires |s| == 5 && IsLower(s[0]) && s[1] == ',' && IsLower(s[2]) && s[3] == ';' && IsLower(s[4])
    ensures Parse(s, reg) == Ok(Disjunction([Conjunction([Name([s[0]]), Name([s[2]])]), Name([s[4]])]))
  {
    var ab := Conjunction([Name([s[0]]), Name([s[2]])]);
    LetterPair(s, reg);
    LetterAlone(s, 4, reg);
    assert Skip(s, 3) == 3;
    DisjunctLink(s, 0, reg, ab, 3, Name([s[4]]), 5);
    assert Disj(ab, Name([s[4]])) == Disjunction([ab, Name([s[4]])]);
    FormulaSingle(s, 0, reg, Disjunction([ab, Name([s[4]])]), 5);
  }

  /** `a;b,c`: the conjunction is the second part of the disjunction. */
  lemma {:induction false} ConjunctionSecond(s: string, reg: Registry)
    requires |s| == 5 && IsLower(s[0]) && s[1] == ';' && IsLower(s[2]) && s[3] == ',' && IsLower(s[4])
    ensures Parse(s, reg) == Ok(Disjunction([Name([s[0]]), Conjunction([Name([s[2]]), Name([s[4]])])]))
  {
    var bc := Conjunction([Name([s[2]]), Name([s[4]])]);
    Letter(s, 0, s[0], reg);
    Letter(s, 2, s[2], reg);
    Letter(s, 4, s[4], reg);
    assert Skip(s, 1) == 1 && Skip(s, 3) == 3 && Skip(s, 5) == 5;
    ConjunctSingle(s, 0, reg, Name([s[0]]), 1);
    ConjunctSingle(s, 4, reg, Name([s[4]]), 5);
    ConjunctLink(s, 2, reg, Name([s[2]]), 3, Name([s[4]]), 5);
    assert Conj(Name([s[2]]), Name([s[4]])) == bc;
    DisjunctSingle(s, 2, reg, bc, 5);
    DisjunctLink(s, 0, reg, Name([s[0]]), 1, bc, 5);
    assert Disj(Name([s[0]]), bc) == Disjunction([Name([s[0]]), bc]);
    FormulaSingle(s, 0, reg, Disjunction([Name([s[0]]), bc]), 5);
  }

  /** `a,b->c->d`: `->` binds loosest and groups to the right. */
  lemma {:induction false} ImplicationRight(s: string, reg: Registry)
    requires |s| == 9 && IsLower(s[0]) && s[1] == ',' && IsLower(s[2]) && s[3] == '-' && s[4] == '>'
    requires IsLower(s[5]) && s[6] == '-' && s[7] == '>' && IsLower(s[8])
    ensures Parse(s, reg)
            == Ok(Implication(Conjunction([Name([s[0]]), Name([s[2]])]), Implication(Name([s[5]]), Name([s[8]]))))
  {
    var ab := Conjunction([Name([s[0]]), Name([s[2]])]);
    LetterPair(s, reg);
    assert Skip(s, 3) == 3 && Skip(s, 6) == 6;
    DisjunctSingle(s, 0, reg, ab, 3);
    LetterAlone(s, 8, reg);
    Letter(s, 5, s[5], reg);
    ConjunctSingle(s, 5, reg, Name([s[5]]), 6);
    DisjunctSingle(s, 5, reg, Name([s[5]]), 6);
    ImpliesLink(s, 5, reg, Name([s[5]]), 6, Name([s[8]]), 9);
    ImpliesLink(s, 0, reg, ab, 3, Implication(Name([s[5]]), Name([s[8]])), 9);
  }

  /** `a,b->c;d`: the disjunction is the conclusion. */
  lemma {:induction false} ImplicationOfDisjunction(s: string, reg: Registry)
    requires |s| == 8 && IsLower(s[0]) && s[1] == ',' && IsLower(s[2]) && s[3] == '-' && s[4] == '>'
    requires IsLower(s[5]) && s[6] == ';' && IsLower(s[7])
    ensures Parse(s, reg)
            == Ok(Implication(Conjunction([Name([s[0]]), Name([s[2]])]), Disjunction([Name([s[5]]), Name([s[7]])])))
  {
    var ab := Conjunction([Name([s[0]]), Name([s[2]])]);
    var cd := Disjunction([Name([s[5]]), Name([s[7]])]);
    LetterPair(s, reg);
    assert Skip(s, 3) == 3 && Skip(s, 6) == 6;
    DisjunctSingle(s, 0, reg, ab, 3);
    LetterAlone(s, 7, reg);
    Letter(s, 5, s[5], reg);
    ConjunctSingle(s, 5, reg, Name([s[5]]), 6);
    DisjunctLink(s, 5, reg, Name([s[5]]), 6, Name([s[7]]), 8);
    assert Disj(Name([s[5]]), Name([s[7]])) == cd;
    FormulaSingle(s, 5, reg, cd, 8);
    ImpliesLink(s, 0, reg, ab, 3, cd, 8);
  }

  /** `p,q;r` is a disjunction whose first part is a conjunction. */
  lemma {:induction false} PrecedenceConjunctionFirst(reg: Registry)
    ensures Parse("p,q;r", reg) == Ok(Disjunction([Conjunction([Name("p"), Name("q")]), Name("r")]))
  {
    ConjunctionFirst("p,q;r", reg);
  }

  /** `p;q,r` is a disjunction whose second part is a conjunction. */
  lemma {:induction false} PrecedenceConjunctionSecond(reg: Registry)
    ensures Parse("p;q,r", reg) == Ok(Disjunction([Name("p"), Conjunction([Name("q"), Name("r")])]))
  {
    ConjunctionSecond("p;q,r", reg);
  }

  /** `p,q->r->p` is an implication whose conclusion is an implication. */
  lemma {:induction false} PrecedenceImplicationRight(reg: Registry)
    ensures Parse("p,q->r->p", reg)
            == Ok(Implication(Conjunction([Name("p"), Name("q")]), Implication(Name("r"), Name("p"))))
  {
    ImplicationRight("p,q->r->p", reg);
  }

  /** `p,q->r;p` is an implication whose conclusion is a disjunction. */
  lemma {:induction false} PrecedenceImplicationLast(reg: Registry)
    ensures Parse("p,q->r;p", reg)
            == Ok(Implication(Conjunction([Name("p"), Name("q")]), Disjunction([Name("r"), Name("p")])))
  {
    ImplicationOfDisjunction("p,q->r;p", reg);
  }

  /** Modal operators nest: `BBq` is a belief about a belief. */
  lemma {:induction false} NestedBelief(reg: Registry)
    ensures Parse("BBq", reg) == Ok(Modal(Belief(None, None), Modal(Belief(None, None), Name("q"))))
  {
    var s := "BBq";
    var b := Belief(None, None);
    Letter(s, 2, 'q', reg);
    OperandUnary(s, 2, reg, Name("q"), 3);
    OptionsNil(s, 2, reg);
    ModalMatch(s, 1, reg, None, 2, Name("q"), 3, b);
    UnaryOfModal(s, 1, reg, Modal(b, Name("q")), 3);
    OperandUnary(s, 1, reg, Modal(b, Name("q")), 3);
    OptionsNil(s, 1, reg);
    ModalMatch(s, 0, reg, None, 1, Modal(b, Name("q")), 3, b);
    UnaryOfModal(s, 0, reg, Modal(b, Modal(b, Name("q"))), 3);
    ConjunctSingle(s, 0, reg, Modal(b, Modal(b, Name("q"))), 3);
    DisjunctSingle(s, 0, reg, Modal(b, Modal(b, Name("q"))), 3);
    FormulaSingle(s, 0, reg, Modal(b, Modal(b, Name("q"))), 3);
  }

  /** `d.d` as an option: neither a key nor an atom, a number of tenths. */
  lemma {:induction false} TenthsOption(s: string, p: nat, reg: Registry)
    requires p + 3 < |s| && IsDigit(s[p]) && s[p + 1] == '.' && IsDigit(s[p + 2])
    requires !IsDigit(s[p + 3]) && s[p + 3] != 'e' && s[p + 3] != 'E'
    ensures Elem(OptionElem, s, p, reg)
            == Match(Dbl(DigitValue(s[p]) as real + DigitValue(s[p + 2]) as real / 10.0), p + 3)
  {
    assert AtomRaw(s, p, reg) == NoMatch;
    assert DigitsEnd(s, p + 1) == p + 1 && DigitsEnd(s, p + 3) == p + 3;
    assert DigitsEnd(s, p) == p + 1 && DigitsEnd(s, p + 2) == p + 3;
    assert DigitsValue(s, p, p + 1) == DigitValue(s[p]);
    assert DigitsValue(s, p + 2, p + 3) == DigitValue(s[p + 2]);
    assert Pow10(1) == 10;
    assert Exponent(s, p + 3) == (0, p + 3);
    var x := DigitValue(s[p]) as real + DigitValue(s[p + 2]) as real / 10.0;
    assert Number(s, p) == Match(x, p + 3);
    assert QueryParser.Atom(s, p, reg) == NoMatch && StringLit(s, p) == NoMatch;
    assert Constant(s, p, reg) == Match(Dbl(x), p + 3);
    assert KeyValue(s, p, reg) == NoMatch;
  }

  /** `f(x)` closing the input, after whitespace from `q` on, is a
      predicate over one atom. */
  lemma {:induction false} LetterPredicate(s: string, q: nat, reg: Registry)
    requires q <= |s| && Skip(s, q) + 4 == |s|
    requires IsLower(s[|s| - 4]) && s[|s| - 3] == '(' && IsLower(s[|s| - 2]) && s[|s| - 1] == ')'
    ensures UnaryOrBrackets(s, q, reg) == Match(Atom([s[|s| - 4]], [Str([s[|s| - 2]])]), |s|)
  {
    var p := |s| - 4;
    assert WordEnd(s, p + 1) == p + 1 && WordEnd(s, p + 3) == p + 3;
    assert s[p..p + 1] == [s[p]];
    AtomRawWord(s, p, reg);
    assert ArgChain(s, p + 2) && ChainEnd(s, p + 2) == |s| - 1;
    assert s[p + 2..p + 3] == [s[p + 2]];
    assert ChainArgs(s, p + 2) == [Str([s[p + 2]])];
    ChainDelimited(s, p + 1, reg);
    CompoundMatch(s, p, reg, true, [s[p]], p + 1, [Str([s[p + 2]])], |s|);
    PredicateWithArgs(s, q, reg, Pred([s[p]], [Str([s[p + 2]])]), |s|);
    UnaryOfPredicate(s, q, reg, Pred([s[p]], [Str([s[p + 2]])]), |s|);
    OperandUnary(s, q, reg, Atom([s[p]], [Str([s[p + 2]])]), |s|);
  }

  /** Belief takes one confidence: a second bare number is unrecognised. */
  lemma {:induction false} SecondConfidence(x: real)
    ensures BuildModal('B', Some([Dbl(x), Dbl(x)])) == Err(UnrecognizedOption(Dbl(x)))
  {
    var opts := [Dbl(x), Dbl(x)];
    var st := M.BeliefParams(None, Some(x));
    assert M.ReadB(opts, 1, st) == Err(UnrecognizedOption(Dbl(x)));
    assert M.ReadB(opts, 0, M.BeliefParams(None, None)) == M.ReadB(opts, 1, st);
  }

  /** `[v,v]` from position 1 on is an option list of two equal numbers. */
  lemma {:induction false} TwoTenths(s: string, reg: Registry)
    requires 10 < |s| && s[1] == '[' && s[5] == ',' && s[9] == ']'
    requires IsDigit(s[2]) && s[3] == '.' && IsDigit(s[4]) && s[6] == s[2] && s[7] == '.' && s[8] == s[4]
    ensures var v := Dbl(DigitValue(s[2]) as real + DigitValue(s[4]) as real / 10.0);
            OptionsOrNil(s, 1, reg) == Match(Some([v, v]), 10)
  {
    var v := Dbl(DigitValue(s[2]) as real + DigitValue(s[4]) as real / 10.0);
    TenthsOption(s, 2, reg);
    TenthsOption(s, 6, reg);
    assert Elem(OptionElem, s, 6, reg) == Match(v, 9);
    assert Sk(s, 5, false) == 5 && Sk(s, 6, false) == 6;
    ElementsFromStop(OptionElem, s, 9, reg, false, [v, v]);
    assert [v] + [v] == [v, v];
    ElementsFromMore(OptionElem, s, 5, reg, false, [v], v, 9, Match([v, v], 9));
    ElementsFirst(OptionElem, s, 2, reg, false, v, 5);
    DelimitedMatch(OptionElem, '[', ']', s, 1, reg, false, [v, v], 9);
    assert Skip(s, 1) == 1;
    OptionsGiven(s, 1, reg, [v, v], 10);
  }

  /** `B[v,v] f(x)`: the second confidence makes the whole parse fail
      with that option as the error. */
  lemma {:induction false} RepeatedConfidence(s: string, reg: Registry)
    requires |s| == 15 && s[0] == 'B' && s[1] == '[' && s[5] == ',' && s[9] == ']' && s[10] == ' '
    requires IsDigit(s[2]) && s[3] == '.' && IsDigit(s[4]) && s[6] == s[2] && s[7] == '.' && s[8] == s[4]
    requires IsLower(s[11]) && s[12] == '(' && IsLower(s[13]) && s[14] == ')'
    ensures Parse(s, reg) == Err(UnrecognizedOption(Dbl(DigitValue(s[2]) as real + DigitValue(s[4]) as real / 10.0)))
  {
    var v := Dbl(DigitValue(s[2]) as real + DigitValue(s[4]) as real / 10.0);
    TwoTenths(s, reg);
    assert Skip(s, 10) == 11;
    LetterPredicate(s, 10, reg);
    SecondConfidence(v.dbl);
    assert Skip(s, 0) == 0;
    ModalThrows(s, 0, reg, Some([v, v]), 10, Atom([s[11]], [Str([s[13]])]), 15, UnrecognizedOption(v));
    AbortPropagates(s, 0, reg, UnrecognizedOption(v));
  }

  /** `B[0.8,0.8] p(x)` is rejected: belief takes one confidence only. */
  lemma {:induction false} RepeatedConfidenceRejected(reg: Registry)
    ensures Parse("B[0.8,0.8] p(x)", reg) == Err(UnrecognizedOption(Dbl(0.8)))
  {
    var s := "B[0.8,0.8] p(x)";
    assert DigitValue(s[2]) == 0 && DigitValue(s[4]) == 8;
    RepeatedConfidence(s, reg);
  }

  /** `ns:name` expands through the registry: `owl:foo` is the IRI in the
      OWL namespace. */
  lemma {:induction false} PrefixedAtom()
    ensures ParseRawAtom("owl:foo", Default()) == Ok("http://www.w3.org/2002/07/owl#foo")
  {
    CreateIRIExample();
    PrefixedAtomWith(Default(), "http://www.w3.org/2002/07/owl#foo");
  }

  lemma {:induction false} PrefixedAtomWith(reg: Registry, iri: string)
    requires CreateIRI(reg, "owl", "foo") == Some(iri)
    ensures ParseRawAtom("owl:foo", reg) == Ok(iri)
  {
    assert WordEnd("owl:foo", 1) == 3 && WordEnd("owl:foo", 5) == 7;
    assert "owl:foo"[0..3] == "owl" && "owl:foo"[4..7] == "foo";
  }

  /** An unregistered prefix is an error that names it. */
  lemma {:induction false} UnknownPrefixAtom()
    ensures ParseRawAtom("foo:bar", Default()) == Err(UnknownPrefix("foo", "bar"))
  {
    CreateIRIUnknown();
    UnknownPrefixAtomWith(Default());
  }

  lemma {:induction false} UnknownPrefixAtomWith(reg: Registry)
    requires CreateIRI(reg, "foo", "bar") == None
    ensures ParseRawAtom("foo:bar", reg) == Err(UnknownPrefix("foo", "bar"))
  {
    assert WordEnd("foo:bar", 1) == 3 && WordEnd("foo:bar", 5) == 7;
    assert "foo:bar"[0..3] == "foo" && "foo:bar"[4..7] == "bar";
  }

  /** A predicate over a variable and an atom reads with arity two. */
  lemma {:induction false} PredicateOverVariableAndAtom(reg: Registry)
    ensures ParsePredicate("p(X,a)", reg) == Ok(Pred("p", [Var("X"), Str("a")]))
  {
    var args := [Var("X"), Str("a")];
    assert ShowPredicate("p", args) == "p(X,a)";
    ParsePredicateRoundTrip("p", args, reg);
  }

  /** Entry points refuse inputs their rule reads only in part. */
  lemma {:induction false} PartialInputsRejected(reg: Registry)
    ensures ParseConstant("p(x)", reg) == Err(SyntaxError("p(x)"))
    ensures ParseConstant("p,q", reg) == Err(SyntaxError("p,q"))
    ensures ParsePredicate("p,q", reg) == Err(SyntaxError("p,q"))
  {
    assert WordEnd("p(x)", 1) == 1;
    assert WordEnd("p,q", 1) == 1;
    assert Skip("p,q", 0) == 0;
    AtomRawWord("p,q", 0, reg);
    assert "p,q"[0..1] == "p";
    PredicateNullary("p,q", 0, reg, "p", 1);
  }

  /** Entry points refuse inputs their rule does not read at all: a
      variable is no constant, and neither a variable nor a number is a
      predicate. */
  lemma {:induction false} WrongKindRejected(reg: Registry)
    ensures ParseConstant("X1", reg) == Err(SyntaxError("X1"))
    ensures ParsePredicate("X1", reg) == Err(SyntaxError("X1"))
    ensures ParsePredicate("2", reg) == Err(SyntaxError("2"))
  {
  }
}
