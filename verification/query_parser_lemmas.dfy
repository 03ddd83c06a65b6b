/**
  Properties of the query grammar: how words, predicates and operator
  chains are read, the precedence of the connectives, and the outcome of
  the parser on the queries its authors wrote down as examples.
 */
module QueryParserLemmas {
  import opened Wrappers
  import opened Terms
  import opened Formulas
  import opened Lexer
  import opened PrefixRegistry
  import opened QueryParser
  import opened QueryParserSteps

  // ---------------------------------------------------------------------
  // Words
  // ---------------------------------------------------------------------

  /** A lowercase word not followed by `:` is a raw atom, whatever the
      registry holds. */
  lemma {:induction false} AtomRawWord(s: string, p: nat, reg: Registry)
    requires p < |s| && IsLower(s[p]) && !At(s, WordEnd(s, p + 1), ':')
    ensures AtomRaw(s, p, reg) == Match(s[p..WordEnd(s, p + 1)], WordEnd(s, p + 1))
  {
  }

  /** An uppercase word not followed by `:` is a variable argument. */
  lemma {:induction false} ArgumentVariable(s: string, p: nat, reg: Registry)
    requires p < |s| && IsUpper(s[p]) && !At(s, WordEnd(s, p + 1), ':')
    ensures Argument(s, p, reg) == Match(Var(s[p..WordEnd(s, p + 1)]), WordEnd(s, p + 1))
  {
  }

  /** A word: a first character of the given class, then word characters
      up to its end. */
  predicate IsWord(w: string, first: Initial) {
    |w| > 0 && Starts(w[0], first) && WordEnd(w, 1) == |w|
  }

  /** A word written at `p` and not followed by a word character ends
      where it was written. */
  lemma {:induction false} WordEndAt(s: string, p: nat, w: string, k: nat)
    requires p + |w| <= |s| && s[p..p + |w|] == w
    requires 0 < k <= |w| && WordEnd(w, k) == |w|
    requires p + |w| == |s| || !IsWordChar(s[p + |w|])
    ensures WordEnd(s, p + k) == p + |w|
    decreases |w| - k
  {
    if k < |w| {
      assert s[p + k] == w[k];
      WordEndAt(s, p, w, k + 1);
    }
  }

  // ---------------------------------------------------------------------
  // Operator chains
  // ---------------------------------------------------------------------

  /** A nullary predicate is a unary formula: a lowercase word followed by
      neither `:` nor, after whitespace, `(`. */
  lemma {:induction false} UnaryNullary(s: string, p: nat, reg: Registry)
    requires p < |s| && IsLower(s[p])
    requires !At(s, WordEnd(s, p + 1), ':') && !At(s, Skip(s, WordEnd(s, p + 1)), '(')
    ensures Unary(s, p, reg) == Match(Atom(s[p..WordEnd(s, p + 1)], []), WordEnd(s, p + 1))
  {
    var e := WordEnd(s, p + 1);
    assert Skip(s, p) == p;
    AtomRawWord(s, p, reg);
    PredicateNullary(s, p, reg, s[p..e], e);
    UnaryOfPredicate(s, p, reg, Pred(s[p..e], []), e);
  }

  /** A unary formula with no conjunction operator after it is a whole
      conjunction-level formula. */
  lemma {:induction false} ConjunctSingle(s: string, p: nat, reg: Registry, a: Formula, e: nat)
    requires p <= |s| && Unary(s, p, reg) == Match(a, e)
    requires !At(s, Skip(s, e), ',') && !At(s, Skip(s, e), '&')
    ensures Conjunct(s, p, reg) == Match(a, e)
  {
    OperandUnary(s, p, reg, a, e);
    ConjunctTailNone(s, Skip(s, e), reg, a);
    ConjunctChainStep(s, p, reg, a, e, NoMatch);
    ConjunctOfUnary(s, p, reg, Match(a, e));
  }

  /** `a , rest` is the conjunction of `a` with the parts of `rest`. */
  lemma {:induction false} ConjunctLink(s: string, p: nat, reg: Registry, a: Formula, e: nat, b: Formula, e2: nat)
    requires p <= |s| && Unary(s, p, reg) == Match(a, e)
    requires At(s, Skip(s, e), ',') || At(s, Skip(s, e), '&')
    requires Conjunct(s, Skip(s, e) + 1, reg) == Match(b, e2)
    ensures Conjunct(s, p, reg) == Match(Conj(a, b), e2)
  {
    OperandUnary(s, p, reg, a, e);
    ConjunctTailMatch(s, Skip(s, e), reg, a, b, e2);
    ConjunctChainStep(s, p, reg, a, e, Match(Conj(a, b), e2));
    ConjunctOfChain(s, p, reg, Conj(a, b), e2);
  }

  /** A conjunction-level formula with no disjunction operator after it is
      a whole disjunction-level formula. */
  lemma {:induction false} DisjunctSingle(s: string, p: nat, reg: Registry, a: Formula, e: nat)
    requires p <= |s| && Conjunct(s, p, reg) == Match(a, e)
    requires !At(s, Skip(s, e), ';') && !At(s, Skip(s, e), '|')
    ensures Disjunct(s, p, reg) == Match(a, e)
  {
    DisjunctTailNone(s, Skip(s, e), reg, a);
    DisjunctChainStep(s, p, reg, a, e, NoMatch);
    DisjunctOfConjunct(s, p, reg, Match(a, e));
  }

  /** `a ; rest` is the disjunction of `a` with the parts of `rest`. */
  lemma {:induction false} DisjunctLink(s: string, p: nat, reg: Registry, a: Formula, e: nat, b: Formula, e2: nat)
    requires p <= |s| && Conjunct(s, p, reg) == Match(a, e)
    requires At(s, Skip(s, e), ';') || At(s, Skip(s, e), '|')
    requires Disjunct(s, Skip(s, e) + 1, reg) == Match(b, e2)
    ensures Disjunct(s, p, reg) == Match(Disj(a, b), e2)
  {
    DisjunctTailMatch(s, Skip(s, e), reg, a, b, e2);
    DisjunctChainStep(s, p, reg, a, e, Match(Disj(a, b), e2));
    DisjunctOfChain(s, p, reg, Disj(a, b), e2);
  }

  /** A disjunction-level formula with no `->` after it is a whole
      formula. */
  lemma {:induction false} FormulaSingle(s: string, p: nat, reg: Registry, a: Formula, e: nat)
    requires p <= |s| && Disjunct(s, p, reg) == Match(a, e)
    requires !(At(s, Skip(s, e), '-') && At(s, Skip(s, e) + 1, '>'))
    ensures Implies(s, p, reg) == Match(a, e)
    ensures FormulaRule(s, p, reg) == Match(a, e)
  {
    ImpliesTailNone(s, Skip(s, e), reg, a);
    ImpliesChainStep(s, p, reg, a, e, NoMatch);
    ImpliesOfDisjunct(s, p, reg, Match(a, e));
    FormulaOfImplies(s, p, reg, a, e);
  }

  /** `a -> rest` is the implication from `a` to `rest`. */
  lemma {:induction false} ImpliesLink(s: string, p: nat, reg: Registry, a: Formula, e: nat, b: Formula, e2: nat)
    requires p <= |s| && Disjunct(s, p, reg) == Match(a, e)
    requires At(s, Skip(s, e), '-') && At(s, Skip(s, e) + 1, '>')
    requires Implies(s, Skip(s, e) + 2, reg) == Match(b, e2)
    ensures Implies(s, p, reg) == Match(Implication(a, b), e2)
    ensures FormulaRule(s, p, reg) == Match(Implication(a, b), e2)
  {
    ImpliesTailMatch(s, Skip(s, e), reg, a, b, e2);
    ImpliesChainStep(s, p, reg, a, e, Match(Implication(a, b), e2));
    ImpliesOfChain(s, p, reg, Implication(a, b), e2);
    FormulaOfImplies(s, p, reg, Implication(a, b), e2);
  }

  /** An error thrown while the first unary formula is read ends the
      whole parse with that error. */
  lemma {:induction false} AbortPropagates(s: string, p: nat, reg: Registry, x: QueryError)
    requires p <= |s| && Unary(s, p, reg) == Abort(x)
    ensures FormulaRule(s, p, reg) == Abort(x)
  {
    assert UnaryOrBrackets(s, p, reg) == Abort(x);
    assert ConjunctChain(s, p, reg) == Abort(x);
    assert Conjunct(s, p, reg) == Abort(x);
    assert DisjunctChain(s, p, reg) == Abort(x);
    assert Disjunct(s, p, reg) == Abort(x);
    assert ImpliesChain(s, p, reg) == Abort(x);
    assert Implies(s, p, reg) == Abort(x);
  }

  // ---------------------------------------------------------------------
  // Chains of names, by position
  // ---------------------------------------------------------------------

  /** From `p` to the end of the input: lowercase names separated by
      commas, each running as far as its word characters go. */
  predicate NameChain(s: string, p: nat)
    decreases |s| - p
  {
    p < |s| && IsLower(s[p]) &&
    var e := WordEnd(s, p + 1);
    e == |s| || (s[e] == ',' && NameChain(s, e + 1))
  }

  /** The formula a chain of names denotes: its atoms conjoined from the
      right. */
  function ChainFormula(s: string, p: nat): (r: Formula)
    requires NameChain(s, p)
    decreases |s| - p
  {
    var e := WordEnd(s, p + 1);
    if e == |s| then Atom(s[p..e], []) else Conj(Atom(s[p..e], []), ChainFormula(s, e + 1))
  }

  /** The last name of a chain. */
  lemma {:induction false} ConjunctLastName(s: string, p: nat, reg: Registry)
    requires p < |s| && IsLower(s[p]) && WordEnd(s, p + 1) == |s|
    ensures Conjunct(s, p, reg) == Match(Atom(s[p..|s|], []), |s|)
  {
    UnaryNullary(s, p, reg);
    ConjunctSingle(s, p, reg, Atom(s[p..|s|], []), |s|);
  }

  /** A name, a comma, and a conjunction after it. */
  lemma {:induction false} ConjunctNameLink(s: string, p: nat, reg: Registry, b: Formula)
    requires p < |s| && IsLower(s[p]) && WordEnd(s, p + 1) < |s| && s[WordEnd(s, p + 1)] == ','
    requires Conjunct(s, WordEnd(s, p + 1) + 1, reg) == Match(b, |s|)
    ensures Conjunct(s, p, reg) == Match(Conj(Atom(s[p..WordEnd(s, p + 1)], []), b), |s|)
  {
    var e := WordEnd(s, p + 1);
    assert Skip(s, e) == e;
    UnaryNullary(s, p, reg);
    ConjunctLink(s, p, reg, Atom(s[p..e], []), e, b, |s|);
  }

  /** A chain of names reads, at conjunction level, as the formula it
      denotes and consumes the whole input. */
  lemma {:induction false} ConjunctOfNameChain(s: string, p: nat, reg: Registry)
    requires NameChain(s, p)
    ensures Conjunct(s, p, reg) == Match(ChainFormula(s, p), |s|)
    decreases |s| - p
  {
    var e := WordEnd(s, p + 1);
    if e == |s| {
      ConjunctLastName(s, p, reg);
    } else {
      ConjunctOfNameChain(s, e + 1, reg);
      ConjunctNameLink(s, p, reg, ChainFormula(s, e + 1));
    }
  }

  // ---------------------------------------------------------------------
  // Conjunctions of names, as text
  // ---------------------------------------------------------------------

  /** Words joined by commas. */
  function Commas(ws: seq<string>): (r: string)
    requires |ws| > 0
    ensures |r| >= |ws[0]|
    ensures r[..|ws[0]|] == ws[0]
  {
    if |ws| == 1 then ws[0] else ws[0] + "," + Commas(ws[1..])
  }

  /** The nullary atoms named by `ws`, in order. */
  function Atoms(ws: seq<string>): (r: seq<Formula>)
    ensures |r| == |ws|
    ensures forall i :: 0 <= i < |ws| ==> r[i] == Atom(ws[i], [])
  {
    if ws == [] then [] else [Atom(ws[0], [])] + Atoms(ws[1..])
  }

  /** What a comma chain of names reads as: one atom, or the flat
      conjunction of all of them. */
  function Conjoined(ws: seq<string>): (r: Formula)
    requires |ws| > 0
  {
    if |ws| == 1 then Atom(ws[0], []) else Conjunction(Atoms(ws))
  }

  /** `w` is written in `s` from `x` on. */
  predicate TextAt(s: string, x: nat, w: string) {
    x + |w| <= |s| && s[x..x + |w|] == w
  }

  /** How `w,rest` lies in the input between `p` and `q`. */
  lemma {:induction false} CommaSplit(s: string, p: nat, w: string, rest: string)
    requires TextAt(s, p, w + "," + rest)
    ensures TextAt(s, p, w) && At(s, p + |w|, ',') && TextAt(s, p + |w| + 1, rest)
  {
    var q := p + |w| + 1 + |rest|;
    var t := s[p..q];
    assert t == w + "," + rest;
    assert s[p..p + |w|] == t[..|w|] == w;
    assert s[p + |w|] == t[|w|] == ',';
    assert s[p + |w| + 1..q] == t[|w| + 1..] == rest;
  }

  /** Conjoining an atom to the reading of the rest of a chain. */
  lemma {:induction false} ConjoinedCons(ws: seq<string>)
    requires |ws| > 1
    ensures Conj(Atom(ws[0], []), Conjoined(ws[1..])) == Conjoined(ws)
  {
    assert Atoms(ws) == [Atom(ws[0], [])] + Atoms(ws[1..]);
  }

  /** The last name of a chain, as text. */
  lemma {:induction false} CommasLast(s: string, p: nat, ws: seq<string>)
    requires |ws| == 1 && TextAt(s, p, Commas(ws)) && p + |Commas(ws)| == |s|
    ensures TextAt(s, p, ws[0]) && p + |ws[0]| == |s|
  {
  }

  /** A name and a comma ahead of the rest of a chain, as text. */
  lemma {:induction false} CommasNext(s: string, p: nat, ws: seq<string>)
    requires |ws| > 1 && TextAt(s, p, Commas(ws))
    ensures TextAt(s, p, ws[0]) && At(s, p + |ws[0]|, ',')
    ensures TextAt(s, p + |ws[0]| + 1, Commas(ws[1..]))
    ensures p + |ws[0]| + 1 + |Commas(ws[1..])| == p + |Commas(ws)|
  {
    assert Commas(ws) == ws[0] + "," + Commas(ws[1..]);
    CommaSplit(s, p, ws[0], Commas(ws[1..]));
  }

  /** A lowercase word written at `p` and followed by the end or a comma
      is a name that ends where it was written. */
  lemma {:induction false} NameAt(s: string, p: nat, w: string)
    requires IsWord(w, Lower) && TextAt(s, p, w)
    requires p + |w| == |s| || At(s, p + |w|, ',')
    ensures p < |s| && IsLower(s[p]) && WordEnd(s, p + 1) == p + |w| && s[p..p + |w|] == w
  {
    assert s[p] == w[0];
    WordEndAt(s, p, w, 1);
  }

  /** The last name of a chain, by position. */
  lemma {:induction false} NameChainLast(s: string, p: nat)
    requires p < |s| && IsLower(s[p]) && WordEnd(s, p + 1) == |s|
    ensures NameChain(s, p) && ChainFormula(s, p) == Atom(s[p..|s|], [])
  {
  }

  /** A name, a comma, and the rest of a chain, by position. */
  lemma {:induction false} NameChainCons(s: string, p: nat, e: nat, b: Formula)
    requires p < |s| && IsLower(s[p]) && WordEnd(s, p + 1) == e && e < |s| && s[e] == ','
    requires NameChain(s, e + 1) && ChainFormula(s, e + 1) == b
    ensures NameChain(s, p) && ChainFormula(s, p) == Conj(Atom(s[p..e], []), b)
  {
    assert NameChain(s, p);
    assert e != |s|;
  }

  /** Every word is a lowercase name; stated by recursion so that it
      unfolds one name at a time. */
  predicate AllNames(ws: seq<string>)
    decreases |ws|
  {
    |ws| == 0 || (IsWord(ws[0], Lower) && AllNames(ws[1..]))
  }

  lemma {:induction false} AllNamesOf(ws: seq<string>)
    requires forall i :: 0 <= i < |ws| ==> IsWord(ws[i], Lower)
    ensures AllNames(ws)
    decreases |ws|
  {
    if |ws| > 0 {
      AllNamesOf(ws[1..]);
    }
  }

  /** Names joined by commas at the end of the input form a chain that
      denotes their flat conjunction. */
  lemma {:induction false} NameChainOfCommas(s: string, p: nat, ws: seq<string>)
    requires |ws| > 0 && AllNames(ws)
    requires TextAt(s, p, Commas(ws)) && p + |Commas(ws)| == |s|
    ensures NameChain(s, p) && ChainFormula(s, p) == Conjoined(ws)
    decreases |ws|
  {
    var w := ws[0];
    if |ws| == 1 {
      CommasLast(s, p, ws);
      NameAt(s, p, w);
      NameChainLast(s, p);
    } else {
      CommasNext(s, p, ws);
      NameAt(s, p, w);
      NameChainOfCommas(s, p + |w| + 1, ws[1..]);
      NameChainCons(s, p, p + |w|, Conjoined(ws[1..]));
      ConjoinedCons(ws);
    }
  }

  /** A chain of at least two names separated by commas parses as the
      flat conjunction of their nullary atoms. */
  lemma {:induction false} ParseConjunctionOfNames(ws: seq<string>, reg: Registry)
    requires |ws| > 1 && forall i :: 0 <= i < |ws| ==> IsWord(ws[i], Lower)
    ensures Parse(Commas(ws), reg) == Ok(Conjunction(Atoms(ws)))
  {
    var s := Commas(ws);
    assert TextAt(s, 0, s);
    AllNamesOf(ws);
    NameChainOfCommas(s, 0, ws);
    ConjunctOfNameChain(s, 0, reg);
    DisjunctSingle(s, 0, reg, Conjunction(Atoms(ws)), |s|);
    FormulaSingle(s, 0, reg, Conjunction(Atoms(ws)), |s|);
  }

  // ---------------------------------------------------------------------
  // Argument lists, by position
  // ---------------------------------------------------------------------

  /** The term a word stands for as an argument: a variable when it is
      capitalised, an atom otherwise. */
  function WordTerm(w: string): (r: Term)
    requires |w| > 0
  {
    if IsUpper(w[0]) then Var(w) else Str(w)
  }

  /** From `q` on: words separated by commas up to a closing bracket. */
  predicate ArgChain(s: string, q: nat)
    decreases |s| - q
  {
    q < |s| && IsAlpha(s[q]) &&
    var e := WordEnd(s, q + 1);
    e < |s| && (s[e] == ')' || (s[e] == ',' && ArgChain(s, e + 1)))
  }

  /** The arguments a chain of words denotes. */
  function ChainArgs(s: string, q: nat): (r: seq<Term>)
    requires ArgChain(s, q)
    decreases |s| - q
  {
    var e := WordEnd(s, q + 1);
    [WordTerm(s[q..e])] + (if s[e] == ')' then [] else ChainArgs(s, e + 1))
  }

  /** The chain's arguments appended to `acc`, one word at a time, the
      way the list rule accumulates them. */
  function ChainAfter(s: string, q: nat, acc: seq<Term>): (r: seq<Term>)
    requires ArgChain(s, q)
    decreases |s| - q
  {
    var e := WordEnd(s, q + 1);
    if s[e] == ')' then acc + [WordTerm(s[q..e])] else ChainAfter(s, e + 1, acc + [WordTerm(s[q..e])])
  }

  /** Accumulating the chain is appending its arguments. */
  lemma {:induction false} ChainAfterAppends(s: string, q: nat, acc: seq<Term>)
    requires ArgChain(s, q)
    ensures ChainAfter(s, q, acc) == acc + ChainArgs(s, q)
    decreases |s| - q
  {
    var e := WordEnd(s, q + 1);
    var t := WordTerm(s[q..e]);
    if s[e] == ')' {
      ArgChainLast(s, q, e, acc);
    } else {
      ArgChainNext(s, q, e, acc);
      ChainAfterAppends(s, e + 1, acc + [t]);
      AppendAssoc(acc, [t], ChainArgs(s, e + 1));
    }
  }

  lemma {:induction false} AppendAssoc(a: seq<Term>, b: seq<Term>, c: seq<Term>)
    ensures a + b + c == a + (b + c)
  {
  }

  /** The position of the bracket that closes a chain. */
  function ChainEnd(s: string, q: nat): (r: nat)
    requires ArgChain(s, q)
    ensures q < r < |s| && s[r] == ')'
    decreases |s| - q
  {
    var e := WordEnd(s, q + 1);
    if s[e] == ')' then e else ChainEnd(s, e + 1)
  }

  /** The last word of a chain. */
  lemma {:induction false} ArgChainLast(s: string, x: nat, e: nat, acc: seq<Term>)
    requires x < |s| && IsAlpha(s[x]) && WordEnd(s, x + 1) == e && e < |s| && s[e] == ')'
    ensures ArgChain(s, x) && ChainArgs(s, x) == [WordTerm(s[x..e])] && ChainEnd(s, x) == e
    ensures ChainAfter(s, x, acc) == acc + [WordTerm(s[x..e])]
  {
  }

  /** A word, a comma, and the rest of a chain. */
  lemma {:induction false} ArgChainNext(s: string, x: nat, e: nat, acc: seq<Term>)
    requires x < |s| && IsAlpha(s[x]) && WordEnd(s, x + 1) == e && e < |s| && s[e] == ','
    requires ArgChain(s, e + 1)
    ensures ArgChain(s, x) && ChainArgs(s, x) == [WordTerm(s[x..e])] + ChainArgs(s, e + 1)
    ensures ChainEnd(s, x) == ChainEnd(s, e + 1)
    ensures ChainAfter(s, x, acc) == ChainAfter(s, e + 1, acc + [WordTerm(s[x..e])])
  {
    assert ArgChain(s, x);
    ChainNextArgs(s, x, e);
    ChainNextEnd(s, x, e);
    ChainNextAfter(s, x, e, acc);
  }

  lemma {:induction false} ChainNextArgs(s: string, x: nat, e: nat)
    requires x < |s| && WordEnd(s, x + 1) == e && e < |s| && s[e] == ','
    requires ArgChain(s, x) && ArgChain(s, e + 1)
    ensures ChainArgs(s, x) == [WordTerm(s[x..e])] + ChainArgs(s, e + 1)
  {
  }

  lemma {:induction false} ChainNextEnd(s: string, x: nat, e: nat)
    requires x < |s| && WordEnd(s, x + 1) == e && e < |s| && s[e] == ','
    requires ArgChain(s, x) && ArgChain(s, e + 1)
    ensures ChainEnd(s, x) == ChainEnd(s, e + 1)
  {
  }

  lemma {:induction false} ChainNextAfter(s: string, x: nat, e: nat, acc: seq<Term>)
    requires x < |s| && WordEnd(s, x + 1) == e && e < |s| && s[e] == ','
    requires ArgChain(s, x) && ArgChain(s, e + 1)
    ensures ChainAfter(s, x, acc) == ChainAfter(s, e + 1, acc + [WordTerm(s[x..e])])
  {
  }

  /** A lowercase word followed by neither `:` nor `(` is an atom
      argument. */
  lemma {:induction false} ArgumentAtom(s: string, p: nat, reg: Registry)
    requires p < |s| && IsLower(s[p])
    requires !At(s, WordEnd(s, p + 1), ':') && !At(s, WordEnd(s, p + 1), '(')
    ensures Argument(s, p, reg) == Match(Str(s[p..WordEnd(s, p + 1)]), WordEnd(s, p + 1))
  {
    var e := WordEnd(s, p + 1);
    AtomRawWord(s, p, reg);
    CompoundNone(s, p, reg, false, s[p..e], e);
    assert Constant(s, p, reg) == Match(Str(s[p..e]), e);
    ArgumentOfConstant(s, p, reg, Str(s[p..e]), e);
  }

  /** A word closed by `,` or `)` is the argument it stands for. */
  lemma {:induction false} ArgumentWord(s: string, x: nat, reg: Registry)
    requires x < |s| && IsAlpha(s[x])
    requires WordEnd(s, x + 1) < |s| && (s[WordEnd(s, x + 1)] == ',' || s[WordEnd(s, x + 1)] == ')')
    ensures Argument(s, x, reg) == Match(WordTerm(s[x..WordEnd(s, x + 1)]), WordEnd(s, x + 1))
  {
    assert s[x..WordEnd(s, x + 1)][0] == s[x];
    if IsUpper(s[x]) {
      ArgumentVariable(s, x, reg);
    } else {
      ArgumentAtom(s, x, reg);
    }
  }

  /** A closing bracket ends a list. */
  lemma {:induction false} ElementsFromEnd(s: string, q: nat, reg: Registry, acc: seq<Term>)
    requires q < |s| && s[q] == ')'
    ensures ElementsFrom(ArgumentElem, s, q, reg, true, acc) == Match(acc, q)
  {
    assert Skip(s, q) == q;
    ElementsFromStop(ArgumentElem, s, q, reg, true, acc);
  }

  /** A comma and a word continue a list. */
  lemma {:induction false} ElementsFromWord(s: string, c: nat, reg: Registry, acc: seq<Term>, r: Res<seq<Term>, QueryError>)
    requires c + 1 < |s| && s[c] == ',' && IsAlpha(s[c + 1])
    requires WordEnd(s, c + 2) < |s| && (s[WordEnd(s, c + 2)] == ',' || s[WordEnd(s, c + 2)] == ')')
    requires ElementsFrom(ArgumentElem, s, WordEnd(s, c + 2), reg, true, acc + [WordTerm(s[c + 1..WordEnd(s, c + 2)])]) == r
    ensures ElementsFrom(ArgumentElem, s, c, reg, true, acc) == r
  {
    assert Skip(s, c) == c;
    assert Skip(s, c + 1) == c + 1;
    ArgumentWord(s, c + 1, reg);
    ElementsFromMore(ArgumentElem, s, c, reg, true, acc, WordTerm(s[c + 1..WordEnd(s, c + 2)]), WordEnd(s, c + 2), r);
  }

  /** After a comma, a chain of words is read up to its closing bracket
      and appended to the arguments read so far. */
  lemma {:induction false} ElementsFromChain(s: string, c: nat, reg: Registry, acc: seq<Term>)
    requires c < |s| && s[c] == ',' && ArgChain(s, c + 1)
    ensures ElementsFrom(ArgumentElem, s, c, reg, true, acc) == Match(ChainAfter(s, c + 1, acc), ChainEnd(s, c + 1))
    decreases |s| - c
  {
    var e := WordEnd(s, c + 2);
    var t := WordTerm(s[c + 1..e]);
    if s[e] == ')' {
      ArgChainLast(s, c + 1, e, acc);
      ElementsFromEnd(s, e, reg, acc + [t]);
    } else {
      ArgChainNext(s, c + 1, e, acc);
      ElementsFromChain(s, e, reg, acc + [t]);
    }
    ElementsFromWord(s, c, reg, acc, Match(ChainAfter(s, c + 1, acc), ChainEnd(s, c + 1)));
  }

  /** A chain of words is the whole argument list up to its bracket. */
  lemma {:induction false} ElementsOfChain(s: string, x: nat, reg: Registry)
    requires ArgChain(s, x)
    ensures Elements(ArgumentElem, s, x, reg, true) == Match(ChainArgs(s, x), ChainEnd(s, x))
  {
    var e := WordEnd(s, x + 1);
    var t := WordTerm(s[x..e]);
    if s[e] == ')' {
      ArgChainLast(s, x, e, []);
      ElementsFromEnd(s, e, reg, [t]);
    } else {
      ArgChainNext(s, x, e, []);
      ElementsFromChain(s, e, reg, [t]);
      ChainAfterAppends(s, e + 1, [t]);
    }
    assert Skip(s, x) == x;
    ArgumentWord(s, x, reg);
    ElementsFirst(ArgumentElem, s, x, reg, true, t, e);
  }

  /** A list prefix extended by one element still starts with the
      prefix. */
  lemma {:induction false} PrefixShorter(xs: seq<Term>, acc: seq<Term>, v: Term)
    requires |xs| >= |acc| + 1 && xs[..|acc| + 1] == acc + [v]
    ensures xs[..|acc|] == acc
  {
    assert xs[..|acc|] == xs[..|acc| + 1][..|acc|];
  }

  /** One more element read: if the rest keeps `acc + [v]` in front, the
      whole list keeps `acc` in front. */
  lemma {:induction false} ElementsFromKeepsStep(kind: ElemKind, s: string, q: nat, reg: Registry, skip: bool, acc: seq<Term>, v: Term, e: nat)
    requires q <= |s| && At(s, Sk(s, q, skip), ',')
    requires Elem(kind, s, Sk(s, Sk(s, q, skip) + 1, skip), reg) == Match(v, e)
    requires e <= |s|
    requires ElementsFrom(kind, s, e, reg, skip, acc + [v]).Match? ==>
               ElementsFrom(kind, s, e, reg, skip, acc + [v]).value[..|acc + [v]|] == acc + [v]
    ensures ElementsFrom(kind, s, q, reg, skip, acc).Match? ==> ElementsFrom(kind, s, q, reg, skip, acc).value[..|acc|] == acc
  {
    var r := ElementsFrom(kind, s, e, reg, skip, acc + [v]);
    ElementsFromMore(kind, s, q, reg, skip, acc, v, e, r);
    if r.Match? {
      PrefixShorter(r.value, acc, v);
    }
  }

  /** The rest of a list only appends: the elements read before stay at
      the front, in order. */
  lemma {:induction false} ElementsFromKeeps(kind: ElemKind, s: string, q: nat, reg: Registry, skip: bool, acc: seq<Term>)
    requires q <= |s|
    ensures ElementsFrom(kind, s, q, reg, skip, acc).Match? ==> ElementsFrom(kind, s, q, reg, skip, acc).value[..|acc|] == acc
    decreases |s| - q
  {
    var c := Sk(s, q, skip);
    if !At(s, c, ',') {
      ElementsFromStop(kind, s, q, reg, skip, acc);
    } else {
      var el := Elem(kind, s, Sk(s, c + 1, skip), reg);
      if el.Match? {
        ElementsFromKeeps(kind, s, el.pos, reg, skip, acc + [el.value]);
        ElementsFromKeepsStep(kind, s, q, reg, skip, acc, el.value, el.pos);
      } else {
        ElementsFromNoElem(kind, s, q, reg, skip, acc);
      }
    }
  }

  /** A lowercase functor, `(`, a chain of words, and `)` ending the input
      read as a predicate over the chain's arguments. */
  lemma {:induction false} PredicateOfChain(s: string, reg: Registry)
    requires 0 < |s| && IsLower(s[0]) && WordEnd(s, 1) < |s| && s[WordEnd(s, 1)] == '('
    requires ArgChain(s, WordEnd(s, 1) + 1) && ChainEnd(s, WordEnd(s, 1) + 1) == |s| - 1
    ensures ParsePredicate(s, reg) == Ok(Pred(s[0..WordEnd(s, 1)], ChainArgs(s, WordEnd(s, 1) + 1)))
  {
    var e := WordEnd(s, 1);
    var args := ChainArgs(s, e + 1);
    AtomRawWord(s, 0, reg);
    ChainDelimited(s, e, reg);
    CompoundMatch(s, 0, reg, true, s[0..e], e, args, |s|);
    assert Skip(s, 0) == 0;
    PredicateWithArgs(s, 0, reg, Pred(s[0..e], args), |s|);
  }

  /** A bracketed chain closed by the last character is the argument list. */
  lemma {:induction false} ChainDelimited(s: string, e: nat, reg: Registry)
    requires e < |s| && s[e] == '(' && ArgChain(s, e + 1) && ChainEnd(s, e + 1) == |s| - 1
    ensures Delimited(ArgumentElem, '(', ')', s, e, reg, true) == Match(ChainArgs(s, e + 1), |s|)
  {
    var xs, q := ChainArgs(s, e + 1), ChainEnd(s, e + 1);
    ElementsOfChain(s, e + 1, reg);
    assert s[q] == ')';
    assert Sk(s, e, true) == e by { assert Skip(s, e) == e; }
    assert Sk(s, q, true) == q by { assert Skip(s, q) == q; }
    DelimitedMatch(ArgumentElem, '(', ')', s, e, reg, true, xs, q);
  }

  // ---------------------------------------------------------------------
  // Predicates, as text
  // ---------------------------------------------------------------------

  /** The arguments the round trip covers: variables and plain atoms. */
  predicate Simple(t: Term) {
    (t.Var? && IsWord(t.name, Upper)) || (t.Str? && IsWord(t.str, Lower))
  }

  /** How a variable or a plain atom is written; other terms are not
      printed here. */
  function Show(t: Term): string
  {
    if t.Var? then t.name else if t.Str? then t.str else ""
  }

  /** A simple argument is written as a word that reads back as itself. */
  lemma {:induction false} ShowWord(t: Term)
    requires Simple(t)
    ensures IsWord(Show(t), Letter) && WordTerm(Show(t)) == t
  {
  }

  /** Every argument is simple; stated by recursion so that it unfolds one
      argument at a time. */
  predicate AllSimple(args: seq<Term>)
    decreases |args|
  {
    |args| == 0 || (Simple(args[0]) && AllSimple(args[1..]))
  }

  lemma {:induction false} AllSimpleOf(args: seq<Term>)
    requires forall i :: 0 <= i < |args| ==> Simple(args[i])
    ensures AllSimple(args)
    decreases |args|
  {
    if |args| > 0 {
      AllSimpleOf(args[1..]);
    }
  }

  /** `a1,...,an`: arguments written with commas between them. */
  function ShowArgs(args: seq<Term>): (r: string)
    requires |args| > 0
    ensures |r| >= |Show(args[0])|
    decreases |args|
  {
    if |args| == 1 then Show(args[0]) else Show(args[0]) + "," + ShowArgs(args[1..])
  }

  /** `f(a1,...,an)`. */
  function ShowPredicate(f: string, args: seq<Term>): (r: string)
    requires |args| > 0
    ensures |r| == |f| + |ShowArgs(args)| + 2
  {
    f + "(" + ShowArgs(args) + ")"
  }

  /** A single printed argument. */
  lemma {:induction false} ShowArgsLast(s: string, x: nat, args: seq<Term>)
    requires |args| == 1 && TextAt(s, x, ShowArgs(args))
    ensures TextAt(s, x, Show(args[0])) && |Show(args[0])| == |ShowArgs(args)|
  {
  }

  /** The first printed argument, its comma, and the rest. */
  lemma {:induction false} ShowArgsNext(s: string, x: nat, args: seq<Term>)
    requires |args| > 1 && TextAt(s, x, ShowArgs(args))
    ensures TextAt(s, x, Show(args[0])) && At(s, x + |Show(args[0])|, ',')
    ensures TextAt(s, x + |Show(args[0])| + 1, ShowArgs(args[1..]))
    ensures x + |Show(args[0])| + 1 + |ShowArgs(args[1..])| == x + |ShowArgs(args)|
  {
    var w, rest := Show(args[0]), ShowArgs(args[1..]);
    assert ShowArgs(args) == w + "," + rest;
    CommaSplit(s, x, w, rest);
  }

  /** The arguments `args` spelled out from `x` on, separated by commas,
      the last one closed by the `)` at `end`. */
  predicate Spelled(s: string, x: nat, args: seq<Term>, end: nat)
    decreases |args|
  {
    |args| > 0 && TextAt(s, x, Show(args[0])) &&
    var e := x + |Show(args[0])|;
    if |args| == 1 then At(s, e, ')') && e == end
    else At(s, e, ',') && Spelled(s, e + 1, args[1..], end)
  }

  lemma {:induction false} SpelledLast(s: string, x: nat, args: seq<Term>)
    requires |args| == 1 && TextAt(s, x, Show(args[0])) && At(s, x + |Show(args[0])|, ')')
    ensures Spelled(s, x, args, x + |Show(args[0])|)
  {
  }

  lemma {:induction false} SpelledCons(s: string, x: nat, args: seq<Term>, end: nat)
    requires |args| > 1 && TextAt(s, x, Show(args[0])) && At(s, x + |Show(args[0])|, ',')
    requires Spelled(s, x + |Show(args[0])| + 1, args[1..], end)
    ensures Spelled(s, x, args, end)
  {
  }

  /** Printed arguments closed by `)`: the first one, its comma, and the
      rest, still closed by the same `)`. */
  lemma {:induction false} ShowArgsClosedNext(s: string, x: nat, args: seq<Term>) returns (next: nat)
    requires |args| > 1 && TextAt(s, x, ShowArgs(args)) && At(s, x + |ShowArgs(args)|, ')')
    ensures next == x + |Show(args[0])| + 1
    ensures TextAt(s, x, Show(args[0])) && At(s, next - 1, ',')
    ensures TextAt(s, next, ShowArgs(args[1..])) && next + |ShowArgs(args[1..])| == x + |ShowArgs(args)|
    ensures At(s, next + |ShowArgs(args[1..])|, ')')
  {
    ShowArgsNext(s, x, args);
    next := x + |Show(args[0])| + 1;
  }

  /** Printed arguments closed by `)` are spelled out. */
  lemma {:induction false} SpelledOfShowArgs(s: string, x: nat, args: seq<Term>)
    requires |args| > 0 && TextAt(s, x, ShowArgs(args)) && At(s, x + |ShowArgs(args)|, ')')
    ensures Spelled(s, x, args, x + |ShowArgs(args)|)
    decreases |args|
  {
    if |args| > 1 {
      var next := ShowArgsClosedNext(s, x, args);
      SpelledOfShowArgs(s, next, args[1..]);
      SpelledCons(s, x, args, x + |ShowArgs(args)|);
    } else {
      ShowArgsLast(s, x, args);
      SpelledLast(s, x, args);
    }
  }

  /** The first spelled-out argument is a word standing for it. */
  lemma {:induction false} SpelledHead(s: string, x: nat, args: seq<Term>, end: nat)
    requires Spelled(s, x, args, end) && AllSimple(args)
    ensures x + |Show(args[0])| < |s| && IsAlpha(s[x]) && WordEnd(s, x + 1) == x + |Show(args[0])|
    ensures WordTerm(s[x..x + |Show(args[0])|]) == args[0]
  {
    WordAt(s, x, args[0]);
  }

  /** After the last spelled-out argument comes the closing `)`. */
  lemma {:induction false} SpelledEnd(s: string, x: nat, args: seq<Term>, end: nat)
    requires Spelled(s, x, args, end) && |args| == 1
    ensures x + |Show(args[0])| == end && At(s, end, ')')
  {
  }

  /** After an argument that is not the last come a comma and the rest. */
  lemma {:induction false} SpelledTail(s: string, x: nat, args: seq<Term>, end: nat)
    requires Spelled(s, x, args, end) && AllSimple(args) && |args| > 1
    ensures At(s, x + |Show(args[0])|, ',')
    ensures Spelled(s, x + |Show(args[0])| + 1, args[1..], end) && AllSimple(args[1..])
  {
  }

  /** Spelled-out arguments form a chain that denotes them. */
  lemma {:induction false} ChainOfSpelled(s: string, x: nat, args: seq<Term>, end: nat)
    requires Spelled(s, x, args, end) && AllSimple(args)
    ensures ArgChain(s, x) && ChainArgs(s, x) == args && ChainEnd(s, x) == end
    decreases |args|
  {
    if |args| == 1 {
      ChainOfSpelledLast(s, x, args, end);
    } else {
      SpelledTail(s, x, args, end);
      ChainOfSpelled(s, x + |Show(args[0])| + 1, args[1..], end);
      ChainOfSpelledCons(s, x, args, end);
    }
  }

  /** A single spelled-out argument is a one-word chain. */
  lemma {:induction false} ChainOfSpelledLast(s: string, x: nat, args: seq<Term>, end: nat)
    requires Spelled(s, x, args, end) && AllSimple(args) && |args| == 1
    ensures ArgChain(s, x) && ChainArgs(s, x) == args && ChainEnd(s, x) == end
  {
    SpelledHead(s, x, args, end);
    SpelledEnd(s, x, args, end);
    ArgChainLast(s, x, end, []);
    assert [args[0]] == args;
  }

  /** The first spelled-out argument in front of the chain for the rest. */
  lemma {:induction false} ChainOfSpelledCons(s: string, x: nat, args: seq<Term>, end: nat)
    requires Spelled(s, x, args, end) && AllSimple(args) && |args| > 1
    requires ArgChain(s, x + |Show(args[0])| + 1) && ChainArgs(s, x + |Show(args[0])| + 1) == args[1..]
    requires ChainEnd(s, x + |Show(args[0])| + 1) == end
    ensures ArgChain(s, x) && ChainArgs(s, x) == args && ChainEnd(s, x) == end
  {
    var e := x + |Show(args[0])|;
    SpelledHead(s, x, args, end);
    SpelledTail(s, x, args, end);
    ArgChainCons(s, x, e, args[0], args[1..], end);
    assert [args[0]] + args[1..] == args;
  }

  /** A simple argument written at `x` and closed by `,` or `)` is a
      word standing for that argument. */
  lemma {:induction false} WordAt(s: string, x: nat, t: Term)
    requires Simple(t) && TextAt(s, x, Show(t))
    requires At(s, x + |Show(t)|, ',') || At(s, x + |Show(t)|, ')')
    ensures IsAlpha(s[x]) && WordEnd(s, x + 1) == x + |Show(t)| && WordTerm(s[x..x + |Show(t)|]) == t
  {
    var n := Show(t);
    ShowWord(t);
    assert s[x] == n[0];
    WordEndAt(s, x, n, 1);
  }

  /** A word standing for `t`, a comma, and a chain for `rest`. */
  lemma {:induction false} ArgChainCons(s: string, x: nat, e: nat, t: Term, rest: seq<Term>, end: nat)
    requires x < |s| && IsAlpha(s[x]) && WordEnd(s, x + 1) == e && e < |s| && s[e] == ','
    requires WordTerm(s[x..e]) == t
    requires ArgChain(s, e + 1) && ChainArgs(s, e + 1) == rest && ChainEnd(s, e + 1) == end
    ensures ArgChain(s, x) && ChainArgs(s, x) == [t] + rest && ChainEnd(s, x) == end
  {
    ArgChainNext(s, x, e, []);
  }

  /** How `f(a1,...,an)` lies in its own text: a lowercase functor, `(`, a
      chain of words denoting the arguments, and `)` as the last character. */
  lemma {:induction false} PredicateLayout(f: string, args: seq<Term>)
    requires IsWord(f, Lower)
    requires |args| > 0 && AllSimple(args)
    ensures var s := ShowPredicate(f, args);
            0 < |s| && IsLower(s[0]) && WordEnd(s, 1) == |f| && s[|f|] == '(' && s[0..|f|] == f
            && ArgChain(s, |f| + 1) && ChainEnd(s, |f| + 1) == |s| - 1 && ChainArgs(s, |f| + 1) == args
  {
    var s := ShowPredicate(f, args);
    var body := ShowArgs(args);
    var x := |f| + 1;
    assert s[0..|f|] == f && s[|f|] == '(';
    assert s[x..x + |body|] == body && s[x + |body|] == ')' && |s| == x + |body| + 1;
    LayoutHead(s, f);
    LayoutBody(s, x, args);
  }

  /** A lowercase word and `(` open the text. */
  lemma {:induction false} LayoutHead(s: string, f: string)
    requires IsWord(f, Lower) && |f| < |s| && s[0..|f|] == f && s[|f|] == '('
    ensures IsLower(s[0]) && WordEnd(s, 1) == |f|
  {
    assert s[0] == f[0];
    WordEndAt(s, 0, f, 1);
  }

  /** The printed arguments closed by the last character are a chain
      denoting them. */
  lemma {:induction false} LayoutBody(s: string, x: nat, args: seq<Term>)
    requires |args| > 0 && AllSimple(args)
    requires TextAt(s, x, ShowArgs(args)) && x + |ShowArgs(args)| + 1 == |s| && At(s, |s| - 1, ')')
    ensures ArgChain(s, x) && ChainEnd(s, x) == |s| - 1 && ChainArgs(s, x) == args
  {
    SpelledOfShowArgs(s, x, args);
    ChainOfSpelled(s, x, args, |s| - 1);
  }

  /** Printing a predicate over variables and plain atoms and parsing the
      text gives the predicate back. */
  lemma {:induction false} ParsePredicateRoundTrip(f: string, args: seq<Term>, reg: Registry)
    requires IsWord(f, Lower)
    requires |args| > 0 && forall i :: 0 <= i < |args| ==> Simple(args[i])
    ensures ParsePredicate(ShowPredicate(f, args), reg) == Ok(Pred(f, args))
  {
    AllSimpleOf(args);
    ParsePrinted(f, args, reg);
  }

  lemma {:induction false} ParsePrinted(f: string, args: seq<Term>, reg: Registry)
    requires IsWord(f, Lower) && |args| > 0 && AllSimple(args)
    ensures ParsePredicate(ShowPredicate(f, args), reg) == Ok(Pred(f, args))
  {
    PredicateLayout(f, args);
    PredicateOfChain(ShowPredicate(f, args), reg);
  }
}
