/**
  The query grammar as a recursive-descent parser with ordered choice.

  Every rule reads the input `s` from position `p` and answers with a
  `Res`. An alternative is tried only when the one before it did not
  match; a failed sequence consumes nothing. Formula and predicate rules
  skip whitespace before every token; term rules are lexemes, skipping
  once before they start when a skipping rule calls them and never inside.
  A semantic action that throws (an unregistered IRI prefix, an
  unrecognised modal option) aborts the whole parse.

  Termination: every call either moves to a later position or stays at the
  same position and descends to a rule of lower rank.
 */
module QueryParser {
  import opened Wrappers
  import opened Terms
  import opened Formulas
  import opened Lexer
  import opened PrefixRegistry
  import M = ModalOptions

  type R<T> = Res<T, QueryError>

  /** Ordered choice: the second parser only when the first did not match. */
  function Or<T>(a: R<T>, b: R<T>): (r: R<T>)
    ensures a.NoMatch? ==> r == b
    ensures !a.NoMatch? ==> r == a
  {
    if a.NoMatch? then b else a
  }

  /** A lexer result, which never aborts. */
  function Lex<T>(a: Res<T, bool>): (r: R<T>)
    requires !a.Abort?
    ensures r.Match? <==> a.Match?
    ensures a.Match? ==> r.value == a.value && r.pos == a.pos
    ensures !r.Abort?
  {
    if a.Match? then Match(a.value, a.pos) else NoMatch
  }

  /** The position of the next token: after whitespace when skipping. */
  function Sk(s: string, p: nat, skip: bool): (r: nat)
    requires p <= |s|
    ensures p <= r <= |s|
    ensures !skip ==> r == p
  {
    if skip then Skip(s, p) else p
  }

  predicate At(s: string, p: nat, c: char) {
    p < |s| && s[p] == c
  }

  // ---------------------------------------------------------------------
  // Raw atoms and IRIs
  // ---------------------------------------------------------------------

  /** `singleQuotes | alpha >> *(alnum | '_')`: the entity part of an IRI. */
  function IriEntity(s: string, p: nat): (r: R<string>)
    requires p <= |s|
    ensures !r.Abort?
    ensures r.Match? ==> p < r.pos <= |s|
  {
    Or(Lex(Quoted(s, p, '\'')), Lex(Word(s, p, Letter)))
  }

  /** `ns:entity`, expanded through the registry; `IriExpands` states the
      expansion. */
  function Iri(s: string, p: nat, reg: Registry): (r: R<string>)
    requires p <= |s|
    ensures r.Match? ==> p < r.pos <= |s|
    ensures r.Abort? ==> r.error.UnknownPrefix?
  {
    match Word(s, p, Letter)
    case Match(ns, q) =>
      if At(s, q, ':') then
        match IriEntity(s, q + 1)
        case Match(name, e) =>
          (match CreateIRI(reg, ns, name)
           case Some(iri) => Match(iri, e)
           case None => Abort(UnknownPrefix(ns, name)))
        case _ => NoMatch
      else NoMatch
    case _ => NoMatch
  }

  /** The word before the colon names the namespace, and the IRI is what
      `CreateIRI` builds from it and the entity; an unregistered prefix
      aborts the parse with both names. */
  lemma {:induction false} IriExpands(s: string, p: nat, reg: Registry)
    requires p <= |s|
    ensures var r := Iri(s, p, reg);
            r.Match? ==>
              exists q :: p < q < r.pos && s[q] == ':' && IriEntity(s, q + 1) == Match(EntityOf(s, q), r.pos)
                          && CreateIRI(reg, s[p..q], EntityOf(s, q)) == Some(r.value)
    ensures var r := Iri(s, p, reg);
            r.Abort? ==>
              exists q :: p < q < |s| && s[q] == ':' && IriEntity(s, q + 1).Match?
                          && r.error == UnknownPrefix(s[p..q], EntityOf(s, q))
                          && CreateIRI(reg, s[p..q], EntityOf(s, q)).None?
  {
    var w := Word(s, p, Letter);
    if w.Match? && At(s, w.pos, ':') {
      var q := w.pos;
      var e := IriEntity(s, q + 1);
      if e.Match? {
        assert EntityOf(s, q) == e.value && s[p..q] == w.value;
        var c := CreateIRI(reg, w.value, e.value);
        if c.Some? {
          assert Iri(s, p, reg) == Match(c.value, e.pos);
        } else {
          assert Iri(s, p, reg) == Abort(UnknownPrefix(w.value, e.value));
        }
      }
    }
  }

  /** The entity name after the colon at `q`, when there is one. */
  function EntityOf(s: string, q: nat): string
    requires q < |s|
  {
    var e := IriEntity(s, q + 1);
    if e.Match? then e.value else ""
  }

  /** `singleQuotes | iri | lowerPrefix`: the text of an atom. */
  function AtomRaw(s: string, p: nat, reg: Registry): (r: R<string>)
    requires p <= |s|
    ensures r.Match? ==> p < r.pos <= |s|
    ensures r.Abort? ==> r.error.UnknownPrefix?
  {
    Or(Lex(Quoted(s, p, '\'')), Or(Iri(s, p, reg), Lex(Word(s, p, Lower))))
  }

  // ---------------------------------------------------------------------
  // Constants, options and arguments (lexemes)
  // ---------------------------------------------------------------------

  function Atom(s: string, p: nat, reg: Registry): (r: R<Term>)
    requires p <= |s|
    ensures r.Match? ==> p < r.pos <= |s| && r.value.Str?
  {
    match AtomRaw(s, p, reg)
    case Match(a, q) => Match(Str(a), q)
    case NoMatch => NoMatch
    case Abort(x) => Abort(x)
  }

  /** A double-quoted string. */
  function StringLit(s: string, p: nat): (r: R<Term>)
    requires p <= |s|
    ensures r.Match? ==> p < r.pos <= |s| && r.value.Str?
    ensures !r.Abort?
  {
    match Quoted(s, p, '"')
    case Match(a, q) => Match(Str(a), q)
    case _ => NoMatch
  }

  function NumberLit(s: string, p: nat): (r: R<Term>)
    requires p <= |s|
    ensures r.Match? ==> p < r.pos <= |s| && r.value.Dbl?
    ensures !r.Abort?
  {
    match Number(s, p)
    case Match(x, q) => Match(Dbl(x), q)
    case _ => NoMatch
  }

  /** `atom | string | number`. */
  function Constant(s: string, p: nat, reg: Registry): (r: R<Term>)
    requires p <= |s|
    ensures r.Match? ==> p < r.pos <= |s| && IsConstant(r.value)
  {
    Or(Atom(s, p, reg), Or(StringLit(s, p), NumberLit(s, p)))
  }

  /** `atom '=' constant`, read as the predicate `=(key, value)`. */
  function KeyValue(s: string, p: nat, reg: Registry): (r: R<Term>)
    requires p <= |s|
    ensures r.Match? ==> p < r.pos <= |s|
    ensures r.Match? ==> r.value.Pred? && r.value.functor == "=" && |r.value.args| == 2
                         && r.value.args[0].Str? && IsConstant(r.value.args[1])
  {
    match Atom(s, p, reg)
    case Match(k, q) =>
      if At(s, q, '=') then
        match Constant(s, q + 1, reg)
        case Match(v, e) => Match(Pred("=", [k, v]), e)
        case NoMatch => NoMatch
        case Abort(x) => Abort(x)
      else NoMatch
    case NoMatch => NoMatch
    case Abort(x) => Abort(x)
  }

  /** `keyvalue | constant`. */
  function OptionTerm(s: string, p: nat, reg: Registry): (r: R<Term>)
    requires p <= |s|
    ensures r.Match? ==> p < r.pos <= |s|
  {
    Or(KeyValue(s, p, reg), Constant(s, p, reg))
  }

  /** The element rules the `elem % ','` lists are made of. */
  datatype ElemKind = OptionElem | ConstantElem | ArgumentElem

  /** Rank of each rule, for the termination measure. */
  const RankElements := 5
  const RankElementsFrom := 4
  const RankElem := 3
  const RankArgument := 2
  const RankCompound := 1
  const RankDelimited := 0

  function Elem(kind: ElemKind, s: string, p: nat, reg: Registry): (r: R<Term>)
    requires p <= |s|
    ensures r.Match? ==> p < r.pos <= |s|
    decreases |s| - p, RankElem
  {
    match kind
    case OptionElem => OptionTerm(s, p, reg)
    case ConstantElem => Constant(s, p, reg)
    case ArgumentElem => Argument(s, p, reg)
  }

  /** `elem % ','` from its first element on; with `skip`, whitespace may
      precede every element and comma. */
  function Elements(kind: ElemKind, s: string, p: nat, reg: Registry, skip: bool): (r: R<seq<Term>>)
    requires p <= |s|
    ensures r.Match? ==> p < r.pos <= |s| && |r.value| > 0
    decreases |s| - p, RankElements
  {
    match Elem(kind, s, Sk(s, p, skip), reg)
    case Match(v, q) => ElementsFrom(kind, s, q, reg, skip, [v])
    case NoMatch => NoMatch
    case Abort(x) => Abort(x)
  }

  /** The rest of a list after the elements `acc`, which end at `q`: a
      comma followed by an element continues it; a comma without an
      element is left unread. */
  function ElementsFrom(kind: ElemKind, s: string, q: nat, reg: Registry, skip: bool, acc: seq<Term>): (r: R<seq<Term>>)
    requires q <= |s|
    ensures r.Match? ==> q <= r.pos <= |s| && |r.value| >= |acc|
    decreases |s| - q, RankElementsFrom
  {
    var c := Sk(s, q, skip);
    if At(s, c, ',') then
      match Elem(kind, s, Sk(s, c + 1, skip), reg)
      case Match(v, e) => ElementsFrom(kind, s, e, reg, skip, acc + [v])
      case NoMatch => Match(acc, q)
      case Abort(x) => Abort(x)
    else Match(acc, q)
  }

  /** `open >> (elem % ',') >> close`. */
  function Delimited(kind: ElemKind, open: char, close: char, s: string, p: nat, reg: Registry, skip: bool): (r: R<seq<Term>>)
    requires p <= |s|
    ensures r.Match? ==> p < r.pos <= |s| && |r.value| > 0
    decreases |s| - p, RankDelimited
  {
    var c := Sk(s, p, skip);
    if At(s, c, open) then
      match Elements(kind, s, c + 1, reg, skip)
      case Match(xs, q) =>
        var d := Sk(s, q, skip);
        if At(s, d, close) then Match(xs, d + 1) else NoMatch
      case NoMatch => NoMatch
      case Abort(x) => Abort(x)
    else NoMatch
  }

  /** `atomRaw >> '(' >> (argument % ',') >> ')'`: a compound argument
      (`skip` false) or a predicate with arguments (`skip` true). */
  function Compound(s: string, p: nat, reg: Registry, skip: bool): (r: R<Term>)
    requires p <= |s|
    ensures r.Match? ==> p < r.pos <= |s| && r.value.Pred? && |r.value.args| > 0
    decreases |s| - p, RankCompound
  {
    match AtomRaw(s, p, reg)
    case Match(f, q) =>
      (match Delimited(ArgumentElem, '(', ')', s, q, reg, skip)
       case Match(args, e) => Match(Pred(f, args), e)
       case NoMatch => NoMatch
       case Abort(x) => Abort(x))
    case NoMatch => NoMatch
    case Abort(x) => Abort(x)
  }

  /** `upperPrefix`: a variable. */
  function Variable(s: string, p: nat): (r: R<Term>)
    requires p <= |s|
    ensures !r.Abort?
    ensures r.Match? <==> p < |s| && IsUpper(s[p])
    ensures r.Match? ==> p < r.pos <= |s| && r.value == Var(s[p..r.pos])
  {
    match Word(s, p, Upper)
    case Match(n, q) => Match(Var(n), q)
    case _ => NoMatch
  }

  /** `'[' >> (constant % ',') >> ']'`. */
  function ConstantList(s: string, p: nat, reg: Registry): (r: R<Term>)
    requires p <= |s|
    ensures r.Match? ==> p < r.pos <= |s| && r.value.List?
    decreases |s| - p, RankCompound
  {
    match Delimited(ConstantElem, '[', ']', s, p, reg, false)
    case Match(xs, q) => Match(List(xs), q)
    case NoMatch => NoMatch
    case Abort(x) => Abort(x)
  }

  /** `compound | variable | constant | constantList`. */
  function Argument(s: string, p: nat, reg: Registry): (r: R<Term>)
    requires p <= |s|
    ensures r.Match? ==> p < r.pos <= |s|
    decreases |s| - p, RankArgument
  {
    Or(Compound(s, p, reg, false), Or(Variable(s, p), Or(Constant(s, p, reg), ConstantList(s, p, reg))))
  }

  /** `'[' >> (option % ',') >> ']'`: a modal operator's option list. */
  function Options(s: string, p: nat, reg: Registry): (r: R<seq<Term>>)
    requires p <= |s|
    ensures r.Match? ==> p < r.pos <= |s| && |r.value| > 0
  {
    Delimited(OptionElem, '[', ']', s, p, reg, false)
  }

  // ---------------------------------------------------------------------
  // Predicates (skipping)
  // ---------------------------------------------------------------------

  /** `predicateWithArgs | predicateNullary`; the arity is the number of
      arguments. */
  function Predicate(s: string, p: nat, reg: Registry): (r: R<Term>)
    requires p <= |s|
    ensures r.Match? ==> p < r.pos <= |s| && r.value.Pred?
  {
    var c := Skip(s, p);
    var nullary :=
      match AtomRaw(s, c, reg)
      case Match(f, q) => Match(Pred(f, []), q)
      case NoMatch => NoMatch
      case Abort(x) => Abort(x);
    Or(Compound(s, c, reg, true), nullary)
  }

  // ---------------------------------------------------------------------
  // Formulas (skipping)
  // ---------------------------------------------------------------------

  const RankFormula := 11
  const RankImplication := 10
  const RankImplicationChain := 9
  const RankDisjunction := 8
  const RankDisjunctionChain := 7
  const RankConjunction := 6
  const RankConjunctionChain := 5
  const RankOperand := 4
  const RankUnary := 3
  const RankPrefix := 2
  const RankBrackets := 1

  /** `'(' >> formula >> ')'`. */
  function Brackets(s: string, p: nat, reg: Registry): (r: R<Formula>)
    requires p <= |s|
    ensures r.Match? ==> p < r.pos <= |s|
    decreases |s| - p, RankBrackets
  {
    var c := Skip(s, p);
    if At(s, c, '(') then
      match FormulaRule(s, c + 1, reg)
      case Match(f, q) =>
        var d := Skip(s, q);
        if At(s, d, ')') then Match(f, d + 1) else NoMatch
      case NoMatch => NoMatch
      case Abort(x) => Abort(x)
    else NoMatch
  }

  /** `unary | brackets`, the operand of prefix operators. */
  function UnaryOrBrackets(s: string, p: nat, reg: Registry): (r: R<Formula>)
    requires p <= |s|
    ensures r.Match? ==> p < r.pos <= |s|
    decreases |s| - p, RankOperand
  {
    Or(Unary(s, p, reg), Brackets(s, p, reg))
  }

  /** `'~' >> (unary | brackets)`. */
  function Negated(s: string, p: nat, reg: Registry): (r: R<Formula>)
    requires p <= |s|
    ensures r.Match? ==> p < r.pos <= |s| && r.value.Negation?
    decreases |s| - p, RankPrefix
  {
    var c := Skip(s, p);
    if At(s, c, '~') then
      match UnaryOrBrackets(s, c + 1, reg)
      case Match(f, q) => Match(Negation(f), q)
      case NoMatch => NoMatch
      case Abort(x) => Abort(x)
    else NoMatch
  }

  /** The option list of a modal operator, or nil (`None`) when none is
      written. The list is a lexeme, so whitespace before it is skipped. */
  function OptionsOrNil(s: string, p: nat, reg: Registry): (r: R<Option<seq<Term>>>)
    requires p <= |s|
    ensures r.Match? ==> p <= r.pos <= |s|
    ensures !r.NoMatch?
  {
    match Options(s, Skip(s, p), reg)
    case Match(xs, q) => Match(Some(xs), q)
    case NoMatch => Match(None, p)
    case Abort(x) => Abort(x)
  }

  /** The operator a modal symbol builds from its options. */
  function BuildModal(c: char, opts: Option<seq<Term>>): (r: Result<ModalOperator, QueryError>)
    requires c in {'B', 'K', 'P', 'H'}
    ensures r.Ok? ==> Symbol(r.value) == c
  {
    if c == 'B' then M.CreateB(opts)
    else if c == 'K' then M.CreateK(opts)
    else if c == 'P' then M.CreateP(opts)
    else M.CreateH(opts)
  }

  /** Without options every modal letter builds its operator. */
  lemma {:induction false} EveryLetterBuilds(c: char)
    requires c in {'B', 'K', 'P', 'H'}
    ensures BuildModal(c, None).Ok? && Symbol(BuildModal(c, None).value) == c
  {
  }

  /** `('B'|'K'|'P'|'H') >> (options | nil) >> (unary | brackets)`; the
      operator is built once the operand has been read. */
  function ModalFormula(s: string, p: nat, reg: Registry): (r: R<Formula>)
    requires p <= |s|
    ensures r.Match? ==> p < r.pos <= |s| && r.value.Modal?
    decreases |s| - p, RankPrefix
  {
    var c := Skip(s, p);
    if c < |s| && s[c] in {'B', 'K', 'P', 'H'} then
      match OptionsOrNil(s, c + 1, reg)
      case Match(opts, q) =>
        (match UnaryOrBrackets(s, q, reg)
         case Match(f, e) =>
           (match BuildModal(s[c], opts)
            case Ok(op) => Match(Modal(op, f), e)
            case Err(x) => Abort(x))
         case NoMatch => NoMatch
         case Abort(x) => Abort(x))
      case NoMatch => NoMatch
      case Abort(x) => Abort(x)
    else NoMatch
  }

  /** `modalFormula | negation | predicate`. */
  function Unary(s: string, p: nat, reg: Registry): (r: R<Formula>)
    requires p <= |s|
    ensures r.Match? ==> p < r.pos <= |s|
    ensures r.Match? ==> r.value.Modal? || r.value.Negation? || r.value.Atom?
    decreases |s| - p, RankUnary
  {
    var atom :=
      match Predicate(s, p, reg)
      case Match(t, q) => Match(AtomOf(t), q)
      case NoMatch => NoMatch
      case Abort(x) => Abort(x);
    Or(ModalFormula(s, p, reg), Or(Negated(s, p, reg), atom))
  }

  /** `(unary|brackets) >> (','|'&') >> (conjunction|brackets) | unary`. */
  function Conjunct(s: string, p: nat, reg: Registry): (r: R<Formula>)
    requires p <= |s|
    ensures r.Match? ==> p < r.pos <= |s|
    ensures r.Match? ==> !r.value.Disjunction? && !r.value.Implication?
    decreases |s| - p, RankConjunction
  {
    Or(ConjunctChain(s, p, reg), Unary(s, p, reg))
  }

  /** The first alternative of a conjunction: an operand and the rest. */
  function ConjunctChain(s: string, p: nat, reg: Registry): (r: R<Formula>)
    requires p <= |s|
    ensures r.Match? ==> p < r.pos <= |s| && r.value.Conjunction?
    decreases |s| - p, RankConjunctionChain
  {
    match UnaryOrBrackets(s, p, reg)
    case Match(a, q) => ConjunctTail(s, Skip(s, q), reg, a)
    case NoMatch => NoMatch
    case Abort(x) => Abort(x)
  }

  /** `(','|'&') >> (conjunction|brackets)` at `c`, conjoined to `a`. */
  function ConjunctTail(s: string, c: nat, reg: Registry, a: Formula): (r: R<Formula>)
    requires c <= |s|
    ensures r.Match? ==> c < r.pos <= |s| && r.value.Conjunction?
    decreases |s| - c, 0
  {
    if At(s, c, ',') || At(s, c, '&') then
      match Or(Conjunct(s, c + 1, reg), Brackets(s, c + 1, reg))
      case Match(b, e) => Match(Conj(a, b), e)
      case NoMatch => NoMatch
      case Abort(x) => Abort(x)
    else NoMatch
  }

  /** `(conjunction|brackets) >> (';'|'|') >> (disjunction|brackets) | conjunction`. */
  function Disjunct(s: string, p: nat, reg: Registry): (r: R<Formula>)
    requires p <= |s|
    ensures r.Match? ==> p < r.pos <= |s|
    ensures r.Match? ==> !r.value.Implication?
    decreases |s| - p, RankDisjunction
  {
    Or(DisjunctChain(s, p, reg), Conjunct(s, p, reg))
  }

  function DisjunctChain(s: string, p: nat, reg: Registry): (r: R<Formula>)
    requires p <= |s|
    ensures r.Match? ==> p < r.pos <= |s| && r.value.Disjunction?
    decreases |s| - p, RankDisjunctionChain
  {
    match Or(Conjunct(s, p, reg), Brackets(s, p, reg))
    case Match(a, q) => DisjunctTail(s, Skip(s, q), reg, a)
    case NoMatch => NoMatch
    case Abort(x) => Abort(x)
  }

  /** `(';'|'|') >> (disjunction|brackets)` at `c`, disjoined to `a`. */
  function DisjunctTail(s: string, c: nat, reg: Registry, a: Formula): (r: R<Formula>)
    requires c <= |s|
    ensures r.Match? ==> c < r.pos <= |s| && r.value.Disjunction?
    decreases |s| - c, 0
  {
    if At(s, c, ';') || At(s, c, '|') then
      match Or(Disjunct(s, c + 1, reg), Brackets(s, c + 1, reg))
      case Match(b, e) => Match(Disj(a, b), e)
      case NoMatch => NoMatch
      case Abort(x) => Abort(x)
    else NoMatch
  }

  /** `(disjunction|brackets) >> "->" >> (implication|brackets) | disjunction`. */
  function Implies(s: string, p: nat, reg: Registry): (r: R<Formula>)
    requires p <= |s|
    ensures r.Match? ==> p < r.pos <= |s|
    decreases |s| - p, RankImplication
  {
    Or(ImpliesChain(s, p, reg), Disjunct(s, p, reg))
  }

  function ImpliesChain(s: string, p: nat, reg: Registry): (r: R<Formula>)
    requires p <= |s|
    ensures r.Match? ==> p < r.pos <= |s| && r.value.Implication?
    decreases |s| - p, RankImplicationChain
  {
    match Or(Disjunct(s, p, reg), Brackets(s, p, reg))
    case Match(a, q) => ImpliesTail(s, Skip(s, q), reg, a)
    case NoMatch => NoMatch
    case Abort(x) => Abort(x)
  }

  /** `"->" >> (implication|brackets)` at `c`, with `a` as the premise. */
  function ImpliesTail(s: string, c: nat, reg: Registry, a: Formula): (r: R<Formula>)
    requires c <= |s|
    ensures r.Match? ==> c < r.pos <= |s| && r.value.Implication? && r.value.lhs == a
    decreases |s| - c, 0
  {
    if At(s, c, '-') && At(s, c + 1, '>') then
      match Or(Implies(s, c + 2, reg), Brackets(s, c + 2, reg))
      case Match(b, e) => Match(Implication(a, b), e)
      case NoMatch => NoMatch
      case Abort(x) => Abort(x)
    else NoMatch
  }

  /** `implication | brackets`. */
  function FormulaRule(s: string, p: nat, reg: Registry): (r: R<Formula>)
    requires p <= |s|
    ensures r.Match? ==> p < r.pos <= |s|
    decreases |s| - p, RankFormula
  {
    Or(Implies(s, p, reg), Brackets(s, p, reg))
  }

  // ---------------------------------------------------------------------
  // Entry points
  // ---------------------------------------------------------------------

  /** A rule's answer as an entry point's: accepted only when the rule
      matched and nothing but whitespace follows; an aborted parse keeps
      its own error, any other failure is a syntax error on the input. */
  function Complete<T>(s: string, r: R<T>): (o: Result<T, QueryError>)
    requires r.Match? ==> r.pos <= |s|
    ensures o.Ok? <==> r.Match? && Skip(s, r.pos) == |s|
    ensures o.Ok? ==> o.value == r.value
    ensures r.Abort? ==> o == Err(r.error)
    ensures !r.Abort? && !o.Ok? ==> o == Err(SyntaxError(s))
  {
    match r
    case Match(v, q) => if Skip(s, q) == |s| then Ok(v) else Err(SyntaxError(s))
    case NoMatch => Err(SyntaxError(s))
    case Abort(e) => Err(e)
  }

  function Parse(s: string, reg: Registry): (r: Result<Formula, QueryError>)
    ensures r.Ok? ==> FormulaRule(s, 0, reg).Match? && Skip(s, FormulaRule(s, 0, reg).pos) == |s|
  {
    Complete(s, FormulaRule(s, 0, reg))
  }

  function ParsePredicate(s: string, reg: Registry): (r: Result<Term, QueryError>)
    ensures r.Ok? ==> r.value.Pred?
  {
    Complete(s, Predicate(s, 0, reg))
  }

  /** The constant rule is a lexeme: whitespace is skipped before and
      after it only. */
  function ParseConstant(s: string, reg: Registry): (r: Result<Term, QueryError>)
    ensures r.Ok? ==> IsConstant(r.value)
  {
    Complete(s, Constant(s, Skip(s, 0), reg))
  }

  function ParseRawAtom(s: string, reg: Registry): (r: Result<string, QueryError>)
    ensures r.Err? ==> r.error.SyntaxError? || r.error.UnknownPrefix?
  {
    Complete(s, AtomRaw(s, Skip(s, 0), reg))
  }
}
