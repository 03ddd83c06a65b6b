# KnowRob query core, modelled in Dafny

This project models the sequential core of the KnowRob knowledge base and
proves properties of the model. It covers six pieces.

- **The older term generation** (`src/lang/terms.cpp`):
  - terms and predicate indicators, and the cached groundness flag;
  - `Predicate::applySubstitution`;
  - the map-backed `Substitution`: `set`, `get`, `contains` and `erase`, plus `combine` and `rollBack` with their `Added`/`Replaced` undo log;
  - the `Unifier`: `unify` and `apply`.
- **The newer `Substitution`** (`src/terms/Substitution.cpp`): the insert-only `set`, `get` and `contains`; `unifyWith` with its `Reversible` undo queue; `computeHash` in wrapping 64-bit arithmetic; and printing.
- **The query language** (`src/queries/QueryParser.cpp`):
  - the grammar, as a recursive-descent parser with ordered choice;
  - whole-input parsing by the four entry points;
  - `ns:entity` IRI expansion;
  - the option builders of the modal operators K, B, P and H.
- **The IRI prefix registry** (`src/semweb/PrefixRegistry.cpp`): its default aliases, a trailing `#` stripped on registration and lookup, and `createIRI`.
- **The reasoner registry** (`src/reasoner.cpp`):
  - data-file handler dispatch;
  - factory and pool bookkeeping;
  - the plugin cache;
  - reasoner ids and indices in `loadReasoner`;
  - the flattening of a configuration tree into `":"(k1, k2)` setting keys.
- **Query planning helpers** (`src/KnowledgeBase.cpp`):
  - the neighbour priority `CompareNodes`;
  - `createComputationSequence`, a depth-first walk over a dependency group;
  - the split of a graph query's literals into negated, stored-only and computable ones;
  - the all-backends `insert` status.

Modules:
- `Wrappers` holds `Option` and `Result`.
- `Terms` and `Unification` model the older generation.
- `Substitution` models the newer one.
- `PrefixRegistry` models the IRI registry.
- `Formulas` defines the formula type.
- `ModalOptions` holds the modal option builders.
- The parser is split across four modules:
  - `Lexer`: the token level.
  - `QueryParser`: the grammar and entry points.
  - `QueryParserSteps`: one-rule unfolding facts.
  - `QueryParserLemmas` and `QueryParserExamples`: the parse results proved from those facts.
- `Reasoner` and `KnowledgeBase` model the last two pieces.

Several things are parameters rather than modelled behaviour:
- a dynamic library being opened;
- a reasoner accepting its configuration;
- `canEvaluate` and `isCurrentPredicate`;
- a data-file loader;
- a knowledge graph's insert;
- the key and term hash functions;
- the printing of a term;
- the unifier of the newer generation.

A parser result is one of three outcomes:
- `Match(value, position)`;
- `NoMatch`, where ordered choice tries the next alternative;
- `Abort(error)`, a `QueryError` thrown from inside a rule, which no alternative can catch.

## Model

| member | source | states |
|---|---|---|
| Terms.IndicatorOf | src/lang/terms.cpp:129-138 | a predicate's indicator carries its functor, and its arity is the argument count |
| Terms.IsGroundScan | src/lang/terms.cpp:140-146 | the scan that stops at the first non-ground argument answers true exactly when every argument is ground |
| Terms.GroundIffNoVars | src/lang/terms.cpp:140-146 | a term is ground exactly when no variable occurs in it |
| Terms.Set | src/lang/terms.cpp:204-207 | after `set`, the variable is contained and bound to the new term, and with that variable erased the map equals the old map with it erased: an earlier binding is overwritten and nothing else changes |
| Terms.SetOverwrites | src/lang/terms.cpp:204-207 | setting a variable twice is the same as setting it once to the second term |
| Terms.Contains | src/lang/terms.cpp:209-212 | `contains` holds exactly when erasing the variable changes the map |
| Terms.Erase | src/lang/terms.cpp:214-217 | `erase` removes exactly that key and keeps every other binding |
| Terms.Get | src/lang/terms.cpp:219-230 | `get` finds a term exactly for a contained variable, and setting the variable to the term found gives the same map back |
| Terms.ApplySubstitution | src/lang/terms.cpp:148-188 | the result keeps the indicator; a bound variable argument is replaced by its binding; an unbound variable, a constant or a ground sub-predicate stays; a non-ground sub-predicate is rebuilt with substituted arguments |
| Terms.SubstituteUnbound | src/lang/terms.cpp:148-183 | a term none of whose variables is bound is returned unchanged |
| Terms.SubstituteGrounds | src/lang/terms.cpp:148-183 | when every variable is bound to a ground term, the substituted term is ground |
| Terms.SubstituteVars | src/lang/terms.cpp:148-183 | every variable left after substitution was either unbound in the input or brought in by a binding that was used |
| Terms.SubstituteOneStep | src/lang/terms.cpp:155-166 | a binding is not dereferenced again: with X bound to Y and Y bound to a, X becomes Y |
| Terms.SubstituteIdempotent | src/lang/terms.cpp:148-183 | when no bound term mentions a bound variable, substituting twice equals substituting once |
| Unification.UnifyMatches | src/lang/terms.cpp:307-368 | `unify` succeeds exactly when the loop-free reference relation holds; that relation is: a variable on either side matches; constants match iff they are of the same kind and value; Top and Bottom match only themselves; a predicate fails against a non-predicate; two predicates match iff their arguments match pairwise over the first term's arity |
| Unification.MatchesReflexive | src/lang/terms.cpp:307-368 | every term of the older generation unifies with itself |
| Unification.UnifyGroundKeepsMapping | src/lang/terms.cpp:307-368 | unifying two ground terms binds nothing |
| Unification.UnifySelfGround | src/lang/terms.cpp:307-368 | a ground term unifies with itself and leaves the mapping unchanged |
| Unification.UnifyBindsLeftVars | src/lang/terms.cpp:317-323 | when unification against a ground term succeeds, exactly the variables of the left term become bound |
| Unification.UnifyIgnoresFunctor | src/lang/terms.cpp:333-334 | the functor/arity test compares the first predicate with itself, so p(a) unifies with q(a) and with q(a, b) |
| Unification.RepeatedVariableKeepsLastBinding | src/lang/terms.cpp:204-207 | a variable that occurs twice keeps its last binding: p(X, X) unifies with p(a, b) and binds X to b only |
| Unification.Apply | src/lang/terms.cpp:370-401 | `apply` gives Bottom when no unifier exists, and the left term when the unifier is empty, the left term is ground or the right term is a variable |
| Unification.ApplyGround | src/lang/terms.cpp:370-401 | when either side is ground, the merged term is ground; when only the right side is ground, the merged term is the right term |
| Unification.ApplyVariableConstant | src/lang/terms.cpp:317-323 | unifying X with a binds X to a, and `apply` gives a |
| Unification.ApplyDistinctConstants | src/lang/terms.cpp:345-360 | distinct constants of one kind have no unifier, and `apply` gives Bottom |
| Unification.CombineSpec | src/lang/terms.cpp:232-261 | `combine` succeeds exactly when no entry of the other substitution clashes with the binding it meets; otherwise it stops at the first clash; each processed entry is logged, as `Replaced(old)` for a bound key and `Added` for a new one; the mapping is the old one merged with the processed entries, each merged through `apply` |
| Unification.CombineRollBack | src/lang/terms.cpp:232-296 | rolling back the log `combine` wrote restores the exact mapping it started from, whether it succeeded or failed |
| Substitution.Set | src/terms/Substitution.cpp:23-26 | `set` never overwrites: a bound variable keeps its term, and an unbound one is inserted |
| Substitution.SetKeepsFirst | src/terms/Substitution.cpp:23-26 | setting a fresh variable twice keeps the first term |
| Substitution.Contains | src/terms/Substitution.cpp:28-31 | `contains` holds exactly when no `set` of the variable can change the bindings |
| Substitution.Get | src/terms/Substitution.cpp:33-44 | an absent variable gives the null pointer; for a contained one, `set` of the pointer found, on the bindings without the variable, gives the bindings back |
| Substitution.GetCannotTellNullFromUnbound | src/terms/Substitution.cpp:33-49 | a variable bound to the null pointer and an absent variable give the same `get`, although `contains` tells them apart |
| Substitution.Push | src/terms/Substitution.cpp:87-99 | a null queue pointer stays null; a queue grows by exactly one entry, for the entry's key, and rolling it back undoes that entry after everything queued before it |
| Substitution.UnifyWithSpec | src/terms/Substitution.cpp:80-109 | `unifyWith` succeeds exactly when no entry meets a binding without a unifier; it stops at the first such entry; the entries before it are merged in (a new variable takes its own term, a bound one the unifier's result) and every other binding is untouched, on success and on failure alike; the queue gains exactly one entry per processed entry, for that entry's key |
| Substitution.UnifyWithRollBack | src/terms/Substitution.cpp:14-21 | rolling back the queue `unifyWith` filled restores the bindings it started from, whether it succeeded or failed |
| Substitution.NullReversibleSameOutcome | src/terms/Substitution.cpp:80-109 | with a null queue pointer nothing is recorded, and the outcome and bindings equal those of a recording call |
| Substitution.ComputeHash | src/terms/Substitution.cpp:51-78 | the loop computes `Hash`, the fold over the entries in iteration order (what each binding adds to that fold is stated by `Substitution.HashSnoc` and `Substitution.HashSmall`); an empty substitution hashes to 0 |
| Substitution.HashSnoc | src/terms/Substitution.cpp:57-75 | each further binding adds exactly two mixing steps to the hash of the bindings before it |
| Substitution.NullHashesAsZero | src/terms/Substitution.cpp:61-64 | a null value hashes like a term whose hash is 0 |
| Substitution.HashSmall | src/terms/Substitution.cpp:53-74 | the empty hash is 0, and a single binding is mixed with 0x9e3779b9 in wrapping 64-bit arithmetic |
| Substitution.MixOrderMatters | src/terms/Substitution.cpp:73-74 | the combiner is not commutative: mixing 1 then 2 differs from mixing 2 then 1 |
| Substitution.Print | src/terms/Substitution.cpp:113-122 | the text is `{`, then the `name: term` entries separated by `,`, then `}`; every entry's text sits at its own offset, one past the end of the entry before it and the comma after it, and the closing `}` follows the last entry directly; an empty substitution prints `{}` |
| Substitution.PrintOne | src/terms/Substitution.cpp:113-122 | the substitution X = a prints as `{X: a}` |
| PrefixRegistry.StripHash | src/semweb/PrefixRegistry.cpp:25-28 | one trailing `#` is removed, and nothing else changes |
| PrefixRegistry.RegisterPrefix | src/semweb/PrefixRegistry.cpp:24-36 | after registering, the alias looks up the URI without its trailing `#`, the URI (with or without it) looks up the alias, and every IRI under the alias is built on that URI; every other alias and every URI that strips differently look up what they did before |
| PrefixRegistry.AliasToUriMapsBack | src/semweb/PrefixRegistry.cpp:38-53 | in a linked registry, the URI an alias looks up, written with its `#`, looks up an alias again |
| PrefixRegistry.CreateIRIMapsBack | src/semweb/PrefixRegistry.cpp:38-62 | an IRI ends in its entity name, and in a linked registry the part before the name looks up an alias |
| PrefixRegistry.Default | src/semweb/PrefixRegistry.cpp:11-17 | a fresh registry knows exactly the aliases owl, rdf, rdfs, xsd and dul, each looking up its standard namespace; each of those namespaces, written with `#`, looks up its alias, and no other URI is registered |
| PrefixRegistry.DefaultLinked | src/semweb/PrefixRegistry.cpp:11-17 | the fresh registry is linked: every alias found for a URI is registered, and every URI an alias looks up has an alias |
| PrefixRegistry.RegisterKeepsLinked | src/semweb/PrefixRegistry.cpp:24-36 | the empty registry is linked, and registering keeps a registry linked |
| PrefixRegistry.RegisterThenLookup | src/semweb/PrefixRegistry.cpp:24-53 | after registering, the alias looks up the stripped URI, and the URI looks up the alias |
| PrefixRegistry.RegisterKeepsOthers | src/semweb/PrefixRegistry.cpp:24-36 | registering leaves other aliases and other URIs unchanged |
| PrefixRegistry.UriToAliasIgnoresHash | src/semweb/PrefixRegistry.cpp:38-48 | a URI and the same URI with `#` appended give the same alias |
| PrefixRegistry.OnlyOneHashStripped | src/semweb/PrefixRegistry.cpp:38-48 | only one `#` is stripped: `x##` does not find the alias of `x` |
| PrefixRegistry.CreateIRIExample | src/queries/QueryParser.cpp:548 | `owl` with `foo` gives `http://www.w3.org/2002/07/owl#foo` |
| PrefixRegistry.CreateIRIUnknown | src/semweb/PrefixRegistry.cpp:55-62 | an alias the fresh registry does not know gives no IRI |
| Formulas.Conj | src/queries/QueryParser.cpp:388-392 | the conjunction of two formulas lists the conjuncts of both operands, an operand that is itself a conjunction contributing its parts |
| Formulas.ConjAssociative | src/queries/QueryParser.cpp:388-392 | building conjunctions is associative, so a chain gives one flat conjunction however it is grouped |
| Formulas.Disj | src/queries/QueryParser.cpp:393-397 | the disjunction of two formulas lists the disjuncts of both operands, flattening nested disjunctions |
| Formulas.DisjAssociative | src/queries/QueryParser.cpp:393-397 | building disjunctions is associative |
| Formulas.SymbolNamesKind | src/queries/QueryParser.cpp:519-533 | two modal operators are written with the same letter exactly when they are of the same kind |
| ModalOptions.NormalizeAgent | src/queries/QueryParser.cpp:164-166 | the agent `self` means no agent |
| ModalOptions.CreateK | src/queries/QueryParser.cpp:133-170 | an operator built from options is a knowledge operator; nil options give plain K |
| ModalOptions.CreateKSpec | src/queries/QueryParser.cpp:133-170 | K accepts exactly the empty list and a single agent option, either an unkeyed string or `agent`/`a` with a string value; the agent is kept unless it is `self`; any other list reports an unrecognised option from the list |
| ModalOptions.CreateB | src/queries/QueryParser.cpp:172-230 | an operator built from options is a belief operator; nil options give plain B |
| ModalOptions.ReadBSpec | src/queries/QueryParser.cpp:179-211 | the option loop fills the agent and the confidence at most once each: from an unkeyed string or double, or from `agent`/`a` and `confidence`/`c` keys; it stops at the first option that fits no empty slot and reports that option |
| ModalOptions.CreateBSpec | src/queries/QueryParser.cpp:172-230 | B succeeds exactly when every option fills a slot; the agent and confidence are those read, with `self` dropped; an error names the first option that fits no free slot |
| ModalOptions.CreateBExamples | src/queries/QueryParser.cpp:658-665 | `B[fred,confidence=0.8]` and `B[c=0.8,fred]` give agent fred and confidence 0.8; `B[self,0.5]` gives no agent and confidence 0.5 |
| ModalOptions.CreateBErrors | src/queries/QueryParser.cpp:676-679 | `B[0.8,0.8]` and `B[foo=fred]` are rejected as unrecognised options |
| ModalOptions.CreateP | src/queries/QueryParser.cpp:282-291 | an operator built from options is a past-once operator; nil options give plain P |
| ModalOptions.CreateH | src/queries/QueryParser.cpp:293-302 | an operator built from options is a past-always operator; nil options give plain H |
| ModalOptions.ReadTimesSpec | src/queries/QueryParser.cpp:232-280 | `readTimeInterval` accepts exactly when every option in turn fits a free slot: begin and then end from unkeyed doubles, or the slot its `begin`/`since` or `end`/`until` key names; each filled slot holds the value of the option that filled it, and an unfilled slot keeps its value; an error names the first option that fits no free slot |
| ModalOptions.CreatePSpec | src/queries/QueryParser.cpp:232-302 | P accepts exactly when every option in turn fits a free time slot, so at most two options; the interval holds the values that filled begin and end and is absent only for an empty list; an error names the first misfit; H accepts and rejects the same lists |
| ModalOptions.PositionalTimes | src/queries/QueryParser.cpp:667-673 | one double is the begin time, two are begin and end, and a third is rejected |
| ModalOptions.KeyedTimes | src/queries/QueryParser.cpp:667-673 | `since`/`until` give begin and end; an unkeyed double after `begin=` becomes the end, while one before it takes the begin slot, so the key is then rejected |
| Lexer.Skip | src/queries/QueryParser.cpp:38-41 | the skipper stops inside the input, at its end or at a character that is not a space |
| Lexer.SkipOnlySpaces | src/queries/QueryParser.cpp:38-41 | every character the skipper passes over is a space, so with `Skip`'s own contract it stops at the first non-space |
| Lexer.WordEnd | src/queries/QueryParser.cpp:313-314 | a word ends inside the input, at its end or at a character that is neither alphanumeric nor `_` |
| Lexer.WordEndOnlyWordChars | src/queries/QueryParser.cpp:313-314 | every character of the run is alphanumeric or `_`, so with `WordEnd`'s own contract the word ends at the first character that cannot continue it |
| Lexer.Word | src/queries/QueryParser.cpp:313-314 | a word matches exactly when the first character has the required initial, and its text is the characters consumed |
| Lexer.Quoted | src/queries/QueryParser.cpp:311-312 | a quoted match starts and ends with the quote and holds at least one character |
| Lexer.QuotedHasNoQuote | src/queries/QueryParser.cpp:311-312 | the text of a quoted match never contains the quote |
| Lexer.QuotedComplete | src/queries/QueryParser.cpp:311-312 | a non-empty quote-free text between two quotes is matched whole, without the quotes |
| Lexer.Number | src/queries/QueryParser.cpp:334-335 | a number match consumes at least one character |
| Lexer.NumberOfDigits | src/queries/QueryParser.cpp:537-539 | a run of digits reads as its decimal value |
| Lexer.NumberSignedFraction | src/queries/QueryParser.cpp:540 | `-45.64` reads as -45.64 |
| Lexer.NumberExponent | src/queries/QueryParser.cpp:334-335 | `2.5e2` reads as 250 |
| Lexer.NumberEdges | src/queries/QueryParser.cpp:334-335 | an exponent without digits is not consumed; a leading `.5` is a number; a lone sign or dot is not |
| QueryParser.Iri | src/queries/QueryParser.cpp:111-119 | an `ns:entity` match stays in the input, and the only error it raises is an unregistered prefix |
| QueryParser.IriExpands | src/queries/QueryParser.cpp:320-326 | an `ns:entity` match is the IRI `createIRI` builds from the word before the colon and the entity after it; an abort names exactly that prefix and entity, which `createIRI` does not know |
| QueryParser.KeyValue | src/queries/QueryParser.cpp:339-341 | a key-value option is the predicate `=` with two arguments |
| QueryParser.Constant | src/queries/QueryParser.cpp:349 | a constant is a string or number term |
| QueryParser.Variable | src/queries/QueryParser.cpp:352 | a variable matches exactly at an uppercase letter, and is named by the word read |
| QueryParser.Compound | src/queries/QueryParser.cpp:354-356 | a compound argument is a predicate with at least one argument |
| QueryParser.BuildModal | src/queries/QueryParser.cpp:374-381 | the operator built for a prefix letter has that letter as its symbol |
| QueryParser.EveryLetterBuilds | src/queries/QueryParser.cpp:374-381 | without options each of B, K, P and H builds an operator, written with that letter |
| QueryParser.Unary | src/queries/QueryParser.cpp:384 | a unary formula is a modal formula, a negation or a predicate |
| QueryParser.Conjunct | src/queries/QueryParser.cpp:388-392 | the conjunction rule never yields a disjunction or an implication, so `,` binds tighter than `;` and `->` |
| QueryParser.Disjunct | src/queries/QueryParser.cpp:393-397 | the disjunction rule never yields an implication, so `;` binds tighter than `->` |
| QueryParser.ImpliesTail | src/queries/QueryParser.cpp:398-402 | an implication keeps the operand read before `->` as its left side |
| QueryParser.Complete | src/queries/QueryParser.cpp:412-425 | an entry point succeeds exactly when its rule matches and only spaces remain; an error raised inside the rule is passed on; every other failure is a syntax error naming the input |
| QueryParser.Parse | src/queries/QueryParser.cpp:432-434 | `parse` succeeds only when the formula rule matches and consumes the whole input |
| QueryParser.ParsePredicate | src/queries/QueryParser.cpp:436-438 | `parsePredicate` yields a predicate |
| QueryParser.ParseConstant | src/queries/QueryParser.cpp:440-442 | `parseConstant` yields a string or number term |
| QueryParser.ParseRawAtom | src/queries/QueryParser.cpp:444-446 | `parseRawAtom` fails only with a syntax error or an unregistered prefix |
| QueryParserLemmas.AtomRawWord | src/queries/QueryParser.cpp:313-317 | a lowercase-led word not followed by `:` is a raw atom spelled as written |
| QueryParserLemmas.ArgumentVariable | src/queries/QueryParser.cpp:352-357 | an uppercase-led word is a variable argument |
| QueryParserLemmas.UnaryNullary | src/queries/QueryParser.cpp:361-365 | a lowercase word not followed by `(` or `:` is a nullary predicate |
| QueryParserLemmas.ConjunctLink | src/queries/QueryParser.cpp:388-392 | a unary formula, then `,` or `&`, then a conjunction, is their conjunction |
| QueryParserLemmas.DisjunctLink | src/queries/QueryParser.cpp:393-397 | a conjunction, then `;` or `\|`, then a disjunction, is their disjunction |
| QueryParserLemmas.ImpliesLink | src/queries/QueryParser.cpp:398-404 | a disjunction, then `->`, then an implication, is an implication with the right side nested, so `->` associates to the right |
| QueryParserLemmas.FormulaSingle | src/queries/QueryParser.cpp:398-404 | a disjunction not followed by `->` is the whole formula |
| QueryParserLemmas.AbortPropagates | src/queries/QueryParser.cpp:374-404 | an error raised in a unary formula aborts the whole formula |
| QueryParserLemmas.ParseConjunctionOfNames | src/queries/QueryParser.cpp:603-616 | names joined by commas parse as one flat conjunction of nullary predicates |
| QueryParserLemmas.ElementsFromKeeps | src/queries/QueryParser.cpp:343-357 | the elements a list loop has collected stay at the front of its result |
| QueryParserLemmas.PredicateOfChain | src/queries/QueryParser.cpp:361-365 | a name followed by a parenthesised argument chain parses as the predicate with those arguments, and its arity is their number |
| QueryParserLemmas.ParsePredicateRoundTrip | src/queries/QueryParser.cpp:572-585 | printing a predicate whose arguments are variables and plain atoms, then parsing it, gives the same predicate back |
| QueryParserExamples.ConjunctionFirst | src/queries/QueryParser.cpp:690-692 | `a,b;c` is a disjunction whose left side is the conjunction of a and b |
| QueryParserExamples.ConjunctionSecond | src/queries/QueryParser.cpp:687-689 | `a;b,c` is a disjunction whose right side is the conjunction of b and c |
| QueryParserExamples.ImplicationRight | src/queries/QueryParser.cpp:699-701 | `a,b->c->d` is an implication from the conjunction of a and b to the implication from c to d |
| QueryParserExamples.ImplicationOfDisjunction | src/queries/QueryParser.cpp:696-698 | `a,b->c;d` is an implication from a conjunction to a disjunction |
| QueryParserExamples.PrecedenceConjunctionFirst | src/queries/QueryParser.cpp:690-692 | `p,q;r` parses as the disjunction of p,q and r |
| QueryParserExamples.PrecedenceConjunctionSecond | src/queries/QueryParser.cpp:687-689 | `p;q,r` parses as the disjunction of p and q,r |
| QueryParserExamples.PrecedenceImplicationRight | src/queries/QueryParser.cpp:699-701 | `p,q->r->p` parses as the implication from p,q to the implication from r to p |
| QueryParserExamples.PrecedenceImplicationLast | src/queries/QueryParser.cpp:696-698 | `p,q->r;p` parses as the implication from p,q to r;p |
| QueryParserExamples.NestedBelief | src/queries/QueryParser.cpp:654 | `BBq` parses as a belief about a belief about q |
| QueryParserExamples.TenthsOption | src/queries/QueryParser.cpp:334-344 | a digit, a dot and a digit read as one number option |
| QueryParserExamples.LetterPredicate | src/queries/QueryParser.cpp:361-365 | `f(x)` is a unary predicate whose argument is the atom x |
| QueryParserExamples.SecondConfidence | src/queries/QueryParser.cpp:185-189 | a second unkeyed confidence is an unrecognised option |
| QueryParserExamples.TwoTenths | src/queries/QueryParser.cpp:343-345 | `[v,v]` is read as an option list of two equal numbers |
| QueryParserExamples.RepeatedConfidence | src/queries/QueryParser.cpp:374-375 | a belief with a repeated confidence aborts the whole parse, naming the repeated value |
| QueryParserExamples.RepeatedConfidenceRejected | src/queries/QueryParser.cpp:678 | `B[0.8,0.8] p(x)` is rejected as an unrecognised option 0.8 |
| QueryParserExamples.PrefixedAtom | src/queries/QueryParser.cpp:548 | `owl:foo` expands to the IRI in the OWL namespace |
| QueryParserExamples.PrefixedAtomWith | src/queries/QueryParser.cpp:320-326 | in any registry, `owl:foo` parses to whatever IRI `createIRI` builds for owl and foo |
| QueryParserExamples.UnknownPrefixAtom | src/queries/QueryParser.cpp:111-119 | `foo:bar` reports the unregistered prefix foo with the entity bar |
| QueryParserExamples.UnknownPrefixAtomWith | src/queries/QueryParser.cpp:111-119 | in any registry where foo is unknown, `foo:bar` fails with that prefix error |
| QueryParserExamples.PredicateOverVariableAndAtom | src/queries/QueryParser.cpp:573-575 | `p(X,a)` is the predicate p over the variable X and the atom a |
| QueryParserExamples.PartialInputsRejected | src/queries/QueryParser.cpp:566-570 | `p(x)` and `p,q` are not constants, and `p,q` is not a predicate: each is a syntax error |
| QueryParserExamples.WrongKindRejected | src/queries/QueryParser.cpp:597-601 | `X1` is neither a constant nor a predicate, and `2` is not a predicate |
| Reasoner.LoadPropertyTree | src/reasoner.cpp:209-239 | the settings are those of the top-level keys in order; without `data-sources` there are no data files, and with it the data files are the ones read from its children |
| Reasoner.FilesFrom | src/reasoner.cpp:224-238 | every data file read names the `file` value of some data source, and there are at most as many as sources |
| Reasoner.FileOf | src/reasoner.cpp:229-232 | a source's data file has the `file` value as its path and the `format` value, or the empty format when there is none |
| Reasoner.FileSources | src/reasoner.cpp:226-233 | the positions listed are sources that name a file, in increasing order |
| Reasoner.FileSourcesComplete | src/reasoner.cpp:226-233 | no source that names a file is missing from those positions |
| Reasoner.FilesFromSelects | src/reasoner.cpp:224-237 | the files read are, in source order, exactly one data file per source with a `file` key; a source without one contributes nothing |
| Reasoner.FilesFromComplete | src/reasoner.cpp:229-233 | every source with a `file` key contributes its data file |
| Reasoner.DataSourcesExample | src/reasoner.cpp:224-237 | of three sources, the first keeps its format, the second (no `file`) is skipped and the third gets the empty format |
| Reasoner.Encode | src/reasoner.cpp:241-264 | each leaf becomes one setting, whose key nests `":"` over the leaf's path and whose value is the leaf's string |
| Reasoner.SettingsAreLeaves | src/reasoner.cpp:241-264 | the settings of a subtree are exactly its leaves, encoded in order |
| Reasoner.NestReadsBack | src/reasoner.cpp:254 | the nested `":"` key reads back as the parent key's path followed by the child keys |
| Reasoner.LeafPathsNonEmpty | src/reasoner.cpp:246-251 | no key on a leaf's path is empty, because list children are skipped |
| Reasoner.SettingsExample | src/reasoner.cpp:209-264 | a tree with a nested key, a list child and a top-level leaf gives the settings `":"(a, b)` = 1 and `c` = 2, in order, skipping the list child and the `data-sources` list |
| Reasoner.AddDataFileHandler | src/reasoner.cpp:26-29 | registering a handler replaces any earlier one for that format and keeps the others |
| Reasoner.LoadDataFile | src/reasoner.cpp:31-47 | a file whose format is not unknown and has no handler is not loaded |
| Reasoner.LoadedThroughHandler | src/reasoner.cpp:31-47 | with the default unknown-format loader, a file loads exactly when its format is not unknown, has a handler, and that handler succeeds |
| Reasoner.LastHandlerDecides | src/reasoner.cpp:26-47 | after registering a handler for a format, files of that format go to it, and other files are dispatched as before |
| Reasoner.AddReasonerFactory | src/reasoner.cpp:134-137 | registering a factory replaces any earlier one of that name and changes nothing else |
| Reasoner.NewManager | src/reasoner.cpp:53-62 | a new manager has exactly the Mongolog, Prolog, ESG and SWRL factories, no plugins, an empty pool and index 0 |
| Reasoner.FactoryReplaced | src/reasoner.cpp:134-137 | registering two factories under one name keeps only the second |
| Reasoner.Select | src/reasoner.cpp:149-158 | selection keeps exactly the pool members that pass the test |
| Reasoner.SelectAppend | src/reasoner.cpp:149-158 | selection preserves pool order: selecting from two joined pools joins the selections |
| Reasoner.ReasonersForPredicate | src/reasoner.cpp:149-158 | the loop returns exactly the pool members for which the predicate is current, in pool order |
| Reasoner.AddReasoner | src/reasoner.cpp:139-142 | adding appends the reasoner to the pool and changes nothing else |
| Reasoner.RemoveReasoner | src/reasoner.cpp:144-147 | removing deletes that reasoner, by identity, and keeps every other member |
| Reasoner.LoadKeepsFresh | src/reasoner.cpp:64-114 | loading keeps every pooled reasoner older than the manager's index, so a reasoner it adds is not already pooled |
| Reasoner.RemoveKeepsTwin | src/reasoner.cpp:64-147 | loading one configuration twice pools two distinct reasoners, and removing the first keeps the second |
| Reasoner.RemoveUndoesAdd | src/reasoner.cpp:139-147 | removing a reasoner that was just added to a pool not holding it gives the manager back |
| Reasoner.SelectNone | src/reasoner.cpp:149-158 | when every member passes, selection returns the whole pool |
| Reasoner.LoadReasonerPlugin | src/reasoner.cpp:116-132 | a path is cached once and a cached path changes nothing; a new path adds one cache entry, loaded exactly when the library opens, and leaves every other entry as it was; a factory is returned exactly when the cached plugin is loaded, so on a first request exactly when the library opens |
| Reasoner.PluginCached | src/reasoner.cpp:116-132 | a second request for a path gives the first answer, whatever the library would do now, so a failed load is never retried |
| Reasoner.ReasonerId | src/reasoner.cpp:94-100 | a configured `name` is the reasoner's id; otherwise the id is the factory's name followed by the decimal index |
| Reasoner.FindFactory | src/reasoner.cpp:66-87 | with a `lib`, a plugin factory exactly when that library loaded, which on a first request for it means exactly when it opens, and only that cache entry is added; a cached `lib` leaves the manager unchanged; otherwise with a `type`, the factory registered under it, and none if there is none; with neither key, no factory; only loading a plugin changes the manager |
| Reasoner.DistinctIndices | src/reasoner.cpp:94-100 | without a `name`, reasoners created at different indices get different ids |
| Reasoner.NatToStringReadsBack | src/reasoner.cpp:99 | the decimal text of the index reads back as the index |
| Reasoner.LoadReasoner | src/reasoner.cpp:64-114 | without a factory, loading fails and leaves the pool and index unchanged; otherwise the index grows by one, the new reasoner is told apart by the index it was created at, and the id is the name or factory plus index; the reasoner joins the pool exactly when it accepts its configuration; with a `lib`, the factory comes from that plugin; the new reasoner's factory is the one the lookup found; the plugin cache is changed only by that lookup |
| Reasoner.LibBeforeType | src/reasoner.cpp:72-85 | when both `lib` and `type` are given, the plugin decides and `type` is ignored |
| KnowledgeBase.PreferStrictTotal | src/KnowledgeBase.cpp:48-63 | the neighbour priority is irreflexive, total on distinct nodes and transitive |
| KnowledgeBase.Best | src/KnowledgeBase.cpp:66-78 | the top of a neighbour queue is one of its nodes, preferred over every other |
| KnowledgeBase.PopUnvisited | src/KnowledgeBase.cpp:259-269 | popping yields the preferred unvisited neighbour and drops only visited nodes before it; when every neighbour was visited, it yields none and empties the queue |
| KnowledgeBase.ClosedHoldsReachable | src/KnowledgeBase.cpp:256-284 | a node set closed under neighbour links that holds the start holds every node reachable from it |
| KnowledgeBase.PickFirst | src/KnowledgeBase.cpp:228-237 | the first node has the fewest neighbours in the group and is the earliest such node |
| KnowledgeBase.ComputationSequence | src/KnowledgeBase.cpp:225-285 | the sequence starts at the earliest node with the fewest neighbours, lists no node twice, and every later node neighbours an earlier one; it holds exactly the nodes reachable from the start; each later node is an unlisted neighbour of the latest listed node that still has one, preferred by the priority over that node's other unlisted neighbours |
| KnowledgeBase.ChosenUnique | src/KnowledgeBase.cpp:256-284 | the walk's rule admits at most one node to list next, so the order is fixed by the rule |
| KnowledgeBase.AllChosenAt | src/KnowledgeBase.cpp:256-284 | in a walk that followed the rule, the node at every later position was the rule's choice after the nodes before it |
| KnowledgeBase.SequenceExample | src/KnowledgeBase.cpp:225-285 | in a three-node chain, the walk starts at the end with the fewest neighbours and follows the chain |
| KnowledgeBase.PriorityExample | src/KnowledgeBase.cpp:48-63 | when a node queues 3 before 2 but 2 has fewer variables, the walk from 1 lists 1, 0, 2, 3 |
| KnowledgeBase.FlagsPartition | src/KnowledgeBase.cpp:356-360 | the positive and negated literals together are exactly the query's literals |
| KnowledgeBase.SplitLiterals | src/KnowledgeBase.cpp:356-360 | the loop puts the negated literals in one list and the others in the second, each in query order |
| KnowledgeBase.Evaluators | src/KnowledgeBase.cpp:373-377 | a literal's reasoners are exactly the pool members that can evaluate it |
| KnowledgeBase.SplitPositive | src/KnowledgeBase.cpp:371-381 | each positive literal goes to exactly one list: stored-only when no reasoner can evaluate it, otherwise computable together with its reasoners in pool order |
| KnowledgeBase.InsertAll | src/KnowledgeBase.cpp:496-519 | every knowledge graph is attempted, and the status is true exactly when every insert succeeded |

## Left out

- Logging, I/O and concurrency are not modelled. Warnings have no effect on the results modelled here.
- Numbers are read as exact reals: sign, digits, an optional fraction and an optional exponent. Rounding to `double`, `nan` and `inf` are not modelled.
- Lexer.Number: its contract states only that a match consumes input. Its values are stated by `Lexer.NumberOfDigits`, `Lexer.NumberSignedFraction`, `Lexer.NumberExponent` and `Lexer.NumberEdges`.
- The tests with empty options, `P[,10.0]` and `P[10,]` (src/queries/QueryParser.cpp:681-684), are not modelled. The option-list rule admits no empty option, and the source marks this as a TODO.
- The tests of modal formulas with option lists (src/queries/QueryParser.cpp:658-673) are not written as whole-input parse lemmas. Their option builders are proved on the same lists by `ModalOptions.CreateBExamples`, `ModalOptions.PositionalTimes` and `ModalOptions.KeyedTimes`.
- Some modal precedence tests (`Bp;r`, `Bp->Kp` and `Bp->~p`) are not written as parse lemmas. Their building blocks are `QueryParserLemmas.DisjunctLink` and `QueryParserLemmas.ImpliesLink`.
- The sort of positive literals by the stored-data comparator, and `PredicateIndicator::operator<`, are not modelled. Neither is a strict weak order. The literal split keeps query order instead.
- `getAliasesWithPrefix` is not modelled; it depends on a probe type that is not part of this model.
- The query pipeline is not modelled. That covers answer buffers and broadcasters, the stored-data and computed stages, `centralKG`, the query tree, and the construction of the dependency graph. It is streaming plumbing around the helpers modelled here.
- The reasoner query protocol and its concurrency (`startQuery`, `pushSubstitution`, `finishQuery`) are not modelled.
- `MongoCursor`, `TFReasoner` and `ComputableReasoner` are not modelled.
- Opening a dynamic library, reading `ptree`/JSON configuration, and a reasoner's `loadConfiguration` are parameters.
- `DataFile::hasUnknownFormat` is a parameter of `Reasoner.LoadDataFile`; `DataFile` is not part of this model.
- `loadDataFileWithUnknownFormat` is a parameter. Its default, which returns false, is `Reasoner.NoUnknownFormat`.
- The newer generation's unifier (`knowrob/terms/Unifier.cpp`) is a function parameter of `unifyWith`; that file is not part of this model.
- `Conjunction` and `Disjunction` are modelled as flattening an operand of their own kind, as the conjunction and disjunction tests expect. `Conjunction.cpp` and `Disjunction.cpp` are not part of this model.
- `Unification.Unify`: requires that every nested pair of predicates gives the second at least as many arguments as the first. The argument loop indexes the second predicate by the first one's arity. This is stronger than needed: a pair after a failing pair is never read.
- The iteration order of `std::map` is abstracted: any duplicate-free enumeration of the entries. `Unification.CombineSpec`, `Substitution.UnifyWithSpec` and `Substitution.ComputeHash` hold for every such order.
- Whitespace: only the formula and predicate rules skip spaces, as in the source. Term-level rules do not.
- `get(name)` and `get(Variable(name))` are one function, because variables are compared by name.
- The reasoner pool is a sequence in insertion order. A reasoner's identity, which the source takes from its pointer, is the manager index at its creation.
- A dependency node's identity is its index in the graph; the source compares node addresses.
- `KnowledgeBase.ComputationSequence`: requires a non-empty group. The source dereferences the first node unconditionally.
- `PrefixRegistry.RegisterPrefix`, `PrefixRegistry.UriToAlias` and `PrefixRegistry.StripHash` require a non-empty URI. The source reads its last character.
- `Substitution.Print`: requires every binding to hold a term. The source dereferences each bound pointer.
- `QueryParser.Parse`, `QueryParser.ParsePredicate`, `QueryParser.ParseConstant` and `QueryParser.ParseRawAtom`: their own contracts state only the shape of a result. The results on concrete inputs and on families of inputs are proved by the lemmas of `QueryParserLemmas` and `QueryParserExamples`.
- `Unification.Apply`: its contract states the first two cases of `apply`. When only the right side is ground, `Unification.ApplyGround` states the third. The case of two non-ground predicates is defined but has no lemma of its own.
- `Reasoner.LoadDataFile`: its contract states only the unregistered-format case. `Reasoner.LoadedThroughHandler` states the full dispatch for the default unknown-format loader.
