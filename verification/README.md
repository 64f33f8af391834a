# SOMTParser in Dafny

SOMTParser reads SMT-LIB and OMT scripts into a shared term DAG and transforms
the formulas it read. This project models the transformations and the state
machines around them, and proves what they promise: compilers from formulas to
normal forms keep the meaning, worklist loops compute what the recursion they
replace would, a partial evaluator is right in every completion of its model,
scope stacks restore what they displaced, graph passes return exactly the
components, and bit strings and literals denote the numbers and bytes they
should. `dafny verify dfyconfig.toml` checks everything.

## How to read it

**Terms.** A DAG node is `(sort, kind, name, children)`. Nodes are hash-consed,
so structural equality of `Terms.Term` is the parser's pointer equality, and a
C++ `unordered_map` keyed by nodes is a `map` keyed by terms. `Terms.Value(t, m)`
is the one meaning everything is measured against: `m` assigns variables, the
converter's temporary variables, function parameters and the interpretations of
operators the front end does not look into. Lets, let chains and defined
functions have a meaning in it too. `Holds` is truth of a Boolean term.

**Builders.** `mkNot`, `mkAnd`, `mkOr`, `mkEq`, `mkDistinct` and `mkXor`
simplify while they build, and several results below hinge on what they drop, so
they are modelled with those simplifications (`Builders`, `EvalBuilders`) and
their exact meaning is proved first.

**Form.** Code that updates tables, vectors or counters is a class whose methods
update the same fields (`CnfConverter.Converter`, `Nnf.Converter`,
`DnfRounds.Eliminator`, `DnfDistribution.Distributor`,
`DatatypeGroups.Grouping`, `RecursiveDatatype.Search`, `Rewriter.Rewriting`,
`LetScope.LetScopes`, `ParserContext.ParserState`); loops are loops with
invariants. Each such method equals a function of the old state, and the
theorems are about that function, or its contract states the result outright.

| group | modules |
|---|---|
| terms and builders | `Terms`, `Grammar` (the formulas), `Builders`, `EvalBuilders`, `Options` |
| conjunctive normal form | `Tseitin` (gates), `CnfEncoder`, `CnfMeaning`, `TopLevelCnf`, `CnfTheorems`, `CnfPipeline` (after negation normal form), `CnfShape`, `CnfSize`, `CnfConverter` |
| negation and disjunctive normal form | `Implications`, `Nnf`, `DnfElimination`, `DnfRounds`, `DnfDistribution`, `DnfFlattening`, `DnfPipeline`, `Formulas` (the promises for every formula) |
| worklist passes | `PostOrder`, `LetExpansion`, `Substitution`, `Inlining`, `Rewriter`, `SizeEstimate` |
| partial evaluation | `EvalValues`, `EvalResults`, `Evaluation` (the function and its meaning), `EvalProgress`, `Evaluator` (the methods) |
| graphs | `Digraph`, `DatatypeGroups`, `RecursiveDatatype` |
| scopes | `LetScope`, `AssertionStack`, `AssertionRuns`, `AssertionContents`, `ParserContext` |
| bit strings and literals | `BitStrings`, `BitVectors`, `SignedDivision`, `BitStructure`, `StringLiterals`, `CodePoints`, `ScientificNotation`, `Numerals` and `Exponents` (readers against printed numbers) |

## What the code does not do

These are properties a reader would expect and the code does not have. Each has
a concrete input, and the theorem beside it says when the property does hold.

- `mkNot` swaps the operator of a comparison. With three or more operands, and
  for string `=` as for integer `=` and `distinct`, that is no negation:
  `Builders.MkNotFailsOnChains`; exactly when it is one: `Builders.MkNotOnChain`.
  Normal form inherits it (`Nnf.NnfSwapsChain`), and so does the encoder: it gives
  such an atom and its `mkNot` complementary literals, so `(and (not (= i j k))
  (not (distinct i j k)))` is satisfiable and its clauses are not
  (`CnfTheorems.ChainsUnsatisfiable`), and a formula in normal form can be false
  where its clauses hold (`CnfTheorems.ChainsInNormalForm`); exactly when the
  second literal is right: `CnfTheorems.ChainLiterals`.
- `distinct` over strings is not among the atoms of the conversions, so swapping a
  string `=` makes a formula they refuse. `toNNF` does so at a negated one, and the
  encoder behind it, which accepts `(not (= s t))`, takes the result for an
  unsupported node: `CnfPipeline.NegatedStringRefused`. `toDNFEliminateAll` ends
  with an error on `(=> (= s t) p)`: `DnfRounds.NegatedStringRaises`. Exactly when
  it does is decided by its two passes (`DnfRounds.Eliminator.ToDnfEliminateAll`);
  formulas with no string `=` below a negation, explicit or introduced, pass both
  conversions: `CnfPipeline.ToCnfCorrect`, `DnfRounds.PositiveConverts`.
- `mkEq` drops `true` and `mkDistinct` drops `false` from three or more Boolean
  operands. Exact conditions: `EvalBuilders.MkEqualOnBooleans`,
  `EvalBuilders.MkDistinctOnBooleans`; an input: `EvalBuilders.MkDistinctOnThree`.
- The evaluator therefore changes the meaning of some terms:
  `Evaluation.TrueOperandDropped`, `Evaluation.FalseOperandDropped`,
  `Evaluation.ChainNegated` and `Evaluation.ChainComparedWithFalse` evaluate a term
  to one that differs from it in an extension of the partial model.
  `Evaluation.EvalExact` is the exact condition at a node;
  `Evaluation.RegularNeverMisfolded` names the terms it never fails on.
- The Tseitin clauses of `=>` define its variable in one direction only:
  `CnfTheorems.ImplicationBelowXor` satisfies the clauses of an asserted formula
  and falsifies the formula. `TopLevelCnf.Faithful` says where `=>` may stand.
- `toNNF` and `toDNFEliminateAll` read `(=> a b c)` as `(or (not a) b)`, which can
  be true where the implication is false and false where it is true:
  `Nnf.NnfDropsConsequent`, `DnfElimination.EliminationDropsConsequent`. For any
  number of operands, exactly when the reading is right:
  `Nnf.NnfImplicationExact`, `DnfElimination.ImplicationExact`.
- `toNNF` caches the expansion of a let under a negation and returns it for the
  plain let: `Nnf.CachePoisoned`. Starting from a correct cache, the cache stays
  correct if and only if the last visit of every let is without a pending
  negation: `Nnf.CacheExact`.
- The loop of `toDNFEliminateAll` runs at most twice, because a memo hit does not
  report a change, and a connective found in the memo can stay in an `and`:
  `DnfRounds.SharedXorStays` is an input, `DnfRounds.FirstPassOverlooks` a family
  of them. Exactly when the table and so the result are free of connectives:
  `DnfRounds.FreeExact`; a formula in which no subformula containing such a
  connective occurs twice is always one: `DnfRounds.UnsharedComplete`. The meaning
  is kept in any case.
- The distributive law multiplies disjunctions out pairwise and goes on reading
  the last product as an `or`. When `mkOr` collapsed that product to a single
  conjunction, its conjuncts are read as disjuncts:
  `DnfDistribution.CollapsedProduct` turns a false formula into a true one.
  `DnfDistribution.DistAndExact` is the exact condition at a node,
  `DnfDistribution.DistHolds` at the root of a formula. The comment in the source
  promises equivalence; conjunctive normal forms do get it
  (`DnfDistribution.CnfDistributes`).
- `flattenDNF` removes one level of nesting in two: of conjunctions nested three
  deep it leaves two (`DnfFlattening.NestedStays`); how deep the result can be:
  `DnfFlattening.FlattenHalves`.
- `substitute` rebuilds a datatype constructor, selector or tester without its
  own name unless its sort is an array: `Substitution.DatatypeNamesLost`, exactly
  when the meaning survives. It also goes into the bodies of called functions, where
  a parameter in a replacement is captured: `Substitution.ParamCaptured`; and it
  renames the definition inside a call: `Substitution.CallNameKept`.
- `popScope` does not always restore the assertion names:
  `AssertionRuns.RenamingRun` ends with a name that never existed outside the
  scope, `AssertionRuns.NameTheftRun` with the two tables no longer inverse to
  each other. `AssertionStack.PopRestoresNames` is the exact condition for one
  pop, `AssertionRuns.UndisturbedRunsRestore` the condition on a whole run.
- `reset-assertions` leaves the recorded sizes of open scopes as they are.
  `AssertionRuns.ResetNests` says exactly when they are still within the current
  ones, `AssertionRuns.EveryRunIsSafe` for which runs that never fails, and
  `AssertionRuns.ResetInsideScope` exactly when a pop right after a reset brings
  back the state at its push.
- `bvSdiv` by zero and `bvSmod` of a negative dividend disagree with the SMT-LIB
  theory of fixed-size bit-vectors: `SignedDivision.SdivByZero`,
  `SignedDivision.SmodStringExact` (exact conditions); what they give instead:
  `SignedDivision.SdivByZeroValue`, `SignedDivision.SmodDeparts`.
- `parseScientificNotation` accepts a rational mantissa. A nonnegative exponent
  appends its zeros to the denominator, a negative one puts a point beside the
  slash, and a zero numerator disappears; the denominator is read with base zero,
  so that a leading zero makes it octal: `ScientificNotation.RationalMantissa`
  (exactly when the result is a number), `ScientificNotation.RationalValue`
  (exactly when it is the right one).

## Model

| member | source | states |
|---|---|---|
| CnfTheorems.TseitinExtends | src/frontend/conv_parser.cpp:369-652 | Every valuation in which mkNot negates the atoms extends to the fresh variables, leaving every older variable alone, so that all emitted clauses hold, every abstracted atom agrees with its variable, and the returned literal and every memoised literal have the truth value of their formula. Holds for `=>` too. |
| CnfTheorems.TseitinDefines | src/frontend/conv_parser.cpp:369-652 | Every valuation that satisfies the clauses, gives abstracted atoms their variables' values and negates the atoms by mkNot gives the returned literal and every memoised literal the value of its formula, separately in each direction, wherever `=>` does not stand in the way; for a formula without `=>` that is equality. |
| CnfTheorems.ImplicationBelowXor | src/frontend/conv_parser.cpp:472-504 | A formula `(xor (=> a b) p)` and a valuation that satisfies every clause emitted for it and falsifies it: the clauses of `=>` are weaker than an equivalence. |
| CnfTheorems.TopLevelComplete | src/frontend/conv_parser.cpp:810-920 | A valuation of an asserted formula in which mkNot negates its atoms extends, without touching older variables, to one that satisfies every clause of the direct encoding, for every formula the encoder accepts. |
| CnfTheorems.TopLevelSound | src/frontend/conv_parser.cpp:810-920 | A valuation that satisfies the clauses and in which mkNot negates the atoms satisfies the asserted formula, provided implications occur only where the formula needs them in the direction the clauses give. |
| CnfTheorems.TopLevelEquisatisfiable | src/frontend/conv_parser.cpp:810-920 | For a formula in which implications occur only where the clauses define them in the direction needed, and a valuation of the original variables in which mkNot negates its atoms, as it does every binary comparison: the valuation satisfies the formula if and only if it extends to one satisfying the clauses. |
| CnfTheorems.BinaryAtomsNegated | src/frontend/conv_parser.cpp:371-390 | In a formula whose comparisons, of integers or of strings, have two operands, mkNot negates every atom in every valuation: the hypothesis of the theorems above holds of it always. |
| Formulas.FormulaSupported | src/frontend/conv_parser.cpp:369-652 | The encoder takes exactly the formulas: Boolean variables and constants, atoms of the listed classes, `not` over one operand, and/or/xor/=> over one or more, Boolean = and distinct over two or more, ite over three, and lets that expand to such. The grammar is written out in `Grammar`, with no reference to the encoder. |
| Formulas.LeavesListed | include/somtparser/ir/dag.h:736-739 | What the conversions leave as it is: atoms are exactly the comparisons of numbers by =, distinct and order, of strings by = and order, the theory predicates and the Boolean applications; literals exactly Boolean variables, constants and negated variables. |
| Formulas.FormulaEncoded | src/frontend/conv_parser.cpp:810-920 | For every formula of the grammar whose comparisons have two operands and which has no =>, in every valuation of its variables: the valuation satisfies it if and only if it extends to one satisfying the clauses. |
| CnfShape.CnfIsClausal | src/frontend/conv_parser.cpp:810-920 | Every clause of every formula, definition or assertion, is a Boolean variable, a negated one, a constant, or a disjunction of those. |
| CnfShape.AssertAbstractsAtoms | src/frontend/conv_parser.cpp:371-390 | Only atoms get a variable without a defining clause, for every input. |
| CnfTheorems.ChainLiterals | src/frontend/conv_parser.cpp:371-390 | A chained integer = or distinct and what mkNot makes of it get complementary literals; once the first literal has the value of its atom, the second has the value of its own if and only if the operands are all equal or pairwise distinct. |
| CnfTheorems.ChainsUnsatisfiable | src/frontend/conv_parser.cpp:371-390 | `(and (not (= i j k)) (not (distinct i j k)))` is accepted by the encoder and holds in a model, and no valuation at all satisfies the clauses emitted for it. |
| CnfTheorems.ChainsInNormalForm | src/frontend/conv_parser.cpp:371-390 | `(and (or (= i j k) q) (or (distinct i j k) r))`, which toNNF leaves alone, and a valuation that satisfies its clauses and falsifies it. |
| CnfPipeline.ToCnfCorrect | src/frontend/conv_parser.cpp:1025-1110 | toNNF followed by the direct encoding: a valuation of the original variables satisfies the formula if and only if it extends to one satisfying the clauses, for every formula the encoder accepts in which no string = is negated, in every model that reads implications and negates comparisons right. |
| CnfPipeline.NnfEncodable | src/frontend/conv_parser.cpp:1625-1718 | The normal form of such a formula is again accepted by the encoder, uses no variable beyond those of the formula, and its atoms are negated right wherever those of the formula are. |
| CnfPipeline.NegatedStringRefused | src/frontend/conv_parser.cpp:1625-1718 | For every string equality a, chained or not, the encoder accepts `(not a)`; normal form turns it into a `distinct` over strings, which the encoder refuses, returning false and adding nothing, unless its tables already hold it. |
| CnfSize.TseitinIsLinear | src/frontend/conv_parser.cpp:292-652 | For formulas without lets: at most five clauses for each child edge of the distinct connectives reached, so sharing is never paid for twice. |
| Tseitin.GateClausesExact | src/frontend/conv_parser.cpp:292-366 | For each gate, all its clauses hold exactly when the output literal stands in the gate's relation to the inputs: and, or, =>, ite, =, distinct, xor of literals. One missing or flipped literal breaks it. |
| Tseitin.BinaryGateExact | src/frontend/conv_parser.cpp:292-366 | The four clauses of xor, and those of binary = and distinct, hold exactly when the output has the operator's value. |
| Tseitin.IteGateExact | src/frontend/conv_parser.cpp:623-645 | The four clauses of an if-then-else hold exactly when the output equals the chosen branch. |
| Tseitin.AndGateExact | src/frontend/conv_parser.cpp:423-445 | The clauses of a conjunction of any width hold exactly when the output is true just if all inputs are. |
| Tseitin.OrGateExact | src/frontend/conv_parser.cpp:449-471 | The clauses of a disjunction of any width hold exactly when the output is true just if some input is. |
| Tseitin.ImpliesGateExact | src/frontend/conv_parser.cpp:472-504 | The two clauses of an n-ary implication are equivalent to: the output implies the implication, and if the inputs are all true then so is the output. They do not force the output when the implication holds otherwise. |
| CnfMeaning.EncodeOk | src/frontend/conv_parser.cpp:369-652 | Encoding keeps the tables well formed for every input: literals in the memo are over variables already drawn, tables only grow, and no step is ever redefined. |
| CnfMeaning.EncodeMeans | src/frontend/conv_parser.cpp:369-652 | Under the emitted steps, in every valuation in which mkNot negates the formula's atoms, the encoder keeps the invariant that every memo entry means its formula, for both the weak and the exact reading of `=>`, and the returned literal means the formula: the memo never returns a literal of another formula. |
| CnfMeaning.EncodeEqsMean | src/frontend/conv_parser.cpp:553-586 | Likewise, encoding a chained n-ary Boolean =, every auxiliary literal means that one operand agrees with the first, and every memo entry still means its formula. |
| TopLevelCnf.AssertTopOk | src/frontend/conv_parser.cpp:810-920 | Asserting keeps the encoder's state well formed and only adds definitions. |
| TopLevelCnf.AssertTopMeans | src/frontend/conv_parser.cpp:810-920 | In such valuations the clauses a formula asserts beside the definitions imply the formula in the weak reading and are equivalent to it in the exact one, through top-level and, or, xor, =>, =, distinct and let. |
| TopLevelCnf.AssertXorMeans | src/frontend/conv_parser.cpp:851-870 | Folding all operands but the last and asserting the last pair directly asserts the whole n-ary xor. |
| CnfConverter.Converter.ToTseitinCNF | src/frontend/conv_parser.cpp:369-652 | The method over the tables, counter and clause vector returns the literal and reaches the state of the recursive encoder, and appends to the vector exactly the clauses of the new definitions. |
| CnfConverter.Converter.AssertTopCNF | src/frontend/conv_parser.cpp:810-920 | Likewise for assertion: the state is that of the recursive encoder, and the clauses added to the vector are, as a collection, those of the new definitions and the asserted ones, and nothing else. |
| CnfConverter.VectorMeansTopClauses | src/frontend/conv_parser.cpp:810-920 | The interleaved clause vector is satisfied by the same valuations as the definitions followed by the assertions, so the theorems above hold of the vector itself. |
| Builders.MkAndHolds | src/frontend/op_parser.cpp:984-1051 | mkAnd is conjunction for every operand list, through constants, duplicates, and empty or single lists. |
| Builders.MkOrHolds | src/frontend/op_parser.cpp:1058-1119 | mkOr is disjunction for every operand list. |
| Builders.MkNotHolds | src/frontend/op_parser.cpp:939-977 | mkNot is negation for every operand but the chained comparisons of three or more operands whose operator it swaps: arithmetic = and distinct, and string =. |
| Builders.NegateCompHolds | src/frontend/op_parser.cpp:4808-4840 | Swapping the operator negates every comparison of two integers or two strings, the orders included, and comparisons of a term with itself, which are decided while they are built. |
| Builders.MkNotOnChain | src/frontend/op_parser.cpp:939-977 | On an arithmetic = or distinct or a string = of any width, mkNot negates in a model if and only if the operands are all equal or pairwise distinct there. |
| Builders.MkNotFailsOnChains | src/frontend/op_parser.cpp:4811-4816 | Over integers and over strings: `(= x y z)` and its mkNot `(distinct x y z)` are both false in one model. |
| EvalBuilders.MkEqPairHolds | src/frontend/op_parser.cpp:443-487 | Binary mkEq means equality of the two values although it replaces Boolean equalities by an operand or its negation and cancels paired negations; Boolean operands may be anything but a chained comparison under its negations. |
| EvalBuilders.MkEqualHolds | src/frontend/op_parser.cpp:488-535 | n-ary mkEq means all operands are equal, for integers and strings of any width and for two Booleans. |
| EvalBuilders.MkEqualOnBooleans | src/frontend/op_parser.cpp:488-535 | On three or more Booleans mkEq is right in a model if and only if it is not the case that a `true` was dropped and at least two other operands remain, all false. |
| EvalBuilders.MkEqualExact | src/frontend/op_parser.cpp:488-535 | On any list of two or more Booleans the evaluator can hand it, mkEq is right in a model if and only if no `true` was dropped from three or more there with the at least two others all false, nor a `false` compared, under the negations binary mkEq strips, with a chained comparison of integers or strings that mkNot does not negate there. |
| EvalBuilders.MkDistinctOnBooleans | src/frontend/op_parser.cpp:593-640 | On three or more Booleans, never pairwise distinct, mkDistinct is right in a model if and only if what is left without `false` is neither a single operand that holds nor two that differ. |
| EvalBuilders.MkDistinctHolds | src/frontend/op_parser.cpp:593-640 | n-ary mkDistinct means pairwise different, for integers and strings of any width and for two Booleans. |
| EvalBuilders.MkDistinctOnThree | src/frontend/op_parser.cpp:607-616 | `(distinct x y false)`, which is false in every model, is built as a term that is true whenever x and y differ. |
| EvalBuilders.MkXorHolds | src/frontend/op_parser.cpp:1170-1200 | mkXor holds exactly when an odd number of operands does, for every list of Booleans. |
| EvalBuilders.MkXorShape | src/frontend/op_parser.cpp:1170-1200 | From two or more operands mkXor gives false, one of the operands, or an xor of at least two of them, never with a `false` among them. |
| Nnf.NnfHolds | src/frontend/conv_parser.cpp:1625-1718 | toNNF(e, is_not) has the truth value of e, negated when is_not is set, for input with lets, implications of any width and chained comparisons of integers and strings, in every model that reads the implications right from their first two operands and in which mkNot negates the comparisons that a negation reaches. |
| Nnf.NnfShape | src/frontend/conv_parser.cpp:1625-1718 | For every input whatsoever the result has negations only above terms that are neither connectives nor comparisons: and, or and literals are all that is left of the skeleton. |
| Formulas.FormulaNormalised | src/frontend/conv_parser.cpp:1625-1718 | For every formula of the grammar whose comparisons and implications have two operands, in every model: the normal form has the truth value of the formula, negated when is_not is set. |
| Nnf.NnfImplicationExact | src/frontend/conv_parser.cpp:1678-1690 | At an implication of two or more operands, the first two converted right: the normal form has the formula's value in a model if and only if the first operand fails there, or the second holds and not all antecedents hold with the last operand false. |
| Nnf.NnfDropsConsequent | src/frontend/conv_parser.cpp:1678-1690 | `(=> a b c)`, a valuation where the normal form holds and the formula does not, and one where it is the other way round. |
| Nnf.NnfSwapsChain | src/frontend/conv_parser.cpp:1625-1718 | Over integers and over strings: `(not (and (= x y z) a))` becomes `(or (distinct x y z) (not a))`, and a model in which the first holds and the second does not. |
| Nnf.Converter.Convert | src/frontend/conv_parser.cpp:1625-1718 | The method with its cache computes the recursive normal form, whatever the cache holds, and leaves the cache overwritten at each let by the form under the negation pending at its visit, in the order of the visits. |
| Nnf.Converter.Nnf | src/frontend/conv_parser.cpp:1721-1728 | The cached entry point returns the normal form whenever the cache is correct, and what the cache holds on a hit; a correct cache stays correct if and only if it was a hit or the last visit of every let was without a pending negation. |
| Nnf.CacheExact | src/frontend/conv_parser.cpp:1633-1640 | A correct cache is correct after a conversion's writes if and only if, for every let, the last of them was without a pending negation; a write under a negation is never the let's normal form. |
| Nnf.OppositeSigns | src/frontend/conv_parser.cpp:1625-1718 | The normal forms of a term and of its negation are never the same term, whatever mkAnd, mkOr and mkNot simplify: why one cache cannot serve both. |
| Nnf.CachePoisoned | src/frontend/conv_parser.cpp:1634-1638 | After converting a negated let, converting the let itself returns the normal form of its negation. |
| DnfElimination.EliminateHolds | src/frontend/conv_parser.cpp:1140-1308 | Elimination keeps the truth value, for input with lets and with implications of any width, with any memo table whose entries keep theirs, and keeps the table that way, in every model that reads the implications right from their first two operands and in which mkNot negates the comparisons. |
| Formulas.FormulaEliminated | src/frontend/conv_parser.cpp:1130-1308 | For every formula of the grammar whose comparisons and implications have two operands, an xor at least two, and which compares no strings by =, in every model: elimination ends without an error and keeps the truth value. |
| DnfElimination.EliminateXorHolds | src/frontend/conv_parser.cpp:1542-1569 | Folding n operands pairwise into and/or gives their parity. |
| DnfElimination.EliminateEqHolds | src/frontend/conv_parser.cpp:1572-1594 | The and/or form of a chained Boolean = holds exactly when all operands agree. |
| DnfElimination.EliminateDistinctHolds | src/frontend/conv_parser.cpp:1597-1614 | The and/or form of Boolean distinct holds exactly when the operands differ pairwise, hence never for three. |
| Implications.TwoAreRead | src/frontend/conv_parser.cpp:1678-1690 | Implications of two operands are read right from them in every model, and mkNot negates every comparison of two integers or two strings: the condition of the theorems around it holds of such input in all models. |
| DnfElimination.ImplicationExact | src/frontend/conv_parser.cpp:1193-1206 | An implication of any width is replaced by `(or (not a) b)` over its first two operands: right in a model if and only if the first fails there, or the second holds and not all antecedents hold with the last operand false. |
| DnfElimination.EliminationDropsConsequent | src/frontend/conv_parser.cpp:1193-1206 | `(=> x y z)` and two valuations in which the eliminated form and the formula differ, one in each direction. |
| DnfRounds.FreeExact | src/frontend/conv_parser.cpp:1140-1308 | After a pass every memo entry, and with them the result, is free of the connectives to eliminate if and only if it was so before and no and/or of the pass ended with a clear flag although an operand contained one. |
| DnfRounds.UnsharedComplete | src/frontend/conv_parser.cpp:1140-1308 | A formula in which no subformula containing a connective to eliminate occurs twice is never overlooked by a pass, and if it contains one the pass reports a change. |
| DnfRounds.SharedXorStays | src/frontend/conv_parser.cpp:1130-1146 | From the empty memo, `(or (xor x y) (and (xor x y) z))` keeps the second xor after the first pass, and the second pass reports no change and returns the same term. |
| DnfRounds.FirstPassOverlooks | src/frontend/conv_parser.cpp:1140-1160 | `(or x (and x c))`, for every x above the leaves that a pass changes and that has a connective to eliminate and for every leaf c: the first pass replaces the first x and keeps the conjunction with x in it. |
| DnfRounds.EliminateClean | src/frontend/conv_parser.cpp:1140-1308 | What one pass leaves contains an unreplaced connective only below a node that is itself a key of the memo. |
| DnfRounds.CleanUnchanged | src/frontend/conv_parser.cpp:1144-1146 | On such a term a further pass with that memo reports no change: the reason for the bound below. |
| DnfRounds.PositiveConverts | src/frontend/conv_parser.cpp:1130-1308 | If a formula has no `distinct` over strings and no string = below a negation, an xor, a Boolean =, an antecedent or a condition, neither pass ends with an error. |
| DnfRounds.PassPositive | src/frontend/conv_parser.cpp:1140-1308 | Why the second pass accepts what the first leaves: from a table of such formulas a pass turns such a formula into such a formula, at both polarities, and keeps the table that way. |
| DnfRounds.NegatedStringRaises | src/frontend/conv_parser.cpp:1193-1206 | `(=> a p)`, for every string equality a, is well formed and the second pass ends with an error: the first has swapped a into a `distinct` over strings. |
| DnfRounds.Eliminator.ToDnfEliminateAll | src/frontend/conv_parser.cpp:1130-1138 | The loop ends within two rounds, with an error if and only if one of its passes meets a comparison of integers or strings that is no atom; otherwise its result has the input's truth value in every model that reads the implications and negates the comparisons right, two-operand ones always, and the final memo, and with it the result, is free of the connectives if and only if the first pass overlooks none, in particular for a formula that shares none. Formulas without a negated string = never end in the error. |
| DnfRounds.Eliminator.Pass1 | src/frontend/conv_parser.cpp:1140-1308 | One pass over the memo field is the recursive elimination, result, table and flag; it ends early exactly where that recursion meets a node it refuses. |
| DnfDistribution.DistAndExact | src/frontend/conv_parser.cpp:1386-1538 | Multiplying out a conjunction of disjunctions holds in a model if and only if the conjunction does or some intermediate product collapsed and was misread there; a true conjunction is never misread. |
| DnfDistribution.DistHolds | src/frontend/conv_parser.cpp:1386-1538 | On every and/or/literal input, in every model: the result holds if and only if the input does or was weakened there, which is decided from the root down by which conjunctions were misread and which operands fail; only formulas that fail are weakened. |
| DnfDistribution.NeverMisreadKept | src/frontend/conv_parser.cpp:1386-1538 | Where no conjunction of a formula is misread the formula is not weakened, so that the law is an equivalence there. |
| DnfDistribution.DistShape | src/frontend/conv_parser.cpp:1386-1538 | On every and/or/literal input the result is a constant, a cube or a disjunction of cubes, misread or not. |
| DnfDistribution.ClauseKeepsOr | src/frontend/conv_parser.cpp:1471-1503 | Multiplying by a clause of literals never collapses a product. |
| DnfDistribution.CnfDistributes | src/frontend/conv_parser.cpp:1386-1538 | On every conjunction of clauses the distributive law is an equivalence and its result is in disjunctive normal form. |
| DnfDistribution.CollapsedProduct | src/frontend/conv_parser.cpp:1502-1527 | `(and (or a ab) (or b ab) c)` with ab = `(and a b)` becomes `(or (and a c) (and b c))`, and a valuation where that result, flattened or not, holds and the formula does not. |
| DnfDistribution.FlattenHolds | src/frontend/conv_parser.cpp:1318-1383 | Flattening nested and/or keeps the truth value. |
| DnfDistribution.FlattenIsFlat | src/frontend/conv_parser.cpp:1318-1383 | Flattening a disjunctive normal form leaves one: no or below an and, no or below an or, and nothing but leaves and negations under them. |
| DnfFlattening.FlattenHalves | src/frontend/conv_parser.cpp:1318-1383 | The nesting of conjunctions in the result is at most half that of the input, rounded up: conjunctions nested once in another come out flat. |
| DnfFlattening.NestedStays | src/frontend/conv_parser.cpp:1318-1383 | `(and (and (and a b) c) d)`, which the law leaves alone, is flattened to `(and (and a b) c d)`. |
| DnfDistribution.DistributionCorrect | src/frontend/conv_parser.cpp:1311-1315 | The composition: flat disjunctive normal form that holds in a model if and only if the input holds or was weakened there. |
| DnfDistribution.Distributor.DistRec | src/frontend/conv_parser.cpp:1386-1538 | The memoised method computes the recursive distribution and keeps every memo entry equal to it. |
| DnfDistribution.Distributor.ApplyDnfDistributiveLaw | src/frontend/conv_parser.cpp:1311-1315 | The entry point returns that composition, with its exact condition in every model. |
| DnfPipeline.ToDnf | src/frontend/conv_parser.cpp:1120-1127 | For every input: unless elimination ends with an error, elimination and normal form keep the truth value in every model that reads the implications and negates the comparisons right. If the first pass of elimination overlooks no connective, and so for every formula that shares no subformula with one, and no string = is negated, the result is a flat disjunctive normal form, and it holds in such a model if and only if the input does or its normal form is weakened there by the distributive law. |
| LetExpansion.ExpandKeepsValue | src/frontend/eval_parser.cpp:2200-2321 | Expanding preserved lets keeps the value of every well-formed term, including lets nested inside binding values and let chains. |
| LetExpansion.ExpandLetCorrect | src/frontend/eval_parser.cpp:2200-2321 | The result of expanding a let or let chain contains no let, let chain or bound variable, and has the sort and the value of the input. |
| LetExpansion.ExpandLetIterative | src/frontend/eval_parser.cpp:2200-2321 | The loop over nodeStack, resultMap and hasChangedMap terminates and returns the recursive expansion. |
| LetExpansion.ExpandKeepsNames | src/frontend/eval_parser.cpp:2260-2310 | Applications and datatype constructors, selectors and testers keep their names and operands when a let around or below them is expanded. |
| PostOrder.TopIsReady | src/frontend/base_parser.cpp:3046-3108 | When a node comes up the second time, each of its operands has a result: lookups in the result map cannot miss. |
| PostOrder.Pop | src/frontend/base_parser.cpp:3046-3108 | Finishing a node keeps the invariant "every operand waiting below is done or still above its parent", and the work measure falls. |
| PostOrder.Schedule | src/frontend/base_parser.cpp:3046-3108 | Pushing a node again with its unfinished operands above it keeps the invariant, and the measure falls although the stack grows: termination on every DAG. |
| Substitution.SubstitutionLemma | src/frontend/base_parser.cpp:3032-3112 | The value of substitute(e, s) in an environment is the value of e with every mapped variable bound to the value of its replacement, all at once; arrays, datatype operators whose names the interpretation does not need and replacements with parameters included, as long as no parameter goes into the body of a called function. |
| Substitution.SubstReads | src/frontend/base_parser.cpp:3032-3112 | The same for any two environments related that way, also below function bodies whose parameters are rebound. |
| Substitution.ParamCaptured | src/frontend/base_parser.cpp:3032-3112 | Replacing x by the parameter p in the call `(f 7)` of f(p) = x gives 7 where p is 1: why such replacements are set apart. |
| Substitution.ParamFreeNotCaptured | src/frontend/base_parser.cpp:3032-3112 | Replacements without parameters are never captured, in any term. |
| Substitution.Substitute | src/frontend/base_parser.cpp:3032-3112 | The stack machine, for any valid memo passed in, returns the recursive substitution and leaves a valid memo that contains the input. |
| Substitution.DatatypeNamesLost | src/frontend/base_parser.cpp:3071-3083 | Substituting below a datatype constructor, selector or tester keeps its meaning in all models if and only if its name is the bare name of its kind or its sort is an array. |
| Substitution.CallNameKept | src/frontend/base_parser.cpp:3071-3083 | A call of a defined function keeps its name, sort and number of operands; the definition inside it is renamed `func_def`, unless its sort is an array. |
| Inlining.InlineMeansCall | src/frontend/base_parser.cpp:2654-2739 | Replacing parameters in a body, nested calls to defined functions included, gives the value of the body with the parameters bound to the argument values; sorts are kept and no error arises. |
| Inlining.ApplyMeans | src/frontend/base_parser.cpp:2550-2651 | Applying a well-sorted non-recursive definition has the value of its body under the argument values, coerced to the declared sort. |
| Inlining.ApplyErrs | src/frontend/base_parser.cpp:2550-2590 | A call whose arguments are no errors gives an error, and then the bare one, if and only if it has another number of arguments than the definition or an argument of another sort. |
| Inlining.ErrorArgument | src/frontend/base_parser.cpp:2637-2644 | With arguments that are errors and the others of the declared sorts, an expanded call is the first such argument. |
| Inlining.ExpandedIsCallFree | src/frontend/base_parser.cpp:2654-2739 | Expanding leaves no call of a defined function and no parameter that the arguments did not bring. |
| Inlining.KeptCallsNamed | src/frontend/base_parser.cpp:2742-2752 | With expansion off, every call in the result is named after the definition it holds. |
| Inlining.BindParameters | src/frontend/base_parser.cpp:2637-2644 | The binding loop maps each formal to its argument, stopping at the first argument that is an error. |
| Inlining.ApplyFunction | src/frontend/base_parser.cpp:2550-2651 | Equals the recursive application, error cases included, and terminates because a definition's body is smaller than the definition. |
| Inlining.ApplyFunPostOrder | src/frontend/base_parser.cpp:2654-2739 | The stack machine returns the recursive inlining for every node and binding. |
| Rewriter.RulesKeepValue | src/passes/rewriter.cpp:101-165 | Each default rule keeps the value and the sort of every well-sorted node. |
| Rewriter.RewrittenKeepsValue | src/passes/rewriter.cpp:33-83 | Bottom-up rewriting keeps the value and the sort of every well-sorted term. |
| Rewriter.RoundsKeepValue | src/passes/rewriter.cpp:85-98 | Rewriting keeps the value for every bound on the rounds. |
| Rewriter.RoundsReachFixpoint | src/passes/rewriter.cpp:85-98 | For any rule table: the result is a fixpoint of rewriting, unless all rounds were used and each of them changed the term. |
| Rewriter.OneRoundIsEnough | src/passes/rewriter.cpp:101-165 | For every term, one bottom-up pass of the default rules gives a normal form: nowhere a not over a not or a Boolean constant, a two-operand and of equal operands or with a Boolean constant, a two-operand sum with a zero. It leaves a term alone if and only if it is one, so a second pass changes nothing. |
| Rewriter.RoundsReduce | src/passes/rewriter.cpp:85-98 | So does the fixpoint loop with the default rules, for every positive bound on its rounds. |
| Rewriter.Rewriting.RewriteOnce | src/passes/rewriter.cpp:33-83 | The frame stack with its memo returns the recursive rewriting for any rule table; every memo entry is the recursive result, and no lookup misses. |
| Rewriter.Rewriting.Rewrite | src/passes/rewriter.cpp:85-98 | Iterating, with a memo cleared before each round, gives the recursive rounds. |
| SizeEstimate.DumpSizeEstimate | python/bindings.cpp:77-102 | The saturating, memoised traversal returns min(cap, size of the fully expanded tree) for every term and cap. |
| SizeEstimate.CapOfParts | python/bindings.cpp:85-97 | Saturating every intermediate sum gives the same result as saturating once at the end. |
| Evaluator.EvaluateTerm | src/frontend/eval_parser.cpp:38-57 | The result agrees with the input under every total assignment that extends the model and misfolds no node, and under every one at all if comparisons of Booleans are binary and no chained comparison of integers or strings stands below them or an xor; a clear change flag means the result is the input itself; when every variable is assigned and occurs below every operator, the result is a constant. |
| Evaluation.EvalExact | src/frontend/eval_parser.cpp:58-754 | Where the operands' results have the operands' values in a model, the node's result has the node's value there if and only if the node is not misfolded: a rebuilt xor or Boolean comparison from which mkEq, mkDistinct or mkNot took what it must not. |
| Evaluation.EvalKeepsValue | src/frontend/eval_parser.cpp:58-754 | The evaluation function keeps the value of every term of the fragment in every total assignment that extends the partial model and misfolds no node on the way. |
| Evaluation.RegularNeverMisfolded | src/frontend/eval_parser.cpp:58-754 | No assignment misfolds a term whose comparisons of Booleans are binary and which has no chained comparison of integers or strings below them or an xor. |
| Evaluation.EvalIsConstant | src/frontend/eval_parser.cpp:58-89 | With every variable assigned, a term without operators over constants alone evaluates to a constant. |
| Evaluation.UnchangedIsInput | src/frontend/eval_parser.cpp:58-89 | A clear change flag means the result is the input itself, for every term and model. |
| EvalProgress.AssignedAreGone | src/frontend/eval_parser.cpp:58-89 | For every term and partial model: no assigned variable occurs in the result, and if one occurred in the input the change flag is set. |
| EvalProgress.OthersUntouched | src/frontend/eval_parser.cpp:58-89 | A term without constants in which no assigned variable occurs is returned as it is, with a clear flag. |
| EvalProgress.ConstantComparisons | src/frontend/eval_parser.cpp:591-754 | = and distinct over constants evaluate to a constant, in the empty model too. |
| EvalProgress.EvalIsFolded | src/frontend/eval_parser.cpp:58-532 | Where evaluation changes a node, the result is the result of an operand, a term of another kind, or folded: no constant in a conjunction or disjunction, at most one in +, *, -, min and max, no two side by side in a concatenation. |
| Evaluation.TrueOperandDropped | src/frontend/eval_parser.cpp:591-696 | `(= p q r)` under p := true evaluates to `(= q r)`, which holds in an extension where the input does not. |
| Evaluation.FalseOperandDropped | src/frontend/eval_parser.cpp:697-754 | `(distinct p q r)` under r := false evaluates to `(distinct p q)`, which holds in an extension where the input does not. |
| Evaluation.ChainNegated | src/frontend/eval_parser.cpp:539-590 | Over integers and over strings: `(xor (= x y z) p)` under p := true evaluates to `(distinct x y z)`, which fails in an extension where the input holds. |
| Evaluation.ChainComparedWithFalse | src/frontend/eval_parser.cpp:591-696 | Likewise `(= (= x y z) p)` under p := false. |
| Evaluator.Evaluate | src/frontend/eval_parser.cpp:58-89 | Result and change flag of the evaluation function, for every term of the Bool/Int/string-concatenation fragment. |
| Evaluator.EvaluateSimpleOp | src/frontend/eval_parser.cpp:91-468 | The same for not, =>, ite, comparisons, +, *, -, min and max with their constant folding. |
| Evaluator.SubtractConstants | src/frontend/eval_parser.cpp:333-383 | Grouping the constants of an n-ary difference: folded by subtraction when the first operand is a constant, by the flipped operator and at the end otherwise. |
| Evaluator.EvaluateAndOr | src/frontend/eval_parser.cpp:469-532 | The loop with its short circuit and its dropping of neutral constants computes the evaluation function. |
| Evaluator.EvaluateXor | src/frontend/eval_parser.cpp:539-590 | The loop that counts true constants out and puts their parity back as a negation computes it, for operands of any form. |
| Evaluator.EvaluateEq | src/frontend/eval_parser.cpp:591-696 | The loops that compare the constants among themselves and let one stand for all compute it, for any number of operands of any sort of the fragment. |
| Evaluator.EvaluateDistinct | src/frontend/eval_parser.cpp:697-754 | The loop in which a repeated constant decides and the others move to the end computes it, likewise. |
| Evaluator.EvaluateConcat | src/frontend/eval_parser.cpp:386-440 | The nested loops that join runs of constant operands compute it. |
| EvalValues.RegroupKeeps | src/frontend/eval_parser.cpp:250-311 | Folding the constants of n-ary +, *, min or max into one operand at the end keeps the value. |
| EvalValues.DifferenceFromConst | src/frontend/eval_parser.cpp:354-366 | When the first operand is a constant, a - b - c with its constants subtracted from the first keeps the value. |
| EvalValues.DifferenceFromOther | src/frontend/eval_parser.cpp:367-380 | When the first operand is not a constant, the constants are added and subtracted together at the end: the flipped operator is the right one. |
| EvalValues.ParityRest | src/frontend/eval_parser.cpp:539-590 | The parity of all operands is the parity of the non-constant ones, flipped once for each true constant. |
| EvalResults.RegroupedValue | src/frontend/eval_parser.cpp:250-311 | The node that n-ary +, *, min or max over its operands' results ends in has the value of that node in every model. |
| EvalResults.SubtractedValue | src/frontend/eval_parser.cpp:333-389 | So has the one an n-ary difference ends in, in both orders of its constants. |
| EvalResults.ComparisonValue | src/frontend/eval_parser.cpp:591-754 | What = and distinct end in has the node's value in a model if and only if the builders misread nothing there; constants compared, merged and reordered, sorts other than Bool are always right. |
| EvalResults.XorValue | src/frontend/eval_parser.cpp:539-590 | What xor ends in has the parity of all operands in a model if and only if it is not the negation of a single chained comparison, of integers or strings, torn there. |
| EvalResults.ConjunctionValue | src/frontend/eval_parser.cpp:469-532 | Joining the operands that are not constant means the conjunction once no constant is false, and the disjunction once none is true. |
| EvalResults.IteValue | src/frontend/eval_parser.cpp:755-775 | Choosing the branch of a constant condition, or rebuilding an if-then-else over its evaluated operands, means it in every model. |
| EvalResults.ConcatOfPartsValue | src/frontend/eval_parser.cpp:386-440 | Joining neighbouring constants and keeping the order of the rest means the concatenation in every model. |
| DatatypeGroups.GroupDatatypes | src/frontend/base_parser.cpp:3884-3945 | For every set of declarations: the groups partition the datatypes, two datatypes share a group if and only if each reaches the other, and everything a datatype mentions lies in its own group or an earlier one. |
| DatatypeGroups.Grouping.StrongConnect | src/frontend/base_parser.cpp:3910-3942 | One depth-first visit keeps the whole Tarjan invariant for the same active ancestors, keeps every number and group handed out before, and leaves a low link that is either the vertex's own number or the number of a vertex still on the stack that it reaches, below which none of its component's edges lead. |
| DatatypeGroups.RunIsGrouping | src/frontend/base_parser.cpp:3910-3945 | A run that numbered every vertex and has an empty stack yields such a grouping. |
| DatatypeGroups.OrderedGroupsAreComponents | src/frontend/base_parser.cpp:3910-3945 | Groups in dependency order never split a component: mutually reachable datatypes are in one group. |
| DatatypeGroups.ReachesBackwards | src/frontend/base_parser.cpp:3910-3945 | Whatever is reachable from a group, by paths of any length, lies in that group or an earlier one. |
| DatatypeGroups.CollectDeps | src/frontend/base_parser.cpp:3884-3904 | The graph has an edge exactly where a selector of one declared datatype mentions another anywhere in its sort, nested sorts included. |
| RecursiveDatatype.IsRecursiveDatatype | src/frontend/base_parser.cpp:355-378 | True if and only if the datatype is reachable from itself by one or more selector-sort edges. |
| RecursiveDatatype.Search.Check | src/frontend/base_parser.cpp:357-376 | The shared visited set only grows, a positive answer is a real path to the target, a negative one means everything new was explored; unexplored declarations shrink at every descent. |
| RecursiveDatatype.NotReached | src/frontend/base_parser.cpp:355-378 | A fully explored set that never met the target proves there is no cycle through it. |
| LetScope.BalancedRunRestores | src/frontend/symbol_manager.cpp:111-152 | Any balanced run of push, register and pop returns map, undo log and checkpoints to what they were, under arbitrary shadowing. |
| LetScope.RunRefines | src/frontend/symbol_manager.cpp:111-152 | Every balanced run on the flat map stays in step with the stack of frames. |
| LetScope.PushRefines | src/frontend/symbol_manager.cpp:111-113 | Pushing a checkpoint corresponds to an empty frame. |
| LetScope.RegisterRefines | src/frontend/symbol_manager.cpp:140-152 | Registering corresponds to binding in the innermost frame. |
| LetScope.PopRefines | src/frontend/symbol_manager.cpp:115-134 | Undoing the log back to the checkpoint, newest first, uncovers exactly the outer frames. |
| LetScope.LetScopes.RegisterLet | src/frontend/symbol_manager.cpp:140-152 | Binds in the innermost frame and leaves the outer ones. |
| LetScope.LetScopes.PopLetScope | src/frontend/symbol_manager.cpp:115-134 | Drops the innermost frame; without a checkpoint nothing changes. |
| LetScope.LetScopes.FindLet | src/frontend/symbol_manager.cpp:66-94 | A lookup in the flat map finds the innermost binding. |
| AssertionRuns.EveryRunIsSafe | src/frontend/parser_context.cpp:48-146 | For every sequence of commands, reset-assertions included: the recorded frame sizes are nested and within the current lengths all along it if and only if every reset finds no open scope that recorded anything. |
| AssertionRuns.SafeRunIsGood | src/frontend/parser_context.cpp:48-146 | After every such run, recorded sizes are nested, every group index is in range, and each pop would return vectors and groups to the matching push. |
| AssertionRuns.CleanRunsRestore | src/frontend/parser_context.cpp:61-146 | In every run whose pops meet restorable names and whose resets meet scopes that recorded nothing but names, the two name tables stay inverse and pop(n) reinstates the whole state of the matching push. |
| AssertionRuns.ScopeRestores | src/frontend/parser_context.cpp:48-146 | push, any clean commands including inner scopes, pop: the state before the push. |
| AssertionContents.CommandsInForce | src/frontend/parser_context.cpp:48-146 | After every run whose resets meet scopes that recorded nothing: the vectors of assertions, soft assertions, weights, assumptions and lemmas hold what the commands given in scopes still open gave, in order, and every group is exactly the set of positions of the assertions given with it. |
| AssertionRuns.PopOneRestores | src/frontend/parser_context.cpp:61-133 | One pop always restores vectors, groups and outer frames, and restores everything if and only if the names are restorable. |
| AssertionRuns.UndisturbedIsRestorable | src/frontend/parser_context.cpp:164-200 | Naming keeps the scope restorable when it displaces no binding introduced in the same scope. |
| AssertionRuns.UndisturbedRunsAreClean | src/frontend/parser_context.cpp:48-200 | A run in which no naming displaces a binding its own scope introduced, and which resets only outside scopes, is clean, and every open scope stays restorable: a condition read off the tables before each naming. |
| AssertionRuns.UndisturbedRunsRestore | src/frontend/parser_context.cpp:48-200 | In every such run pop(n) ends in the state at the matching push, whatever came between, and the two name tables are inverse to each other. |
| AssertionRuns.RenamingRun | src/frontend/parser_context.cpp:61-97 | Push, name x as n, name x as m, pop: from the empty context this ends with x named n. |
| AssertionRuns.NameTheftRun | src/frontend/parser_context.cpp:61-97 | Name x as n, push, name y as n, name y as m, pop: x and y both end up under n, and the tables are not inverse to each other. |
| AssertionRuns.ResetInsideScope | src/frontend/parser_context.cpp:61-146 | In every state of the run invariant: a pop right after reset-assertions gives back the whole state of the matching push if and only if its vectors held only padding, it had no groups, and all its names and no others are on the scope's record of displaced bindings. |
| AssertionRuns.ResetNests | src/frontend/parser_context.cpp:135-146 | After reset-assertions the recorded sizes are nested and within the current ones if and only if every size on record was zero. |
| AssertionRuns.ResetVectors | src/frontend/parser_context.cpp:69-146 | Field by field: vectors and groups of the push come back from an emptied store if and only if the vectors held only padding and there were no groups. |
| AssertionRuns.ResetNames | src/frontend/parser_context.cpp:83-146 | The names come back from emptied tables if and only if every one of them was displaced and none that the scope introduced was. |
| AssertionStack.PopRestoresNames | src/frontend/parser_context.cpp:83-97 | The name tables after a pop are those of the push if and only if every displaced binding belonged to the outer scope. |
| AssertionStack.PopStoreRestores | src/frontend/parser_context.cpp:69-124 | Truncating vectors and trimming groups gives the store of the push. |
| AssertionStack.TrimRestores | src/frontend/parser_context.cpp:99-124 | Dropping the indices past the recorded length and the groups the scope created restores the group table exactly. |
| AssertionStack.NamingTracks | src/frontend/parser_context.cpp:164-200 | Naming an assertion, with up to two displaced bindings, keeps the frame's record true. |
| AssertionStack.RenamedInScope | src/frontend/parser_context.cpp:83-97 | A frame that records x named n and then m: popping it brings n back although x was unnamed outside. |
| AssertionStack.InverseLost | src/frontend/parser_context.cpp:83-97 | A frame and tables whose pop leaves two assertions under one name. |
| ParserContext.ParserState.PushScope | src/frontend/parser_context.cpp:48-59 | Pushes n frames that record the current sizes and changes nothing else. |
| ParserContext.ParserState.PopScope | src/frontend/parser_context.cpp:61-133 | n pops, or as many as there are frames. |
| ParserContext.ParserState.PopFrame | src/frontend/parser_context.cpp:61-133 | The loops that erase, reinstate and trim compute the pop of the model, field by field. |
| ParserContext.ParserState.ResetAssertions | src/frontend/parser_context.cpp:135-146 | Empties vectors, groups and names and leaves the scope frames alone. |
| ParserContext.ParserState.NameAssertion | src/frontend/parser_context.cpp:164-200 | The tables stay inverse, the assertion carries exactly the new name, every other name and assertion is bound as before, and the outcome reports precisely the name it had and whether the name was taken from another assertion. |
| ParserContext.NamingIsBijective | src/frontend/parser_context.cpp:164-200 | Naming keeps the two tables inverse, renaming and name theft included. |
| ParserContext.ParserState.Assert | src/frontend/base_parser.cpp:1057-1108 | Appends the asserted term, adds its index to the named group and to no other, binds the name to it and keeps the name tables inverse, leaves the soft assertions, weights, assumptions and lemmas alone, and keeps the scope bookkeeping. |
| ParserContext.ParserState.AssertSoft | src/frontend/opt_parser.cpp:42-111 | Appends the term and its weight, adds its index to the named soft group and to no other, and leaves assertions, groups, names, assumptions and lemmas alone. |
| BitVectors.BvAdd | src/core/util.cpp:680-701 | For all operands, w being the width of the wider one: the sum modulo 2^w, on the word path and on the big-integer path alike. |
| BitVectors.BvSub | src/core/util.cpp:702-723 | The difference modulo 2^w on both paths. |
| BitVectors.BvMul | src/core/util.cpp:724-745 | The product modulo 2^w on both paths. |
| BitVectors.BvNeg | src/core/util.cpp:656-678 | Flipping and ripple-carry addition of one is negation modulo 2^w. |
| BitVectors.RippleCarry | src/core/util.cpp:664-676 | The in-place carry loop adds one modulo 2^w and leaves the prefix alone. |
| BitVectors.WrapAndMask | src/core/util.cpp:680-745 | Wrapping at 64 bits and masking to w <= 64 bits is reduction modulo 2^w. |
| BitVectors.IntToBv | src/core/util.cpp:1212-1234 | The n-bit two's complement string of any integer. |
| BitVectors.BvToInt | src/core/util.cpp:1191-1210 | The signed value of the string. |
| BitVectors.IntRoundTrip | src/core/util.cpp:1191-1234 | intToBv inverts bvToInt on every string; bvToInt inverts intToBv exactly on the integers that fit. |
| BitVectors.ReadInteger | src/core/util.cpp:1025-1032 | The unsigned value of the string. |
| SignedDivision.SignedDivisionLaw | src/core/util.cpp:806-865 | For a nonzero divisor: sdiv * b + srem is the dividend modulo 2^w, srem is smaller in magnitude than b and has the dividend's sign; the identity holds without the modulus exactly when it is not min / -1. |
| SignedDivision.TruncDivLaw | src/core/util.cpp:806-813 | The quotient truncates toward zero: remainder smaller than the divisor, with the dividend's sign. |
| SignedDivision.OverflowLaw | src/core/util.cpp:843-846 | min / -1 leaves no remainder and its product is min again modulo 2^w. |
| SignedDivision.SdivByZero | src/core/util.cpp:828-841 | Division by zero yields the SMT-LIB result if and only if the width is one or the dividend is negative; the remainder is the dividend. |
| SignedDivision.SdivByZeroValue | src/core/util.cpp:828-841 | What division by zero gives: a one at width one, the number one for a negative dividend, and otherwise the dividend itself. |
| SignedDivision.SmodExact | src/core/util.cpp:867-892 | On integers: for a nonzero divisor the signed modulus computed agrees with SMT-LIB if and only if the dividend is not negative, or is a multiple of the divisor, or lies exactly halfway for a positive divisor. |
| SignedDivision.SmodDeparts | src/core/util.cpp:867-892 | What the signed modulus is for a negative dividend: the remainder of the magnitudes for a positive divisor; for a negative one the nonnegative remainder, which is the size of the divisor above the result of SMT-LIB unless it is zero. |
| SignedDivision.SmodStringValue | src/core/util.cpp:867-892 | On bit strings of one width the result denotes that number in two's complement. |
| SignedDivision.SmodStringExact | src/core/util.cpp:867-892 | On bit strings of one width: bvSmod returns the string of SMT-LIB's bvsmod under exactly that condition, and the dividend for a zero divisor. |
| BitStructure.ShlMeans | src/core/util.cpp:914-926 | For operands in binary or hexadecimal: defined exactly for amounts below 2^64, which is what `toULong` takes, and then v * 2^k modulo 2^w. |
| BitStructure.LshrMeans | src/core/util.cpp:927-938 | v div 2^k, for every such amount and both notations. |
| BitStructure.AshrMeans | src/core/util.cpp:939-950 | The floor of the signed value over 2^k, likewise. |
| BitStructure.NormBvBinMeans | src/core/util.cpp:895-912 | Widening a hexadecimal literal to four digits each gives a binary literal of four times the width, the same unsigned value and the same signed one. |
| BitStructure.PrintedDenotes | src/core/util.cpp:895-912 | Every number printed in hexadecimal, each digit in either case, is an operand of four times as many digits that has this value, and is widened to its binary digits. |
| BitStructure.BinaryRead | src/core/util.cpp:1025-1032 | Every number printed in base two is the value of its digits. |
| BitStructure.ConcatMeans | src/core/util.cpp:952-956 | v1 * 2^w2 + v2. |
| BitStructure.ExtractMeans | src/core/util.cpp:957-967 | (v div 2^j) mod 2^(i-j+1). |
| BitStructure.ExtendMeans | src/core/util.cpp:976-983 | Zero extension keeps the unsigned value, sign extension the signed one. |
| BitStructure.ExtractOfConcat | src/core/util.cpp:952-967 | Extracting the two halves of a concatenation gives the operands back. |
| StringLiterals.RoundTrip | src/core/util.cpp:1443-1583 | unescapeString(escapeString(s)) == s for every byte string: quotes, backslashes, control and high bytes in any arrangement. |
| StringLiterals.EscapeInjective | src/core/util.cpp:1443-1476 | Different strings have different literals. |
| StringLiterals.EscapedIsLiteral | src/core/util.cpp:1443-1476 | An escaped string has no control bytes and its quotes come in pairs, so it can stand between quotes. |
| StringLiterals.EscapeString | src/core/util.cpp:1443-1476 | The loop computes the escaping of the round trip. |
| StringLiterals.UnescapeString | src/core/util.cpp:1521-1583 | The loop, with its lookahead for both escape forms and its fallbacks for malformed ones, computes the unescaping of the round trip. |
| StringLiterals.BracedUnescapes | src/core/util.cpp:1560-1571 | `\u{...}` around a number printed with one to five hexadecimal digits in either case is unescaped to the encoding of the number, whatever follows. |
| StringLiterals.PlainUnescapes | src/core/util.cpp:1572-1577 | So is `\u` before a number printed with four digits. |
| StringLiterals.OthersStay | src/core/util.cpp:1548-1583 | At every place where neither form starts, nor a doubled quote, one byte is taken over as it stands. |
| StringLiterals.EscapeForms | src/core/util.cpp:1443-1476 | A quote is doubled; a control byte or a backslash becomes its number in lower-case hexadecimal without leading zeros, in braces; every other byte stays. |
| StringLiterals.PlainUnescaped | src/core/util.cpp:1443-1476 | A string is its own escaped form if and only if it has no quote, backslash or control byte. |
| CodePoints.Utf8Exact | src/core/util.cpp:1534-1548 | For every number below 2^20 and every byte sequence: the sequence is what unescaping appends for the number if and only if section 3 of RFC 3629 reads it as that number, in its shortest form. |
| CodePoints.EscapesDenote | src/core/util.cpp:1496-1583 | A literal written in escapes of any form, unescaped and cut into code points, has as many parts as escapes, and each part encodes the number of its escape. |
| CodePoints.CutExact | src/core/util.cpp:1486-1511 | A string is cut into exactly those parts that are each a lead byte with the continuations it announces and that join to the string; there is at most one such list. |
| CodePoints.Utf8CodePoints | src/core/util.cpp:1496-1511 | The loop returns these parts, and nothing if and only if there are none. |
| CodePoints.Utf8Length | src/core/util.cpp:1478-1484 | The number of bytes that are no continuation is the number of code points of every string that can be cut. |
| ScientificNotation.NotationKeepsValue | src/core/util.cpp:370-443 | For every decimal mantissa, either exponent mark and every exponent that std::stoi reads, the output is a plain decimal denoting mantissa * 10^exponent. |
| Exponents.NotationDenotes | src/core/util.cpp:370-443 | For every decimal mantissa and every number printed in base ten as the exponent, with a sign, leading zeros, white space anywhere and parentheses or not: the output denotes mantissa * 10^exponent if the exponent fits 32 bits, and is the input otherwise. |
| Exponents.RealExact | src/core/util.cpp:252-300 | The parser's test for reals accepts exactly the decimals and the rationals: an optional sign, digits with at most one point, or a numerator, a slash and a nonzero denominator. |
| Exponents.DenominatorRead | src/core/util.cpp:285-297 | Every positive number printed in base ten is a denominator of that value; after a zero, printed in base eight, every number is read as such. |
| ScientificNotation.RescaleValue | src/core/util.cpp:386-442 | Moving the point by any integer keeps the value: zero padding on both sides, point insertion, signs and leading zeros. |
| ScientificNotation.DecimalIsReal | src/core/util.cpp:266-300 | Every such decimal passes the parser's own test for reals and contains no exponent mark. |
| ScientificNotation.RationalMantissa | src/core/util.cpp:370-443 | A mantissa n/d with any sign, leading zeros and any integer exponent e, d being a denominator the parser accepts, read in base eight when it starts with a zero: the result passes the parser's own test for reals if and only if e is not negative and n is not zero; for e >= 0 it is the sign, n without leading zeros, and d followed by e zeros. |
| ScientificNotation.RationalValue | src/core/util.cpp:370-443 | That result denotes n / (d * b^e), b being the base d is read in, and this is the right number n * 10^e / d if and only if e is zero. |

## Left out

- Operand sorting in `mkInternalOper` and the iteration order of unordered containers (such as the collected constants in `evaluateDistinct`, modelled in one fixed order): meanings do not depend on them.
- Simplifications of `mkOper` beyond folding constants; elsewhere it is a plain constructor.
- The error reports of `err_all` are modelled where a conversion ends because of them (DnfRounds.Raises); elsewhere, and for the exceptions of assertion macros, preconditions say which inputs reach them.
- Values of sorts other than Bool, Int and String (reals, bit-vectors, floating point) are not given arithmetic of their own: operators over them, and the operators on strings other than concatenation and the orders, are interpreted by the model. Equalities of bit-vectors and of floating-point numbers, which the source counts among the atoms, are not atoms here. The leniency between Int and Real.
- The two-argument overload of `mkDistinct`: no modelled code calls it.
- CnfPipeline.ToCnfCorrect: normal form and direct encoding. The table of atoms that `toCNF` fills beforehand (`cnf_bool_var_map`, `replaceAtoms`), `isCNF` and the elimination of redundant top-level conjuncts are not modelled; the encoder draws the variables of atoms as it meets them. The condition on string equalities is sufficient.
- Let chains and quantifiers in the encoders, which the source reports as unsupported there.
- CnfTheorems.TopLevelSound: one direction of an equivalence that is stated in full by TopLevelEquisatisfiable; the condition on implications is sufficient, not necessary, because a formula may be equivalent to its clauses by accident.
- Function definitions that call themselves (`FUNC_REC_APPLY`, `expand_recursive_functions`), and lets in `substitute` and `applyFun`.
- Substitution.SubstitutionLemma: the conditions are sufficient: a lost name or a captured parameter may happen not to matter (each is exact where it arises, Substitution.DatatypeNamesLost, or has an input, Substitution.ParamCaptured); lets are not modelled there, here and in SubstReads.
- Parametric datatypes in sort checks, and the final sorting of group members in `dumpSMT2`.
- `evaluateDivInt`, `evaluateMatch`, and the real, bit-vector, array and floating-point operators of the evaluator.
- Objectives and the variables, functions and sorts a scope declares: they follow the pattern of the vectors that are modelled.
- The overload `popLetScope(keys)`, which has no caller.
- Overflow of `size_t` in `dump_size_estimate` and of `int` in the exponent minus the length of the fraction.
- `bvRepeat`, rotations, `bvUdiv`, `bvUrem` and the bitwise operators: digit-wise or easy.
- CnfConverter.Converter.AssertTopCNF: the vector is fixed as a collection of clauses, not in its order; clause order has no meaning.
- CnfSize.TseitinIsLinear: no lets, whose expansion may itself grow; LetExpansion models it.
- Evaluation.EvalKeepsValue: the condition over a whole term is sufficient, because a misfolded node can be masked by its context; node by node it is exact (Evaluation.EvalExact).
- Negations of other than one operand: an assertion in `mkNot` excludes them.
- Implications of a single operand in `toNNF` and `toDNFEliminateAll`: `mkImplies` rejects them.
- LetScope.LetScopes.FindLet: the lookup among lets; quoted and unquoted spellings of one symbol and the order in which symbol tables are consulted are not modelled.
- Printing, reading of files, options, timing and the remaining Python bindings.
