# A verified model of the k1 compiler's core

k1 is a small language with structs, tagged enums, generics, pattern matching and a compiler that emits LLVM code.
This project models the algorithms at the centre of that compiler and proves what they are for. Seven parts:

**Pattern matching.** `PatternTypes` and `PatternElaboration` give types, values, patterns and the elaboration of
parsed patterns. `Constructors` generates the trial constructors of a type, `ConstructorPartition` proves that they
partition the type's values, and `ConstructorOrder` that they come in a fixed order. `MatchChecker` is the
exhaustiveness and usefulness check, `MatchReachability` says which arms of an accepted match are ever entered,
`StringArms` does so for literals and length tests on strings. `MatchCode`, `MatchCompiler` and `MatchCompilerCorrect`
are the match compiler: all arms' payload reads are hoisted in front of an if-chain, a payload read of the wrong
variant is poison, and evaluation is undefined when poison is inspected. `MatchVariables` proves that no two variables
of a compiled match share an id. `MatchSafety` says exactly for which types an accepted match can never reach the
crash call.

**Lowering to a control-flow graph.** `TypedTree` is the typed tree and its meaning, `ControlFlowGraph` the blocks and
the machine, `Lowering` what code generation emits as a function on the builder's state, and `LoweringBuilder` the
builder itself, with its insertion point, changed step by step. `LoweringCorrect` and `LoweredFunctions` prove that
the emitted code means the same as the tree, `LoweringFrame` and `LoweringWellFormed` that the graph is well formed.
`TreeTyping` gives trees the type checker's types and proves that evaluation respects them, `TreeLegality` that typed
trees are what code generation expects, and `LoopValues` deals with the value of a block that ends in a loop. Integer operations are a parameter, any function from two values to an
optional value, so the results hold whatever the widths, the signedness or the treatment of division by zero. Pointer
registers (the results of `alloca`) and value registers are numbered separately.

**Generics.** `TypePool` is the hash-consed pool with enums that own the entries before them, and the meaning of an id
as a tree. `GenericInvariants` and `Instantiation` are definitions and instantiation by substitution with memoisation,
`TypeExpansion` proves that it denotes simultaneous substitution, `TypeVariableTest` when the shallow type-variable
test is sound. `Inference` and `InferenceInverts` are type-argument inference and its inversion of substitution,
`InferenceSteps` is what it does with types that do not match, `CallInference` inference over the arguments of a call
and its expected type, and `CallSpecialization` what becomes of its result: ability constraints and the lookup of
specialised functions.

**Parsing.** `ExprParser` is the operator-precedence parser on an expression stack. `TypeExprGrammar` and
`TypeExprParser` are the grammar and the parser of type expressions, `TypeExprRoundTrip` proves them equal, and
`TypeExprPrinter` is the printer and what becomes of its output when it is parsed.

**Scopes and type definitions.** `Scopes` is the arena of scopes with its upward lookups and pending tables.
`Definitions` gives programs of type definitions, what names may stand for in them, what they need and when they are
safe. `DefinitionState` and `DefinitionSteps` are the state of their evaluation, its invariant and its steps,
`DefinitionRuns` the runs over all definitions of a program, `DefinitionEvaluator` the depth-first evaluation driven
by the pending tables. `DefinitionMeaning` says when what it yields is what the program says, whatever the order, and
`DefinitionShadowing` what a name comes to mean when definitions around it share it.

**The growable array.** `GrowableArray` is the standard library's array, what growth costs, and the loop
`for .. yield`, whose body may change variables.

**Memory layout of enums.** `EnumLayout` is the padding of variants and the size check, `EnumMemory` the byte-level
round trip through construction, load as the base struct, and payload read.

`Wrappers` holds the option and result types, `Powers` powers of numbers. A method that a part of the compiler
corresponds to is proved against a specification function, and the main results are proved about that function.

## Where the code does not do what one would expect

- A type whose trial constructors are not generated (a pointer, a reference, a float, an opaque alias, a bare enum
  variant) makes an enum variant with such a payload invisible to the exhaustiveness check. A match that is accepted
  can then crash. `MatchSafety.AcceptanceIsSafeExactlyWhen` gives the exact condition on the target type.
- The checker looks only at the first arm that claims no trial, and lets it pass if it is a literal of an innumerable
  type, whatever follows. `MatchReachability.RepeatedLiteralAccepted` is an accepted match with an arm that is never
  entered, `MatchReachability.RepeatedLengthAccepted` one on a string, where a length test repeats a literal, and
  `MatchReachability.LiteralArmsReachableExactlyWhen` the exact condition. Without a literal arm every arm is reached
  (`MatchReachability.AcceptedArmsAreReachable`).
- A pattern `.Some` without a sub-pattern compiles to a tag test but matches no trial constructor with a payload, so a
  match with such an arm is never accepted (`MatchReachability.OmittedPayloadRejected`). The same goes for a literal
  inside a pattern, such as `.Some(5)` (`MatchReachability.NestedLiteralRejected`).
- A string is also a struct, and elaboration takes a struct pattern on it, but its only trial constructor is matched
  by no struct pattern. `MatchReachability.StringStructPatternRejected` is a match whose first arm takes every string
  and is rejected as useless. `MatchChecker.ClaimsExactly` says for all patterns what the checker's matching decides.
- The type-variable test looks only at a variant's own payload, while code generation builds the variant's whole enum.
  `TypeVariableTest.AdmittedVariantLeaks` is a function that is admitted although code generation meets a type
  variable in its signature, `TypeVariableTest.AdmittedSignatureGeneratedExactlyWhen` the exact condition, and
  `TypeVariableTest.TestOnWholeEnumsIsSound` shows that asking the test about the enum instead would do.
- A `while` statement at the end of a block leaves the value of the statement before it as the block's value, although
  the type checker gives the block the type unit. `LoweredFunctions.CarriedLoopValue` is a function of type unit whose
  code returns `true`, `LoopValues.BlockAgreesExactlyWhen` the exact condition on a block, and
  `LoweredFunctions.CompletedCallAgreesExactlyWhen` that on a function's body.
- Inference goes by the name of a type variable and ignores its scope. A function's name is also a type, whose members
  are its parameters' types (`src/k1/typer.rs:1707-1725`, `src/k1/typer.rs:6232-6239`), so after `fn g[T](x: T): T`
  the signature `fn f[T](p: { a: T, b: g.x })` has two variables called T in one parameter type.
  `InferenceInverts.ClashingNamesFail` is a call of f that is refused although the passed type arises by substitution.
- Inference does not look into a variant of an enum that is not an instance.
  `InferenceInverts.HiddenVariableNotInferred` is a call of `fn f[T](x: enum A(T), B(i64).A): T` that finds nothing
  out about T, although the passed type is the parameter type with T replaced.
  `InferenceInverts.InferenceInvertsSubstitution` gives the exact condition for recovering a substitution, these
  variants and variables that share a name both included, and `InferenceInverts.AlwaysAgreesExactlyWhen` the one on
  names alone.
- Inferred type arguments come in the order in which the type parameters are met, written ones in that of their
  declaration, and both are then taken by position. A constraint on a type parameter is checked against the type at
  its position (`src/k1/typer.rs:5368-5384`), and a specialised function is found by the types alone
  (`src/k1/typer.rs:5578-5600`). `CallSpecialization.SwappedCallsClash` has, for `fn f[A, B](b: B, a: A)`, two calls
  that share a function although they mean different types by A and B.
  `CallSpecialization.ConstraintsRightExactlyWhen` and `CallSpecialization.ReuseRightExactlyWhen` are the exact
  conditions.
- Two variants that are fine separately can make an enum that code generation refuses, because padding the smaller one
  brings the larger alignment with it. `EnumLayout.MisalignedEnum` is such a pair, `EnumLayout.CodegenEnum` the exact
  condition.
- A name whose definition is still pending is evaluated on demand, but the type arguments it is applied to are then
  dropped unseen (`src/k1/typer.rs:1929-1943`), so `Box[Unit]` becomes `Box` if the definition that says so comes
  before that of Box. `DefinitionMeaning.ArgumentsDependOnOrder` is such a program.
  `DefinitionEvaluator.Typer.EvaluateAll` says for which programs no order loses arguments, with an order that does
  for the others: a definition that applies another to arguments must before that mention something that needs that
  other. `DefinitionMeaning.MeansMeantExactlyWhen` says that no other meaning is changed, names shared by definitions
  aside.
- A lookup finds the nearest definition that has been evaluated, even if one that has not is nearer. So with a
  definition's name used again in an enclosing namespace, a use of it depends on the order of the definitions.
  `DefinitionShadowing.ShadowingDependsOnOrder` evaluates one program in two orders and gets two meanings. In programs
  that can be evaluated, a use of another definition's name depends on the order if and only if two definitions around
  it have that name: it can come to mean each of them (`DefinitionShadowing.EvaluateBothWays`) and no other
  (`DefinitionShadowing.OnlyCandidatesAreMeant`). A definition's own name, too, comes to mean a definition around it
  that was written first (`DefinitionShadowing.FirstWrittenIsMeant`).
- The printer of type expressions calls itself on the whole struct for each of its fields
  (`src/k1/parse.rs:2894-2902`), so it never ends on a struct with a field, and it prints the variants of an enum
  without commas. `TypeExprPrinter.StructNeverPrinted` and `TypeExprPrinter.TagsRunTogether` are inputs,
  `TypeExprPrinter.RoundTripExactlyWhen` says exactly which parsed types are printed and read back.
- The parser of an enum type takes every comma after it for its own, so a list cannot go on after an enum: `Pair[enum
  A, i64]` has one type argument (`TypeExprPrinter.EnumTakesComma`).
- Boolean `or` evaluates both sides; only `and` short-circuits. The tree's meaning follows the code.

## Model

| member | source | states |
|---|---|---|
| PatternElaboration.EvalPattern | src/k1/typer.rs:2204-2360 | a parsed pattern is accepted exactly when it makes sense for the target type, struct patterns on strings, enum patterns on a bare variant and the range of numeric literals included, and the typed pattern is well typed and erases to it |
| PatternElaboration.FitsExactlyWhen | src/k1/typer.rs:2204-2360 | whether a parsed pattern makes sense for a type, by the rules of elaboration, is whether some well-typed pattern erases to it |
| PatternElaboration.TypedPatternIsUnique | src/k1/typer.rs:2204-2360 | and then only one does, so elaboration has no choice |
| PatternTypes.IntegerTypesSpan | src/k1/typer.rs:2684-2704 | the eight integer types have all values of 8, 16, 32 and 64 bits, unsigned or in two's complement, and no others |
| Constructors.GenerateConstructors | src/k1/typer.rs:6974-7041 | the recursive generation computes the specified list of trial constructors for every type, including the empty list for types without a rule |
| Constructors.GenerateVariant | src/k1/typer.rs:6991-7006 | one enum variant contributes its own constructor or its payload's constructors wrapped |
| Constructors.GenerateFields | src/k1/typer.rs:7009-7018 | the constructor lists of a struct's fields, each tagged with the field's name |
| Constructors.CrossProduct | src/k1/typer.rs:7019-7034 | the nested loops build exactly the rows of the cross product, in order |
| ConstructorPartition.Partition | src/k1/typer.rs:6974-7041 | for a supported type each value belongs to exactly one position in the list of generated constructors |
| ConstructorPartition.BelongsToAtMostOne | src/k1/typer.rs:6974-7041 | no value belongs to two different constructors of a type, supported or not |
| ConstructorPartition.CtorsNoDuplicates | src/k1/typer.rs:6974-7041 | the generated list has no duplicates |
| ConstructorPartition.Inhabited | src/k1/typer.rs:6974-7041 | every generated constructor has a value that belongs to it |
| ConstructorPartition.Counts | src/k1/typer.rs:6991-7034 | the number of constructors adds over enum variants and multiplies over struct fields |
| ConstructorOrder.CtorsInOrder | src/k1/typer.rs:6984-7034 | the list is in order: false before true, earlier variants first, and structs by the first field that differs, so the last field varies fastest |
| ConstructorOrder.EarlierIsAsymmetric | src/k1/typer.rs:6984-7034 | no two constructors come before each other in that order |
| MatchChecker.FirstMatching | src/k1/typer.rs:3654-3663 | the inner loop finds the first arm whose pattern matches the trial |
| MatchChecker.ScoreTrials | src/k1/typer.rs:3652-3663 | after the nested loops each arm's score is the number of trials it claims first, and exactly the unclaimed trials are alive |
| MatchChecker.Decide | src/k1/typer.rs:3665-3685 | the verdict is acceptance exactly by the specified rule, and a rejection names the first unhandled trial, or the first arm without a trial |
| MatchChecker.CheckArms | src/k1/typer.rs:3648-3686 | the whole check computes scores, alive trials and verdict for well-typed arms, whose patterns never miss a field |
| ConstructorOrder.UnhandledIsEarliest | src/k1/typer.rs:3665-3672 | the trial that a rejected match is reported for comes before every other one that no arm claims |
| MatchChecker.TypedPatternsPresent | src/k1/typer.rs:7069-7075 | for patterns that passed elaboration the field lookup of the matching function always succeeds |
| MatchChecker.ClaimedMeansMatched | src/k1/typer.rs:7043-7084 | a pattern that matches a constructor matches every value belonging to it |
| MatchChecker.ExactMatchedMeansClaimed | src/k1/typer.rs:7043-7084 | without literals of innumerable types and struct patterns on strings, and with a sub-pattern for every payload, a matched value's constructor is matched |
| MatchChecker.ClaimedMeansExact | src/k1/typer.rs:7043-7084 | no other pattern matches any constructor |
| MatchChecker.ClaimsExactly | src/k1/typer.rs:7043-7084 | for every pattern and constructor the matching function answers yes exactly when the pattern is of that kind and matches the constructor's values |
| MatchChecker.ScoresExactly | src/k1/typer.rs:3649-3685 | for any arms, an arm's score is positive exactly when some value picks it as the first arm of that kind that matches, and a trial stays unclaimed exactly when some value is matched by none |
| MatchChecker.UsefulnessIsExact | src/k1/typer.rs:3649-3685 | when all arms are of that kind, a score is positive exactly when some value has that arm as its first match, and a trial stays unclaimed exactly when some value has no match |
| MatchReachability.AcceptedArmsAreReachable | src/k1/typer.rs:3675-3685 | in an accepted match without a literal arm of an innumerable type, every arm is the first match of some value |
| MatchReachability.AcceptedOnInnumerableExactlyWhen | src/k1/typer.rs:3649-3686 | a match on characters, numbers or strings is accepted if and only if it has a catch-all arm, and the first arm without a trial, if any, is neither a second catch-all nor a struct pattern |
| MatchReachability.LiteralArmsReachableExactlyWhen | src/k1/typer.rs:3675-3685 | an accepted match with such a literal arm is on characters, numbers or strings; on characters and numbers all its arms are reached exactly when no literal repeats, nothing follows a catch-all, and the literals do not use up the type; on strings exactly when each arm adds a string to those before it, length tests included |
| StringArms.ArmReachedExactlyWhen | src/k1/typer.rs:3694-3865 | on strings a literal or length-test arm is the first match of some string exactly when, by the literals and lengths before it, something of its own is left |
| MatchReachability.RepeatedLiteralAccepted | src/k1/typer.rs:3675-3685 | the match { 1, 1, _ } is accepted although its second arm is never entered |
| MatchReachability.RepeatedLengthAccepted | src/k1/typer.rs:3675-3685 | the match { "", { len: 0 }, _ } on a string is accepted although its second arm is never entered |
| MatchReachability.OmittedPayloadRejected | src/k1/typer.rs:7052-7056 | a match with an arm that leaves out the sub-pattern for a payload is never accepted |
| MatchReachability.NestedLiteralRejected | src/k1/typer.rs:7043-7084 | nor is one with a character, number or string literal inside an arm's pattern, unless the target is a string |
| MatchReachability.StringStructPatternRejected | src/k1/typer.rs:6979-6981 | on a string, a first arm { len: n } takes every value and yet makes the match be rejected |
| MatchChecker.ScoresAddUp | src/k1/typer.rs:3649-3663 | the scores of all arms and the number of unclaimed trials add up to the number of trials |
| MatchCompiler.Typer.EvalMatchArm | src/k1/typer.rs:3694-3865 | compiling an arm yields the specified hoisted statements and condition and appends the specified bindings to the arm's block |
| MatchCompiler.Typer.EvalMatchArms | src/k1/typer.rs:3604-3645 | all arms in turn, with variables allocated in order and arm expressions allocating in between |
| MatchCompiler.Typer.EvalMatchExpr | src/k1/typer.rs:3497-3555 | the match block: target variable, all hoisted statements, then the if-chain; the next free variable is the one after all arms |
| MatchCompilerCorrect.ArmPreRuns | src/k1/typer.rs:3694-3865 | the hoisted statements of an arm are always defined, even when the reads are of the wrong variant |
| MatchCompilerCorrect.ArmDecides | src/k1/typer.rs:3694-3865 | an arm's condition is true exactly when its pattern matches, and then its bindings are those the pattern describes |
| MatchCompilerCorrect.ChainPicksFirst | src/k1/typer.rs:3557-3602 | an if-chain whose cases behave enters the first matching one, with `if true` and `if false` optimised out |
| MatchCompilerCorrect.CompiledMatchIsFirstMatch | src/k1/typer.rs:3497-3602 | for every value of the target type the compiled match runs the first matching arm with the described bindings, or crashes if there is none; it is never undefined, so no poison is inspected |
| MatchVariables.AllVariablesDiffer | src/k1/typer.rs:3497-3645 | the target, the hoisted reads, the bindings and the variables of all arm expressions have different ids, and these are exactly the ids handed out for the match |
| MatchSafety.AcceptedNeverCrashes | src/k1/typer.rs:3564-3571 | for a supported target type an accepted match never reaches the crash call |
| MatchSafety.AcceptanceIsSafeExactlyWhen | src/k1/typer.rs:7036-7039 | all accepted matches on a type are crash free if and only if the type is supported or has no trial constructors at all |
| LoweringBuilder.Builder.constructor | src/k1/codegen_llvm.rs:2400-2402 | a function starts with one empty entry block as the insertion point |
| LoweringBuilder.Builder.AppendBasicBlock | src/k1/codegen_llvm.rs:1886-1891 | adds one empty block and leaves the insertion point alone |
| LoweringBuilder.Builder.CodegenExprBasicValue | src/k1/codegen_llvm.rs:1355-1360 | an expression used for its value always has one: the panic on a divergent value does not happen for legal trees |
| LoweringBuilder.Builder.CodegenExpr | src/k1/codegen_llvm.rs:1422-1711 | emits exactly the specified code for each expression of the fragment |
| LoweringBuilder.Builder.CodegenBinop | src/k1/codegen_llvm.rs:1713-1755 | both sides left to right, then one instruction, for integer operations and boolean `or` |
| LoweringBuilder.Builder.CodegenAnd | src/k1/codegen_llvm.rs:1756-1786 | short-circuit `and` with three blocks, and the phi entry taken from the block in which the right side ends |
| LoweringBuilder.Builder.CodegenIfElse | src/k1/codegen_llvm.rs:1294-1351 | three blocks appended before the condition, branches that diverge left out of the phi |
| LoweringBuilder.Builder.CodegenVal | src/k1/codegen_llvm.rs:1255-1292 | a new cell, a store, and the pointer recorded for the variable |
| LoweringBuilder.Builder.CodegenBlockStatements | src/k1/codegen_llvm.rs:2251-2311 | the statement loop emits the specified code and returns the last value |
| LoweringBuilder.Builder.CodegenWhile | src/k1/codegen_llvm.rs:2286-2307 | condition, body and end blocks with the back edge |
| LoweringBuilder.Builder.CodegenFunction | src/k1/codegen_llvm.rs:2400-2475 | parameters into cells, the body, a return if the last block is still open; every block ends up with one terminator and correct phis |
| LoweringCorrect.Sim | src/k1/codegen_llvm.rs:1294-1351 | from the insertion point the emitted code of an expression reaches the same value and variable memory, the same return, the same failure, or runs at least as long as the fuel |
| LoweringCorrect.AllSim | src/k1/codegen_llvm.rs:2251-2311 | the same for statement lists, with the value so far kept in its register |
| LoweringCorrect.IfSim | src/k1/codegen_llvm.rs:1294-1351 | the same for `if`, where the phi picks the value of the branch taken however many blocks the branch made |
| LoweringCorrect.AndSim | src/k1/codegen_llvm.rs:1756-1786 | the same for `and`, whose right side runs only if the left side is true |
| LoweringCorrect.LoopSim | src/k1/codegen_llvm.rs:2286-2307 | the same for a loop from its test block, for any number of turns |
| LoweringFrame.LowerGrows | src/k1/codegen_llvm.rs:1294-1351 | lowering only appends to the current block and to blocks it added, never renumbers, and keeps all known variables |
| LoweringFrame.LowerSlots | src/k1/codegen_llvm.rs:1255-1292 | different variables never share a cell pointer |
| LoweringWellFormed.LowerWell | src/k1/codegen_llvm.rs:1307-1350 | whatever is lowered, every block worked on but the current one has exactly one terminator, closed blocks keep their predecessors, and each phi lists exactly its block's predecessors |
| LoweringWellFormed.NeverIsDivergent | src/k1/codegen_llvm.rs:1308-1348 | code generation treats an expression as divergent exactly where the type checker gives it the type never |
| LoweredFunctions.FunctionIsWellFormed | src/k1/codegen_llvm.rs:2450-2475 | in a finished function every block has exactly one terminator, at its end, and every phi comes first and lists exactly the predecessors |
| LoweredFunctions.FunctionRuns | src/k1/codegen_llvm.rs:2400-2475 | for every fuel the machine halts with the tree's result, fails where the tree fails, or takes at least that many steps |
| LoweredFunctions.LoweringPreservesMeaning | src/k1/codegen_llvm.rs:2251-2475 | the machine stops with a value, or goes wrong, if and only if the tree does |
| LoweredFunctions.LoweringPreservesDivergence | src/k1/codegen_llvm.rs:2286-2307 | the machine runs forever if and only if the tree's evaluation does not end |
| TreeTyping.TypesRespected | src/k1/typer.rs:5777-5803 | with loops of value unit, as typed, evaluation gives a value of the expression's type and keeps variables at their types |
| TreeLegality.TypedIsLegal | src/k1/typer.rs:5777-5803 | whatever has a type, defines each variable once and has no `if` or loop body from which nothing comes out is a legal tree, for which the results on code generation hold; an expression diverges exactly if its type is never |
| TreeLegality.JoinIsLeast | src/k1/typer.rs:4589-4640 | an `if` has the least type that both branches fit in, where never fits in everything |
| TreeLegality.OperationTyped | src/k1/typer.rs:4312-4356 | arithmetic takes numbers to a number, comparisons by size take numbers to a truth value, tests for equality any values of a type to one |
| LoweredFunctions.SettledFunctionsKeepTheirMeaning | src/k1/codegen_llvm.rs:2286-2310 | the same with a loop's value being unit as its type says, for functions in which the last statement before the loops at a block's end has type unit or is absent |
| LoweredFunctions.CompletedCallAgreesExactlyWhen | src/k1/codegen_llvm.rs:2286-2310 | for a call that reaches the end of a body of such statements, the machine returns the value that the types say if and only if the body does not end in a loop or the last statement before the loops has type unit or is absent |
| LoweredFunctions.CarriedLoopValue | src/k1/codegen_llvm.rs:2286-2310 | a concrete function of type unit whose emitted code returns true |
| LoopValues.SettledSame | src/k1/codegen_llvm.rs:2252-2310 | the two readings agree on every well-typed expression in whose blocks that holds |
| LoopValues.BlockAgreesExactlyWhen | src/k1/codegen_llvm.rs:2286-2310 | for a well-typed block that completes and ends in any number of loops, the two readings agree if and only if the last statement before the loops has type unit or is absent; for one that does not complete they always agree |
| TypePool.Types.constructor | src/k1/typer/types.rs:453-494 | the empty pool is valid |
| TypePool.Types.AddTypeExt | src/k1/typer/types.rs:453-492 | the returned id means exactly what the node means by its own fields and children, for scalars, integers, variables with their scope, references, anonymous structs and enums; with dedupe nothing changes if some entry means that; otherwise the entry is pushed, an enum after its variants, whose ids and back pointers are filled in |
| TypePool.Types.AddType | src/k1/typer/types.rs:494-496 | the deduplicating add returns an id of exactly that meaning, and keeps the pool valid and all existing entries |
| TypePool.Types.Push | src/k1/typer/types.rs:460-492 | pushing an entry that is not there yet keeps the pool valid; the new id is the last, right after the variants if the entry is an enum |
| TypePool.EqualMeansSame | src/k1/typer/types.rs:759-823 | an entry equals a type without a name, by the comparison that merges entries, if and only if it means the same; types with a name equal nothing |
| TypePool.AppendedKeepsInvariant | src/k1/typer/types.rs:460-492 | pushing keeps children below parents, enums right after their variants with correct back pointers, no two equal entries and unique instances |
| TypePool.NewEnumPlaced | src/k1/typer/types.rs:465-485 | a new enum with k variants at id e has them at e-k to e-1, pointing back to e |
| TypePool.VariantMeaning | src/k1/typer/types.rs:465-485 | a variant's id denotes its enum's tree together with its index, whatever else is in the pool |
| TypePool.DenStable | src/k1/typer/types.rs:453-492 | growing the pool changes no existing id's meaning |
| TypePool.DenInjective | src/k1/typer/types.rs:759-823 | in a valid pool two ids are equal exactly when they denote the same tree |
| Instantiation.GenericTypes.InstantiateGenericType | src/k1/typer.rs:1950-2015 | returns the memoised id or instantiates and records the result; the result of instantiating a struct or enum has the name and scope of its generic; the invariant of pool and table, which says so of every instance, holds after every call |
| Instantiation.GenericTypes.Define | src/k1/typer.rs:1300-1464 | a step of a type definition, adding its variables, parts, named type, alias or generic, returns an id of the meaning of what was added and keeps the invariant, provided a generic's variables are its parameters and other definitions mention none |
| Instantiation.GenericTypes.InstantiateRoot | src/k1/typer.rs:1991-2014 | the top-level call makes one new instance entry for a struct or enum body, with the definition of its generic, or substitutes in any other body |
| Instantiation.GenericTypes.InstantiateSubst | src/k1/typer.rs:2018-2182 | the returned id denotes the type with the parameters replaced, and every step goes to a smaller id |
| Instantiation.GenericTypes.SubstInstance | src/k1/typer.rs:2029-2053 | a nested instance is instantiated again on its substituted arguments, and kept if none changed |
| Instantiation.GenericTypes.SubstStruct | src/k1/typer.rs:2076-2106 | a struct is rebuilt from substituted fields; if no field changed its id is kept |
| Instantiation.GenericTypes.SubstEnum | src/k1/typer.rs:2124-2156 | the same for enums |
| Instantiation.GenericTypes.SubstVariable | src/k1/typer.rs:2055-2075 | a type variable that is a parameter becomes the passed type, any other stays |
| Instantiation.ClosedKeepsId | src/k1/typer.rs:2018-2182 | a type without variables keeps its id under substitution |
| Instantiation.InstanceIsNew | src/k1/typer.rs:1950-1982 | with no entry in the table for a generic and arguments there is no such instance in the pool, so at most one is ever made |
| GenericInvariants.GoodPoolGrows | src/k1/typer.rs:1950-2182 | adding an entry that is in order itself keeps the whole invariant of pool, generics, instances and table |
| TypeExpansion.InstantiationIsSubstitution | src/k1/typer.rs:1950-2182 | with every name and instance expanded, an instantiated type is the expanded generic body with its parameters replaced simultaneously by the expanded arguments |
| TypePool.InstanceInfoBelow | src/k1/typer/types.rs:519-540 | an entry's generic and arguments lie below it, also for a variant, whose enum lies above it |
| TypeVariableTest.ClosedReachesNoVariable | src/k1/codegen_llvm.rs:964-966 | the fully expanded type mentions no variable exactly when code generation visits no type-variable entry, where a variant leads to all payloads of its enum |
| TypeVariableTest.VarFreePasses | src/k1/typer/types.rs:586-644 | the test answers no on every type without a variable or a generic anywhere in it |
| TypeVariableTest.TestIsSoundExactlyWhen | src/k1/typer/types.rs:586-644 | if the test answers no, which looks only at instance arguments and at a variant's own payload, code generation meets neither a type variable nor a generic if and only if it visits no variant of an enum that is not an instance and that has a sibling leading to one |
| TypeVariableTest.GeneratedIsClosed | src/k1/codegen_llvm.rs:1170-1221 | a type from which code generation meets neither expands to one without variables |
| TypeVariableTest.TestOnWholeEnumsIsSound | src/k1/typer/types.rs:586-644 | it meets neither if the test also answers no on the whole enum of every variant visited |
| TypeVariableTest.AdmittedSignatureGeneratedExactlyWhen | src/k1/typer.rs:5680-5695 | the code of an admitted function's parameter and return types meets no type variable and no generic if and only if none of them leads to such a variant |
| TypeVariableTest.AdmittedVariantLeaks | src/k1/codegen_llvm.rs:1170-1173 | `fn f[T](x: enum A(T), B(i64).B): i64` is admitted although its parameter's code needs T |
| Inference.FindSolution | src/k1/typer.rs:5442-5443 | the first entry with the name, if there is one |
| Inference.SolveGenericParams | src/k1/typer.rs:5388-5556 | the recursive matching with early exits computes the specified outcome and terminates on smaller parameter types |
| Inference.SolveArgs | src/k1/typer.rs:5406-5435 | instance arguments pairwise, stopping at an error |
| Inference.SolveStruct | src/k1/typer.rs:5481-5508 | struct fields pairwise, stopping at the first name that differs |
| Inference.SolveEnum | src/k1/typer.rs:5509-5545 | enum variants pairwise, stopping at the first name or payload that differs |
| InferenceInverts.SolveInverts | src/k1/typer.rs:5388-5556 | matching a type that arose by a consistent assignment succeeds for every parameter type, and adds right entries, in the order of meeting them, for exactly the variables met outside variants of enums that are not instances, phantom parameters and repeated variables included |
| InferenceInverts.InferenceInvertsSubstitution | src/k1/typer.rs:5388-5556 | inference returns exactly the assignment that made the passed type, for whatever parameter type, if and only if same-named variables were replaced alike and each is met outside variants of enums that are not instances |
| InferenceInverts.VariantSolvedAsEnum | src/k1/typer.rs:5546-5553 | a variant passed for an enum is matched as its whole enum is, anonymous or an instance |
| InferenceInverts.VariantInvertsExactlyWhen | src/k1/typer.rs:5404-5556 | for a variant whose enum arose by a substitution, inference returns exactly the assignment under the same condition as for the enum itself |
| InferenceInverts.VariantRevealsVariable | src/k1/typer.rs:5515 | a variant passed for an enum of a type variable, from which the variable is inferred |
| InferenceInverts.HiddenVariableNotInferred | src/k1/typer.rs:5546-5553 | a passed variant type that is the parameter type with T replaced, from which nothing is inferred |
| InferenceInverts.AlwaysAgreesExactlyWhen | src/k1/typer.rs:5438-5473 | same-named variables of a parameter type are replaced alike by every substitution if and only if no two different variables share a name |
| InferenceInverts.DistinctNamesInvert | src/k1/typer.rs:5388-5556 | for such parameter types inference inverts every substitution if it meets all variables, and none with a variable it does not meet |
| InferenceInverts.OneScopeTellsVariables | src/k1/typer.rs:1466-1737 | a signature without member access and namespaces, all of whose names are looked up in one scope, is of that kind, and every variable in it is met |
| InferenceInverts.ClashingNamesFail | src/k1/typer.rs:5438-5473 | a call of a function with the parameter type { a: T, b: g.x } is refused, because g's own T shares the name, although the passed type arises by substitution |
| InferenceSteps.VariableSolvedOnce | src/k1/typer.rs:5438-5473 | a variable that has a solution accepts just that type or one that may stand for it, anything else is an error; one without gets the passed type |
| InferenceSteps.InstancesByArguments | src/k1/typer.rs:5404-5435 | instances of one generic are matched by their arguments and nothing else, those of different generics not at all |
| InferenceSteps.StructsUpToDifference | src/k1/typer.rs:5481-5508 | of structs that do not match, the fields before the first differing name are matched; with different numbers of fields none are |
| InferenceSteps.EnumsUpToDifference | src/k1/typer.rs:5509-5545 | the same for enums, where a passed payload without a partner is a difference, and a payload only on the other side is skipped |
| InferenceSteps.PairsInTurn | src/k1/typer.rs:5406-5435 | pairs are matched in order, each with the solutions of those before it, and nothing after an error |
| InferenceSteps.RestIgnored | src/k1/typer.rs:5415-5430 | of lists of different lengths what is left over of the longer one is ignored |
| InferenceSteps.OtherKindsRevealNothing | src/k1/typer.rs:5554 | types of different kinds solve nothing, unless a variant meets an enum |
| CallInference.InferCallTypeArgs | src/k1/typer.rs:5286-5366 | the loop over the arguments with its early stop, the expected type after it, and the refusal if a type parameter is left, compute the specified outcome |
| CallInference.CallInferredExactlyWhen | src/k1/typer.rs:5286-5366 | for argument types that come from the signature by a substitution, or are variants of enums that do, the call is accepted exactly when no argument is missing before all type parameters have been met, and each is met in a parameter with a typed argument, or in the return type if one is expected; then each gets its type, in the order of meeting |
| CallInference.EnoughIsEnough | src/k1/typer.rs:5296-5366 | for any call: matching goes through the arguments in order and ends at an error or with enough solutions, nothing after that is looked at, and the expected type is matched, last, only if solutions are still missing |
| CallSpecialization.CheckConstraints | src/k1/typer.rs:5368-5384 | the check passes exactly when the type at each position implements what is asked of the parameter declared there |
| CallSpecialization.ConstraintsRightExactlyWhen | src/k1/typer.rs:5368-5384 | whatever is asked and implemented, that is the same as each type parameter having got a type that fits, if and only if each position holds the type of the parameter declared there |
| CallSpecialization.InPlaceExactlyWhen | src/k1/typer.rs:5368-5384 | which is so for all types exactly when the type arguments come in the order of declaration |
| CallSpecialization.GenericFunction.constructor | src/k1/typer.rs:5557-5600 | a generic function without specialised ones |
| CallSpecialization.GenericFunction.Specialize | src/k1/typer.rs:5557-5681 | the specialised function with the same types in the same order, or a new one under that key; refused for a new one exactly if a name comes twice |
| CallSpecialization.ReuseRightExactlyWhen | src/k1/typer.rs:5578-5600 | a function made for arguments in one order gives every name its type in a call with them in another, for all types with equal keys, if and only if the orders are the same |
| CallSpecialization.SwappedCallsClash | src/k1/typer.rs:5578-5600 | for `fn f[A, B](b: B, a: A)` an inferred and a written call with equal keys and different meanings of A and B |
| ExprParser.Parser.ParseExpression | src/k1/parse.rs:1905-1979 | consumes operand (operator operand)* and returns the tree of exactly those tokens that is correctly nested by the groups of operators; fails exactly after an operator without operand |
| ExprParser.Parser.ParseOperators | src/k1/parse.rs:1909-1980 | the stack loop: the stack stays well formed and always spells the consumed tokens |
| ExprParser.Push | src/k1/parse.rs:1917-1955 | one round: reduce, then push operator and operand |
| ExprParser.Reduce | src/k1/parse.rs:1924-1951 | builds nodes for all stacked operators that bind at least as tightly as the new one |
| ExprParser.Collapse | src/k1/parse.rs:1958-1979 | the final loop leaves the one correct tree |
| ExprParser.StackShape | src/k1/parse.rs:1917-1965 | the stack alternates operand and operator, with strictly increasing precedences |
| ExprParser.CombineTop | src/k1/lex.rs:415-422 | when a node is built its right operand ends after its left one, so the span assertion never fires, and its span runs from its first to its last operand |
| ExprParser.TreeIsUnique | src/k1/typer.rs:343-355 | precedence and left association determine the tree from its tokens |
| ExprParser.PrecedencesOrderGroups | src/k1/typer.rs:343-355 | pipe binds tighter than remainder, that than multiplication and division, those than addition and subtraction, those than the six comparisons, those than `and`, that than `or`, that than the optional default, and no two operators bind alike but those of one group |
| ExprParser.TwoOperators | src/k1/parse.rs:1917-1955 | of `a op1 b op2 c` the right part is one operand if and only if op2 is in a tighter group than op1; otherwise the left part is |
| TypeExprParser.Parser.ParseTypeExpression | src/k1/parse.rs:1591-1637 | the cursor loop over postfix operators refines the parsing function and leaves the cursor right after the type |
| TypeExprParser.Parser.ParseBaseTypeExpression | src/k1/parse.rs:1643-1727 | the same for base types, structs and enums included; nothing is consumed where no type starts |
| TypeExprParser.Parser.ExpectNamespacedIdent | src/k1/parse.rs:2021-2049 | the same for namespaced names |
| TypeExprParser.Parser.ParseOptionalTypeArgs | src/k1/parse.rs:2003-2019 | the same for bracketed arguments |
| TypeExprParser.Parser.EatDelimited | src/k1/parse.rs:2354-2400 | the same for comma-separated lists of type arguments or struct fields with an optional trailing comma |
| TypeExprParser.Parser.ParseListElement | src/k1/parse.rs:1578-1589 | the same for one type argument or one field with its name |
| TypeExprParser.Parser.ParseEnumVariants | src/k1/parse.rs:1729-1773 | the same for the variants of an enum, which go on as long as a comma follows |
| TypeExprParser.Parser.ParseEnumVariant | src/k1/parse.rs:1742-1765 | the same for one variant with its payload, if any |
| TypeExprRoundTrip.TypeComplete | src/k1/parse.rs:1591-1713 | every spelling of a type, in a context that does not extend it, is parsed to that type |
| TypeExprRoundTrip.TypeSound | src/k1/parse.rs:1591-1713 | whatever is parsed was a spelling, and the parser stopped where it had to |
| TypeExprRoundTrip.ParserIsGrammar | src/k1/parse.rs:1591-1713 | parser and grammar agree in both directions |
| TypeExprPrinter.PrintingEndsExactlyWhen | src/k1/parse.rs:2875-2943 | the printer's recursion ends, whatever its depth, if and only if the type contains no struct with a field |
| TypeExprPrinter.PrintSpells | src/k1/parse.rs:2875-2943 | for types without such structs, without enums of two variants and without enums as type arguments, the tokens printed are a spelling of the tree |
| TypeExprPrinter.NotReadBack | src/k1/parse.rs:2924-2934 | for any other type on which the printer ends, what is printed is never parsed as that type, whatever follows |
| TypeExprPrinter.RoundTripExactlyWhen | src/k1/parse.rs:2875-2943 | a parsed type is printed and parsed back, consuming exactly what was printed, if and only if it is of the former kind, and then in exactly the contexts that do not extend it |
| TypeExprPrinter.StructNeverPrinted | src/k1/parse.rs:2894-2902 | `{ a: i64 }` is parsed but never printed |
| TypeExprPrinter.TagsRunTogether | src/k1/parse.rs:2924-2934 | `enum A, B` is printed as `enum AB` and read back as an enum with one variant |
| TypeExprPrinter.EnumTakesComma | src/k1/parse.rs:1729-1773 | `Pair[enum A, i64]` is parsed with one type argument |
| Scopes.FindIsNearest | src/k1/typer/scopes.rs:145-218 | a lookup returns the binding of the nearest enclosing scope that has one, and fails only if none has |
| Scopes.AncestryIsOrder | src/k1/typer/scopes.rs:268-280 | ancestry is a strict partial order, with the root above everything else |
| Scopes.NewScopeChangesNoLookup | src/k1/typer/scopes.rs:79-95 | adding a scope changes no lookup from an existing one, and lookups from the new one are those from its parent |
| Scopes.NewBindingIsSeenBelow | src/k1/typer/scopes.rs:194-218 | a new binding changes the result of exactly the lookups of its name from below its scope that no nearer scope answers |
| Scopes.RootCollectsAll | src/k1/typer/scopes.rs:282-291 | collecting from the root meets every pending entry of every scope, each once |
| Scopes.ScopeArena.constructor | src/k1/typer/scopes.rs:61-63 | the empty arena |
| Scopes.ScopeArena.AddRootScope | src/k1/typer/scopes.rs:65-69 | the first scope, without a parent |
| Scopes.ScopeArena.AddChildScope | src/k1/typer/scopes.rs:79-95 | a new scope below its parent; children lists mirror parents after it |
| Scopes.ScopeArena.AddVariable | src/k1/typer/scopes.rs:440-446 | a variable may be bound again |
| Scopes.ScopeArena.Add | src/k1/typer/scopes.rs:453-502 | any other name is bound unless the scope binds it already, in which case nothing changes |
| Scopes.ScopeArena.AddPendingTypeDefn | src/k1/typer/scopes.rs:509-520 | a definition becomes pending unless the scope has one of that name |
| Scopes.ScopeArena.RemovePendingTypeDefn | src/k1/typer/scopes.rs:256-266 | removes the nearest pending entry of the name and nothing else |
| Scopes.ScopeArena.AllPendingTypeDefnsBelow | src/k1/typer/scopes.rs:282-291 | yields each definition as often as it is pending in the scope or below it |
| DefinitionState.LookupMeans | src/k1/typer/scopes.rs:208-254 | at any time a lookup finds the type of the nearest definition of the name that has been evaluated, and if none has, the nearest definition, pending |
| DefinitionEvaluator.Typer.EvalTypeDefn | src/k1/typer.rs:1300-1464 | a definition's type is found or made, of the nearest evaluated candidates for its names; nothing is evaluated that it does not need or that is covered by an evaluated definition of the same name; it succeeds when names fit and needs go down in rank; with no shared names no arguments get lost if the program is safe or all needs had been evaluated, and some do if nothing had been evaluated and the definition is not safe |
| DefinitionEvaluator.Typer.constructor | src/k1/typer.rs:6615-6643 | once all definitions are pending in their scopes and none has a type, the invariant holds |
| DefinitionEvaluator.Typer.AddParams | src/k1/typer.rs:1339-1359 | each type parameter becomes a variable bound in the definition's own scope; fails exactly if a name comes twice |
| DefinitionEvaluator.Typer.EvalUse | src/k1/typer.rs:1872-1947 | a name in a definition becomes the parameter's variable, the reference to the definition itself, or the type of what it stands for, which is applied to the arguments only if it was bound |
| DefinitionEvaluator.Typer.ReferenceToSelf | src/k1/typer.rs:1906-1927 | all references of a definition to itself are one entry |
| DefinitionEvaluator.Typer.FinishDefn | src/k1/typer.rs:1373-1463 | the definition's type is pushed, its references to itself are resolved, its name is bound in place of the pending entry; fails exactly if it has got a type meanwhile |
| DefinitionEvaluator.Typer.EvaluateAll | src/k1/typer.rs:6645-6663 | whatever the order of writing: success if names fit and needs are acyclic; then each definition evaluated once, after what it is made from, all references resolved, nothing pending; with no names shared by a definition and one around it, no arguments lost in safe programs and in dependency order, some lost if an unsafe definition comes first; and the converse of success if none are lost |
| DefinitionEvaluator.NoneLeftToCollect | src/k1/typer.rs:6866-6873 | then collecting the pending definitions from the root finds none |
| DefinitionMeaning.MeansMeantExactlyWhen | src/k1/typer.rs:1300-1464 | all definitions' types mean what the program says if and only if every use was made from the nearest definition of its name and kept its arguments; with no shared names, if and only if no arguments were lost |
| DefinitionMeaning.OrderDoesNotMatter | src/k1/typer.rs:6645-6663 | with no shared names any two evaluations that lose no arguments give every definition the same meaning |
| DefinitionMeaning.ArgumentsDependOnOrder | src/k1/typer.rs:1929-1943 | a program of three definitions whose runs keep the arguments in one order and lose some in another |
| DefinitionRuns.RunKeeps | src/k1/typer.rs:6645-6663 | with no shared names a run loses no arguments if every definition is safe or each comes after all it needs |
| DefinitionRuns.RunLoses | src/k1/typer.rs:1929-1943 | and loses some, for good, if the first definition written is not safe |
| DefinitionShadowing.MeansACandidate | src/k1/typer.rs:1872-1947 | at any time the type of a use is that of a definition of the name around it, or, for a definition's own name, may be the reference to itself |
| DefinitionShadowing.FirstWrittenIsMeant | src/k1/typer.rs:6645-6663 | in every run that starts with any such definition and then the one with the use, that definition is what the use means in the end, nearest or not |
| DefinitionShadowing.OnlyCandidatesAreMeant | src/k1/typer.rs:1872-1947 | over all orders a use comes to mean only definitions of its name around it, so its meaning depends on the order only if there are two |
| DefinitionShadowing.EvaluateBothWays | src/k1/typer.rs:6645-6663 | and if there are two it does: two evaluations of the program both succeed and leave the use with each meaning |
| DefinitionShadowing.OwnNameFirst | src/k1/typer.rs:1899-1927 | a definition written first means itself by its own name, unless it needs another of that name |
| DefinitionShadowing.ShadowingDependsOnOrder | src/k1/typer.rs:6645-6663 | A in the root, A and B in a namespace: B is the outer A if that is written first, the inner one if the namespace is |
| GrowableArray.PushesMoveFew | builtins/core.k1:183-215 | n pushes keep the length within the capacity and carry over fewer than 2n elements in all, exactly the capacity gained since the first block, and none while the first capacity suffices |
| GrowableArray.CapacityIsLeastPower | builtins/core.k1:183-191 | an array that started empty has the least power of two with room for its elements as its capacity, but at least eight unless elements have 1024 bytes or more |
| GrowableArray.Array.constructor | builtins/core.k1:154-163 | an empty array of the given capacity, without a block if that is zero |
| GrowableArray.Array.Get | builtins/core.k1:165-182 | the element at the index, or the crash if there is none |
| GrowableArray.Array.Set | builtins/core.k1:173-176 | replaces one element in place and nothing else |
| GrowableArray.Array.Grow | builtins/core.k1:183-205 | a bigger block with the same contents |
| GrowableArray.Array.Push | builtins/core.k1:207-215 | appends the element, growing exactly when full |
| GrowableArray.ForYield | src/k1/typer.rs:3958-4208 | the loop runs the body on each element in order, each time with the variables as the last time left them, yields its values, and its array never grows |
| GrowableArray.LoopedAt | src/k1/typer.rs:3958-4208 | element k of the result is what the body makes of element k and of the variables after the elements before it |
| GrowableArray.PureLoopMaps | src/k1/typer.rs:3958-4208 | with a body that changes no variables the loop maps it over the array |
| EnumLayout.PaddingType | src/k1/codegen_llvm.rs:355-371 | the three loops compute the widest-first list of padding members |
| EnumLayout.WidestFirstFills | src/k1/codegen_llvm.rs:355-371 | the members fill the requested bits exactly, in order of width, at most four of them narrower than 64 bits |
| EnumLayout.VariantStructs | src/k1/codegen_llvm.rs:1018-1062 | the variant structs with tags and sizes, and the largest size |
| EnumLayout.PadVariants | src/k1/codegen_llvm.rs:1064-1089 | every smaller variant gets padding, and reaches the common size exactly when its alignment divides it |
| EnumLayout.PaddedSize | src/k1/codegen_llvm.rs:1064-1084 | padding starts right after the fields, so the padded size is the target rounded up to the variant's alignment, and the payload does not move |
| EnumLayout.CodegenEnum | src/k1/codegen_llvm.rs:984-1115 | an enum can be generated if and only if it has variants, fewer than the largest value of its one-byte tag, and the largest size is a multiple of every variant's alignment; then all variants and the base have that size |
| EnumLayout.LargestIsMaximum | src/k1/codegen_llvm.rs:1061-1062 | the common size is reached by a variant and exceeded by none |
| EnumLayout.MisalignedEnum | src/k1/codegen_llvm.rs:1104-1115 | two concrete variants that make the size check fail |
| EnumMemory.LoadThenStore | src/k1/codegen_llvm.rs:1605-1608 | loading the base's padding members and storing them elsewhere copies every byte |
| EnumMemory.AccessesInBounds | src/k1/codegen_llvm.rs:1570-1608 | tag, payload and base accesses stay inside the memory allocated for a variant |
| EnumMemory.EnumRoundTrip | src/k1/codegen_llvm.rs:1917-1943 | variant i built with a payload and loaded as the base has tag i, and reading the payload back gives the stored bytes |
| EnumMemory.TagTellsVariant | src/k1/codegen_llvm.rs:1893-1907 | the variant test is true for exactly the variant that was built |

## Left out

- Character-level lexing: tokens with kind, span and whitespace flag are given.
- Operands of expressions (calls, literals, blocks, postfix operators) inside the expression parser: an operand is one token.
- Spans of type expressions.
- LLVM itself, debug information and optimisation: replaced by basic blocks with a step-by-step machine and by a standard struct layout.
- Calls, field access, strings, globals and intrinsics in lowered trees, and the integer operations themselves, which are a parameter.
- An `if` whose both branches diverge, a loop body that ends in a return, and statements after a divergent one: code generation panics on the first, emits a second terminator for the second, and the type checker rejects the third.
- The bit representation of booleans.
- Recursive and mutually recursive types, function types and never inside generic bodies.
- The specialisation table is kept beside the pool, keyed by generic and arguments, instead of inside the generic's entry, so that pool entries never change.
- Instantiation.GenericTypes.InstantiateSubst: the `force_new` flag of the source is a separate method for the top-level call; for a reference body the two give the same id, because references are merged.
- Coercions besides equality of ids in the comparison of a variable's two solutions: any set of coercions is allowed, as a parameter.
- Subtyping, the definition of abilities and their implementations, and the bodies of functions, specialised ones included: which types implement which ability is given.
- CallInference.InferCallTypeArgs: an argument is given as its type or as untypable; how it is evaluated, and which argument goes with which parameter, is left out.
- MatchCompiler.Typer.EvalMatchArms: arm expressions are not compiled; each only allocates a number of variables.
- MatchReachability.LiteralArmsReachableExactlyWhen: matches with more arms than a string can be long are left out.
- LoopValues.SettledSame: one direction, for the reason given for the next.
- LoweredFunctions.SettledFunctionsKeepTheirMeaning: one direction, because a block that is never run or whose value is dropped changes nothing; the block-level and body-level results go both ways.
- DefinitionEvaluator.Typer.EvalUse: type operators, member access and namespaced names in type definitions are left out; a generic applied to arguments is kept as such.
- DefinitionEvaluator.Typer.FinishDefn: aliases and builtins are left out; what a definition builds is kept as the list of its parts.
- DefinitionShadowing.OwnNameFirst: for a definition's own name with another definition of that name around it, the condition for meaning itself is only a sufficient one; whether an earlier use brings the other into play can depend on names shared elsewhere.
- DefinitionEvaluator.Typer.EvaluateAll: which type arguments get lost is said for programs in which no definition has the name of one around it.
- DefinitionEvaluator.Typer.EvalTypeDefn: the depth of the recursion is bounded by a parameter; on cyclic needs the source overflows its stack where the model runs out of depth.
- The owners of scopes and the walk along namespace chains.
- GrowableArray.ForYield: the loop's body works on variables, but does not change the array it runs over.
- Failing allocations.
- Widths of ids, counters and sizes: all are unbounded.
