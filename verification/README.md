# cppmpc core in Dafny

This project models the core of cppmpc, a C++ library for fast model-predictive
control. It covers the symbolic side: constraints are written as SymEngine
expressions, collected per kind, linearised, differentiated and turned into C source.
It also covers the integer checks the numeric solver makes before iterating.

What is modelled:

- **Symbols and their tags.** A variable is a symbol whose name starts with `$v_`;
  a parameter is one whose name starts with `$p_`. `getSymbols` is a visitor that
  collects every symbol leaf of an expression tree. Variables and parameters are
  the symbols carrying the matching tag.
- **`OrderedSet`.** A class with a vector of symbols and an index map. Its methods
  keep the two consistent: no duplicates, and each element maps to its position.
  `insert`, `append`, `remove`, `at`, `contains`, `isSubset`, `unionWith` and
  `isConsistent` are methods or functions of that class.
- **Constraint lists.** `SymbolicEqualityConstraints` and
  `SymbolicInequalityConstraints` are classes over a sequence of expressions.
  - An equality `l = r` is stored as `l - r`.
  - `l < r` is stored as `l - r`, and `l > r` as `r - l`.
- **Linearisation.** `convertToLinearSystem` turns the equality constraints into
  a matrix and a vector. It fails with a runtime error when:
  - a variable is missing from the ordering; or
  - a term is not linear.

  Otherwise row `i` holds the coefficients of the variables in ordering order, and
  the vector holds the negated constant term.
- **Barrier and derivatives.** The barrier is `-log(-c)` summed over the
  inequality constraints. Its gradient and Hessian are built from SymEngine's
  `diff`, and the Hessian is proved to be the Jacobian of the gradient.
- **Code generation.** `generateDenseMatrixCode` first checks that every symbol has
  a representation, then emits one column-major C assignment per matrix entry.
  Three generators name each symbol `state[i]` or `param[i]` after its ordering
  position and wrap the statements in C functions:
  - `generateObjectiveFunctions`;
  - `generateSymbolicEqualityFunctions`;
  - `generateSymbolicInequalityFunctions`.

  `writeFunctionsToFile` builds the file text inside an `extern "C"` block. The
  legacy `generateSymbolicEqualityCode` is modelled too.
- **Solver checks.**
  - `Objective::validate` checks the shape of the equality matrix and vector.
  - The `Solver` constructor throws `validate`'s message when validation is
    compiled in. Validation is in unless `NO_VALIDATE_OBJECTIVE` is defined.
  - `minimize` picks its start vectors. It checks their lengths only when
    `NO_VALIDATE_OBJECTIVE` IS defined, since the checks sit under
    `#ifdef NO_VALIDATE_OBJECTIVE`. The model follows the code in this.
- **`FunctionPointerObjective`.** A class holding eight function pointers, counts
  and an optional parameter vector, with setters and accessors. Its `validate`
  reports the first null pointer, then the parameter check, then
  `Objective::validate`.

How SymEngine is represented:

- SymEngine itself is not modelled. Its operations are the fields of a record
  `Algebra` of total functions: `add`, `sub`, `neg`, `log`, `diff`, `expand`,
  `xreplace`, `ccode` and `toPoly`. Every statement about them holds for any such
  functions.
- Expressions are a tree datatype (`Sym`, `Num`, `Eq`, `Node`), so the symbol
  visitor is real recursion.
- `toPoly`'s generator list `gens` is a parameter. It is required to be a
  duplicate-free arrangement of the ordering's elements (`Generators`).
- Unordered SymEngine sets are Dafny sets. A loop that drains one picks an
  element with `:|`.
- C++ exceptions are `Result` errors:
  - `OutOfRange` for `std::vector::at`, and for `std::map::at` behind `indexOf`;
  - `RuntimeError(message)`, carrying the source's exact message text.
- Undefined behaviour in the source becomes a `requires`. Examples:
  `vector::insert`/`erase` at a bad position, and dereferencing an empty optional.

The two copies of several files (cppmpc/ and src/) are modelled once where they
agree. The `src/` utility vectors differ from the `cppmpc/` ones; they are modelled
separately in `LegacyUtilities` (see Findings).

## Model

| member | source | states |
|---|---|---|
| `OrderedSets.OrderedSet.constructor` | include/OrderedSet.h:25 | a new set is empty and consistent |
| `OrderedSets.OrderedSet.Contains` | include/OrderedSet.h:66-68 | membership in the index map is exactly membership in the vector |
| `OrderedSets.OrderedSet.At` | include/OrderedSet.h:60-62 | returns element `i` when `i < size`, otherwise fails with out_of_range |
| `OrderedSets.OrderedSet.IndexOf` | cppmpc/CodeGenerator.cpp:95 | succeeds exactly for elements, with a position holding that element; a non-element gives out_of_range |
| `OrderedSets.OrderedSet.Insert` | include/OrderedSet.h:31-48 | inserting an element already present changes nothing; otherwise the element lands at `index` and the rest shift; consistency is kept |
| `OrderedSets.OrderedSet.Append` | include/OrderedSet.h:29 | append is insert at the end and keeps consistency |
| `OrderedSets.OrderedSet.Remove` | include/OrderedSet.h:52-58 | removes element `i` and re-indexes the tail; an index past the end fails with out_of_range and changes nothing |
| `OrderedSets.OrderedSet.IsSubset` | include/OrderedSet.h:71-78 | true exactly when every element of `other` is in this set |
| `OrderedSets.OrderedSet.UnionWith` | include/OrderedSet.h:80-84 | appends the other set's elements in order, skipping those present; consistency is kept |
| `OrderedSets.OrderedSet.IsConsistent` | include/OrderedSet.h:88-100 | a consistent set answers true; otherwise the answer is the consistency predicate, or out_of_range when an element has no index entry |
| `OrderedSets.ConsistentMeansDistinct` | include/OrderedSet.h:88-100 | a consistent vector and map hold no duplicates, and the map's keys are the vector's elements |
| `OrderedSets.DistinctIsConsistent` | include/OrderedSet.h:88-100 | a duplicate-free vector with a map from each element to its position is consistent |
| `OrderedSets.AppendFacts` | include/OrderedSet.h:29 | appending keeps the set duplicate-free, adds exactly the element and keeps the old prefix |
| `OrderedSets.InsertFacts` | include/OrderedSet.h:31-48 | inserting a new element at `i` places it at `i`, keeps the elements before `i` and shifts the rest by one |
| `OrderedSets.InsertElements` | include/OrderedSet.h:31-48 | insertion adds exactly the new element |
| `OrderedSets.InsertStart` | include/OrderedSet.h:43-47 | after the vector insert and the map insert, the entries below `index` are still correct before re-indexing |
| `OrderedSets.RemoveFacts` | include/OrderedSet.h:52-58 | removal drops exactly element `i`, keeps the prefix, shifts the tail down and stays duplicate-free |
| `OrderedSets.RemoveStart` | include/OrderedSet.h:53-55 | after the map erase and the vector erase, the entries below `index` are still correct before re-indexing |
| `OrderedSets.UnionFacts` | include/OrderedSet.h:80-84 | the union is duplicate-free, holds both sets' elements and keeps this set as its prefix |
| `OrderedSets.UnionKeepsPresent` | include/OrderedSet.h:80-84 | the union with a set whose elements are all present changes nothing |
| `OrderedSets.UnionIdempotent` | include/OrderedSet.h:80-84 | taking the union with the same set twice is the same as once |
| `OrderedSets.UnionMember` | include/OrderedSet.h:80-84 | every element of either operand is in the union |
| `OrderedSets.UnionSize` | include/OrderedSet.h:80-84 | the union's size is the size of the set union of the two element sets |
| `OrderedSets.AppendsKeepFirstAppearance` | include/OrderedSet.h:29 | appending a sequence one by one keeps each element once, in order of first appearance |
| `OrderedSets.SubsetOrder` | include/OrderedSet.h:71-78 | the subset check is reflexive, and mutual subsets hold the same elements |
| `OrderedSets.OrderedSetExample` | tests/OrderedSetTest.cpp:12-38 | the test's sequence: consistent throughout; x, y, z at 0, 1, 2 and size 3; after `remove(0)`, y, z and size 2 |
| `OrderedSets.Reindex` | include/OrderedSet.h:45-47 | the re-indexing loop, started where the entries in front are right, leaves the vector and map consistent |
| `OrderedSets.FirstIndex` | include/OrderedSet.h:43-47 | the index of an element is the position where it first occurs |
| `SymbolCollection.GetSymbolsVisitor.constructor` | include/GetSymbolsVisitor.h:30 | a new visitor has collected nothing |
| `SymbolCollection.GetSymbolsVisitor.Visit` | src/GetSymbolsVisitor.cpp:18-26 | visiting adds exactly the symbols of the expression to those collected |
| `SymbolCollection.GetSymbolsVisitor.VisitArgs` | src/GetSymbolsVisitor.cpp:22-26 | visiting the arguments in turn adds the symbols of every argument |
| `SymbolCollection.GetSymbolsVisitor.Apply` | src/GetSymbolsVisitor.cpp:28-31 | returns the collected set, which gained exactly the expression's symbols |
| `SymbolCollection.GetSymbols` | cppmpc/SymEngineUtilities.cpp:166-169 | a symbol is returned exactly when it occurs as a leaf of the expression |
| `SymbolCollection.OccurrenceIsCollected` | src/GetSymbolsVisitor.cpp:18-26 | a symbol at any path in the tree is collected |
| `SymbolCollection.CollectedOccurs` | src/GetSymbolsVisitor.cpp:18-26 | every collected symbol is found at some path in the tree |
| `SymbolCollection.SymbolsAreLeaves` | src/GetSymbolsVisitor.cpp:18-26 | collected symbols are exactly the symbols that occur in the expression |
| `SymbolCollection.SymbolExamples` | tests/GetSymbolsVisitorTest.cpp:12-37 | one symbol gives itself; `x*y` has two symbols; `x*y + z` contains x, y and z |
| `SymEngineUtilities.ClassificationIsPrefix` | cppmpc/SymEngineUtilities.cpp:171-205 | a symbol is a variable (parameter) exactly when its name starts with `$v_` (`$p_`), and never both |
| `SymEngineUtilities.Variable` | cppmpc/SymEngineUtilities.cpp:36-38 | a variable's name is `$v_` before the given name; it is a variable and not a parameter |
| `SymEngineUtilities.Parameter` | cppmpc/SymEngineUtilities.cpp:50-52 | a parameter's name is `$p_` before the given name; it is a parameter and not a variable |
| `SymEngineUtilities.IndexedNamesDiffer` | cppmpc/SymEngineUtilities.cpp:40-48 | base name plus different indices give different names |
| `SymEngineUtilities.VariableVector` | cppmpc/SymEngineUtilities.cpp:40-48 | `num` variables, the `i`-th named after base and `i`, all distinct |
| `SymEngineUtilities.ParameterVector` | cppmpc/SymEngineUtilities.cpp:54-62 | `num` parameters, the `i`-th named after base and `i`, all distinct |
| `SymEngineUtilities.Factorial` | cppmpc/SymEngineUtilities.cpp:72-78 | the loop computes `start!` modulo 2^64 (size_t arithmetic) |
| `SymEngineUtilities.FactGrows` | cppmpc/SymEngineUtilities.cpp:72-78 | factorial is monotone |
| `SymEngineUtilities.SmallFactorialsAreExact` | cppmpc/SymEngineUtilities.cpp:72-78 | up to 20! the size_t result is exact; 21! wraps around |
| `SymEngineUtilities.WithTag` | cppmpc/SymEngineUtilities.cpp:171-181 | keeps exactly the symbols of the set that carry the tag |
| `SymEngineUtilities.VariablesAndParameters` | cppmpc/SymEngineUtilities.cpp:171-205 | a symbol is a variable (parameter) of an expression exactly when it occurs there and its name starts with `$v_` (`$p_`); never both |
| `SymEngineUtilities.KeepTagged` | cppmpc/SymEngineUtilities.cpp:171-181 | the filtering loop keeps exactly the tagged symbols |
| `SymEngineUtilities.GetVariables` | cppmpc/SymEngineUtilities.cpp:171-181 | returns the variables of the expression |
| `SymEngineUtilities.GetParameters` | cppmpc/SymEngineUtilities.cpp:195-205 | returns the parameters of the expression |
| `SymEngineUtilities.CollectTagged` | cppmpc/SymEngineUtilities.cpp:183-193 | the double loop over a matrix returns exactly the tagged symbols of some entry |
| `SymEngineUtilities.GetVariablesOfMatrix` | cppmpc/SymEngineUtilities.cpp:183-193 | a symbol is returned exactly when it is a variable of some entry |
| `SymEngineUtilities.GetParametersOfMatrix` | cppmpc/SymEngineUtilities.cpp:207-218 | a symbol is returned exactly when it is a parameter of some entry |
| `SymEngineUtilities.UtilUnion` | cppmpc/SymEngineUtilities.cpp:228-232 | the result is the union of both sets |
| `SymEngineUtilities.GradientOf` | cppmpc/SymEngineUtilities.cpp:121-130 | an n-by-1 matrix whose entry `i` is the derivative by the `i`-th variable of the ordering |
| `SymEngineUtilities.JacobianOf` | cppmpc/SymEngineUtilities.cpp:132-146 | an n-by-n matrix whose entry `(r, c)` is the derivative of entry `r` by variable `c` |
| `SymEngineUtilities.HessianOf` | cppmpc/SymEngineUtilities.cpp:148-164 | an n-by-n matrix whose entry `(r, c)` is the derivative by variable `r`, then by variable `c` |
| `SymEngineUtilities.HessianIsJacobianOfGradient` | cppmpc/SymEngineUtilities.cpp:148-164 | the Hessian is the Jacobian of the gradient |
| `SymEngineUtilities.Gradient` | cppmpc/SymEngineUtilities.cpp:121-130 | the loop builds the gradient |
| `SymEngineUtilities.Jacobian` | cppmpc/SymEngineUtilities.cpp:132-146 | the double loop builds the Jacobian |
| `SymEngineUtilities.Hessian` | cppmpc/SymEngineUtilities.cpp:148-164 | the double loop builds the Hessian |
| `SymEngineUtilities.ExpandAll` | cppmpc/SymEngineUtilities.cpp:220-226 | every entry is replaced by its expansion, and the shape is kept |
| `LegacyUtilities.LegacyNamesDiffer` | src/SymEngineUtilities.cpp:39 | different indices give different legacy names |
| `LegacyUtilities.PushAfterNulls` | src/SymEngineUtilities.cpp:35-42 | the loop pushes after `num` null entries, as written |
| `LegacyUtilities.LegacyVariableVector` | src/SymEngineUtilities.cpp:35-42 | as written: `2*num` entries, the first `num` null, then the variables |
| `LegacyUtilities.LegacyParameterVector` | src/SymEngineUtilities.cpp:48-55 | as written: `2*num` entries, the first `num` null, then the parameters |
| `LegacyUtilities.AsWrittenHasNulls` | src/SymEngineUtilities.cpp:35-55 | for any `num >= 1`, the vector's length is not `num` and its first entry is null |
| `LegacyUtilities.IntendedLegacyVector` | src/SymEngineUtilities.cpp:35-55 | corrected: exactly `num` distinct symbols, the `i`-th named after base and `i` |
| `ConstraintLists.InUnionOver` | src/SymbolicEquality.cpp:61-67 | a symbol is in the union over the constraints exactly when some constraint has it |
| `ConstraintLists.UnionOfTagged` | src/SymbolicEquality.cpp:69-83 | the variables (parameters) of all constraints are the tagged symbols of all constraints |
| `ConstraintLists.RunQuery` | src/SymbolicEquality.cpp:61-83 | runs the requested symbol, variable or parameter query on one expression |
| `ConstraintLists.CollectOver` | src/SymbolicEquality.cpp:61-67 | the loop with `util_union` collects the union over all constraints |
| `ConstraintLists.InsertAt` | cppmpc/SymbolicInequality.cpp:53-56 | inserting puts `b` at `i` and shifts the rest by one |
| `ConstraintLists.RemoveAt` | cppmpc/SymbolicInequality.cpp:44-46 | removing drops entry `i` and shifts the rest down |
| `ConstraintLists.InsertRemoveInverse` | cppmpc/SymbolicInequality.cpp:44-56 | removing what was inserted restores the list; reinserting a removed entry restores it |
| `SymbolicEquality.SymbolicEqualityConstraints.constructor` | include/SymbolicEquality.h:29 | a new list is empty |
| `SymbolicEquality.SymbolicEqualityConstraints.InsertConstraint` | src/SymbolicEquality.cpp:49-52 | inserts the expression at `index` |
| `SymbolicEquality.SymbolicEqualityConstraints.InsertDifference` | src/SymbolicEquality.cpp:54-59 | inserts `left - right` at `index` |
| `SymbolicEquality.SymbolicEqualityConstraints.AppendConstraint` | src/SymbolicEquality.cpp:31-33 | appends the expression |
| `SymbolicEquality.SymbolicEqualityConstraints.AppendDifference` | src/SymbolicEquality.cpp:35-38 | appends `left - right` |
| `SymbolicEquality.SymbolicEqualityConstraints.RemoveConstraint` | src/SymbolicEquality.cpp:40-42 | removes entry `index` |
| `SymbolicEquality.SymbolicEqualityConstraints.GetConstraint` | src/SymbolicEquality.cpp:44-47 | returns entry `index`, or out_of_range past the end |
| `SymbolicEquality.SymbolicEqualityConstraints.GetSymbols` | src/SymbolicEquality.cpp:61-67 | the union of every constraint's symbols |
| `SymbolicEquality.SymbolicEqualityConstraints.GetVariables` | src/SymbolicEquality.cpp:69-75 | the union of every constraint's variables |
| `SymbolicEquality.SymbolicEqualityConstraints.GetParameters` | src/SymbolicEquality.cpp:77-83 | the union of every constraint's parameters |
| `SymbolicEquality.SymbolicEqualityConstraints.ConvertToLinearSystem` | src/SymbolicEquality.cpp:94-191 | the conversion loop computes the linear system of the constraints over the ordering, including its error cases |
| `SymbolicEquality.GetSymEngineSet` | src/SymbolicEquality.cpp:85-91 | the set holds exactly the ordering's elements |
| `SymbolicEquality.ContainsAll` | src/SymbolicEquality.cpp:96-107 | true exactly when every constraint variable is in the ordering |
| `SymbolicEquality.IndexOfSymbols` | src/SymbolicEquality.cpp:120-122 | maps every ordering element to its position |
| `SymbolicEquality.ScanExponents` | src/SymbolicEquality.cpp:163-177 | the scan flags a term non-linear, constant or linear in one generator exactly as `Classify` does |
| `SymbolicEquality.FillRow` | src/SymbolicEquality.cpp:150-187 | fails exactly on a non-linear term; otherwise fills one matrix row with the row's coefficients and leaves the others alone |
| `SymbolicEquality.ConvertRow` | src/SymbolicEquality.cpp:126-189 | one iteration of the row loop fails exactly when that row is not linear; otherwise the rows so far agree with the specification |
| `LinearExtraction.FirstNonZero` | src/SymbolicEquality.cpp:163-177 | the first non-zero exponent, with every earlier one zero |
| `LinearExtraction.Classify` | src/SymbolicEquality.cpp:163-177 | a linear term's position is a valid exponent index |
| `LinearExtraction.ClassifyMeaning` | src/SymbolicEquality.cpp:163-177 | constant means all exponents zero; linear at `p` means exponent `p` is 1 and all others zero |
| `LinearExtraction.NonLinearWitness` | src/SymbolicEquality.cpp:163-177 | an exponent other than 0 or 1, or a second non-zero exponent, makes the term non-linear |
| `LinearExtraction.Column` | src/SymbolicEquality.cpp:178-187 | generator `p` goes in the column of its position in the ordering |
| `LinearExtraction.RowOf` | src/SymbolicEquality.cpp:150-187 | a successful row has one coefficient per ordering entry |
| `LinearExtraction.RowFails` | src/SymbolicEquality.cpp:150-187 | a row fails exactly when some term is non-linear, and then with the non-linear message |
| `LinearExtraction.RowCoefficient` | src/SymbolicEquality.cpp:178-187 | the coefficient in column `c` is that of the term linear in the variable of column `c`, or zero when there is none |
| `LinearExtraction.RowRemainder` | src/SymbolicEquality.cpp:178-187 | the remainder is the constant term's coefficient, or zero when there is none |
| `LinearExtraction.SameColumnSameMonomial` | src/SymbolicEquality.cpp:178-187 | two linear terms in the same column have the same monomial |
| `LinearExtraction.RowsMeaning` | src/SymbolicEquality.cpp:126-189 | the rows succeed exactly when every constraint is linear; each row is that constraint's row; a failure carries the non-linear message |
| `LinearExtraction.ConversionFails` | src/SymbolicEquality.cpp:96-107 | the superset error happens exactly when a variable is missing from the ordering; with all variables present, any error is the non-linear message |
| `LinearExtraction.ConversionShape` | src/SymbolicEquality.cpp:110-116 | the matrix has one row per constraint and one column per ordering entry; the vector has one row per constraint |
| `LinearExtraction.FailsAtRow` | src/SymbolicEquality.cpp:126-189 | one non-linear constraint makes the whole conversion fail with the non-linear message |
| `LinearExtraction.AssembleSystem` | src/SymbolicEquality.cpp:126-189 | matrices that agree with every row are the conversion's result |
| `EqualityExample.ExampleGenerators` | tests/EqualityConstraintTest.cpp:32-65 | in the test's ordering the generators land in columns 2, 1 and 0 |
| `EqualityExample.ExampleSuperset` | tests/EqualityConstraintTest.cpp:32-65 | the test's constraint variables are all in the ordering |
| `EqualityExample.ExampleFirstRow` | tests/EqualityConstraintTest.cpp:32-65 | the test's first constraint gives coefficients `[0, -3, 1]` and remainder `-4` |
| `EqualityExample.ExampleSecondRow` | tests/EqualityConstraintTest.cpp:32-65 | the test's second constraint gives coefficients `[0.5, 0, 0]` and the parameter term as remainder |
| `EqualityExample.BasicLinearization` | tests/EqualityConstraintTest.cpp:32-65 | the whole test system converts to the expected matrix and the vector `[4, -k]` |
| `EqualityExample.ExampleAssembly` | tests/EqualityConstraintTest.cpp:32-65 | the two rows assemble to the test's expected matrix and vector |
| `SymbolicInequality.BarrierSplits` | cppmpc/SymbolicInequality.cpp:96-104 | the running sum over two lists is the sum over the second, started from the sum over the first |
| `SymbolicInequality.BarrierOfAppend` | cppmpc/SymbolicInequality.cpp:96-104 | the barrier of no constraints is zero; one more constraint adds its `-log(-c)` term |
| `SymbolicInequality.GreaterThan` | cppmpc/SymbolicInequality.cpp:65-70 | `l > r` is stored as `r < l` |
| `SymbolicInequality.SymbolicInequalityConstraints.constructor` | include/SymbolicInequality.h:29 | a new list is empty |
| `SymbolicInequality.SymbolicInequalityConstraints.NumConstraints` | include/SymbolicInequality.h:104 | the number of stored constraints |
| `SymbolicInequality.SymbolicInequalityConstraints.InsertNormalConstraint` | cppmpc/SymbolicInequality.cpp:53-56 | inserts the expression at `index`; src/SymbolicInequality.cpp:48-51 is identical |
| `SymbolicInequality.SymbolicInequalityConstraints.InsertLessThan` | cppmpc/SymbolicInequality.cpp:58-63 | inserts `left - right` at `index` |
| `SymbolicInequality.SymbolicInequalityConstraints.InsertGreaterThan` | cppmpc/SymbolicInequality.cpp:65-70 | inserts `right - left` at `index` |
| `SymbolicInequality.SymbolicInequalityConstraints.AppendNormalConstraint` | cppmpc/SymbolicInequality.cpp:29-32 | appends the expression |
| `SymbolicInequality.SymbolicInequalityConstraints.AppendLessThan` | cppmpc/SymbolicInequality.cpp:34-37 | appends `left - right` |
| `SymbolicInequality.SymbolicInequalityConstraints.AppendGreaterThan` | cppmpc/SymbolicInequality.cpp:39-42 | appends `right - left` |
| `SymbolicInequality.SymbolicInequalityConstraints.RemoveConstraint` | cppmpc/SymbolicInequality.cpp:44-46 | removes entry `index` |
| `SymbolicInequality.SymbolicInequalityConstraints.GetConstraint` | cppmpc/SymbolicInequality.cpp:48-51 | returns entry `index`, or out_of_range past the end |
| `SymbolicInequality.SymbolicInequalityConstraints.GetSymbols` | cppmpc/SymbolicInequality.cpp:72-78 | the union of every constraint's symbols |
| `SymbolicInequality.SymbolicInequalityConstraints.GetVariables` | cppmpc/SymbolicInequality.cpp:80-86 | the union of every constraint's variables |
| `SymbolicInequality.SymbolicInequalityConstraints.GetParameters` | cppmpc/SymbolicInequality.cpp:88-94 | the union of every constraint's parameters |
| `SymbolicInequality.SymbolicInequalityConstraints.SymbolicBarrierValue` | cppmpc/SymbolicInequality.cpp:96-104 | the loop's running sum is the barrier of the constraints |
| `SymbolicInequality.SymbolicInequalityConstraints.SymbolicBarrierGradient` | cppmpc/SymbolicInequality.cpp:106-109 | the gradient of the barrier over the ordering |
| `SymbolicInequality.SymbolicInequalityConstraints.SymbolicBarrierHessian` | cppmpc/SymbolicInequality.cpp:111-114 | the Hessian of the barrier over the ordering |
| `DenseCode.RowMessageMeaning` | cppmpc/CodeGenerator.cpp:29-47 | the scan of a row is silent exactly when every symbol so far has a representation; otherwise it reports one of the two messages |
| `DenseCode.CheckMeaning` | cppmpc/CodeGenerator.cpp:29-47 | the check is silent exactly when every symbol of every entry has a representation; otherwise it reports one of the two messages |
| `DenseCode.RowKeepsFirst` | cppmpc/CodeGenerator.cpp:29-47 | once a row reports a missing representation, later entries do not change the report |
| `DenseCode.CheckKeepsFirst` | cppmpc/CodeGenerator.cpp:29-47 | once a row reports, later rows do not change the report |
| `DenseCode.CheckEntry` | cppmpc/CodeGenerator.cpp:31-45 | the loops over one entry's variables and parameters give its report |
| `DenseCode.CheckRepresentations` | cppmpc/CodeGenerator.cpp:29-47 | the double loop gives the whole-matrix report |
| `DenseCode.InsertAbsent` | cppmpc/CodeGenerator.cpp:50-52 | `map::insert` keeps existing keys and adds only absent ones |
| `DenseCode.ReplacementMap` | cppmpc/CodeGenerator.cpp:50-59 | each symbol maps to its variable name, or to its parameter name when it has no variable name |
| `DenseCode.BuildReplacementMap` | cppmpc/CodeGenerator.cpp:50-59 | the loops build the replacement map |
| `DenseCode.ColumnMajorIndex` | cppmpc/CodeGenerator.cpp:63-72 | the counter `col*nrows + row` recovers its row and column |
| `DenseCode.ColumnMajorBound` | cppmpc/CodeGenerator.cpp:63-72 | every counter value names an entry inside the matrix |
| `DenseCode.CodeLines` | cppmpc/CodeGenerator.cpp:63-72 | one assignment per entry |
| `DenseCode.ColumnMajorNumbering` | cppmpc/CodeGenerator.cpp:63-72 | entry `(row, col)` is assigned to `name[col*nrows + row]` with its replaced, expanded C code |
| `DenseCode.EmitColumn` | cppmpc/CodeGenerator.cpp:65-71 | the inner loop emits one column's lines and advances the counter by the row count |
| `DenseCode.GenerateDenseMatrixCode` | cppmpc/CodeGenerator.cpp:24-75 | the check, the map merge and the emit loop compute the dense matrix code, or the first missing-representation error |
| `CodeText.ReprNamesDiffer` | cppmpc/CodeGenerator.cpp:91-104 | different buffer positions give different names, and `state[..]` never equals `param[..]` |
| `CodeText.Representations` | cppmpc/CodeGenerator.cpp:91-104 | succeeds exactly when every symbol is in the ordering; then each symbol is named after a position holding it; otherwise out_of_range |
| `CodeText.RepresentationsInjective` | cppmpc/CodeGenerator.cpp:91-104 | over a duplicate-free ordering, two symbols never share a name |
| `CodeText.BuildRepresentations` | cppmpc/CodeGenerator.cpp:91-104 | the naming loop computes the representation map |
| `CodeText.FunctionText` | cppmpc/CodeGenerator.cpp:110-120 | a function is its signature, then its statements, then `}`; an error in the statements is the function's error |
| `CodeText.GenerateFunction` | cppmpc/CodeGenerator.cpp:110-120 | the stream builds one function's text |
| `CodeText.FileText` | cppmpc/CodeGenerator.cpp:313-344 | the file is the header, the function blocks and the footer |
| `CodeText.BlocksAppend` | cppmpc/CodeGenerator.cpp:324-326 | the blocks of two lists of functions are the blocks of each, concatenated |
| `CodeText.OpenFileText` | cppmpc/CodeGenerator.cpp:318-322 | the include and the opening of the `extern "C"` block |
| `CodeText.CloseFileText` | cppmpc/CodeGenerator.cpp:328-330 | the closing of the `extern "C"` block |
| `CodeText.FunctionsFileText` | cppmpc/CodeGenerator.cpp:313-344 | the loop builds the whole file text |
| `CodeGenerator.Single` | cppmpc/CodeGenerator.cpp:258-266 | a 1-by-1 matrix holding the expression |
| `CodeGenerator.GenerateThree` | cppmpc/CodeGenerator.cpp:106-150 | value, gradient and Hessian functions, the first error winning |
| `CodeGenerator.GenerateObjectiveFunctions` | cppmpc/CodeGenerator.cpp:77-151 | names parameters, then variables, then generates the three functions; an unordered symbol gives out_of_range |
| `CodeGenerator.GenerateTwo` | cppmpc/CodeGenerator.cpp:197-218 | the matrix and vector functions over the parameters |
| `CodeGenerator.GenerateSymbolicEqualityFunctions` | cppmpc/CodeGenerator.cpp:153-220 | converts to a linear system, then checks the parameters, then names them and generates the two functions |
| `CodeGenerator.EqualityErrors` | cppmpc/CodeGenerator.cpp:170-175 | after a successful conversion, a missing parameter gives the "Not all paramaters" runtime error; with all present, any error is a missing-representation message |
| `CodeGenerator.GenerateSymbolicInequalityFunctions` | cppmpc/CodeGenerator.cpp:222-311 | checks the parameters, names them and the variables, and generates the barrier's value, gradient and Hessian functions |
| `CodeGenerator.InequalityUnorderedVariable` | cppmpc/CodeGenerator.cpp:222-311 | with all parameters ordered, a variable missing from the ordering is exactly what gives out_of_range |
| `CodeGenerator.GenerateSymbolicEqualityCode` | src/CodeGenerator.cpp:23-85 | the legacy generator: conversion, parameter check, naming, then matrix and vector functions |
| `CodeGenerator.LegacyEqualityErrors` | src/CodeGenerator.cpp:23-85 | the legacy generator succeeds exactly when the conversion succeeds and every parameter is ordered |
| `FastMPC.Validate` | cppmpc/FastMPC.cpp:117-158 | no message exactly when the equality matrix and vector fit together; each message exactly when its check is the first to fail |
| `FastMPC.NewSolver` | cppmpc/FastMPC.cpp:160-169 | with validation compiled in, a message is thrown as a runtime error; otherwise the solver keeps the objective |
| `FastMPC.SolverNeedsConsistency` | cppmpc/FastMPC.cpp:160-169 | a solver over an objective using `Objective::validate` is built exactly when its equality constraints fit |
| `FastMPC.StartVectors` | cppmpc/FastMPC.cpp:171-205 | defaults are zeros and ones; given starts are used; their lengths are checked only when `NO_VALIDATE_OBJECTIVE` is defined, the dual only with equality constraints; a wrong primal length gives the "Primal start" message, and otherwise the error is the "Dual start" message with the number of equality constraints |
| `FunctionPointerObjectives.FirstNull` | src/FastMPCFunctionPointerObjective.cpp:30-62 | no message exactly when no pointer is null; otherwise the message of the first null pointer |
| `FunctionPointerObjectives.InitialTableReportsValue` | include/FastMPCFunctionPointerObjective.h:65-74 | a fresh table reports the value pointer first; the five defaulted pointers are never null |
| `FunctionPointerObjectives.ParameterGuardAsWritten` | src/FastMPCFunctionPointerObjective.cpp:66-70 | as written: undefined exactly when parameters are expected but none are set |
| `FunctionPointerObjectives.GuardAsWrittenNeverFires` | src/FastMPCFunctionPointerObjective.cpp:66-70 | the guard as written never fires; two expected parameters against one given passes it |
| `FunctionPointerObjectives.ParameterGuard` | src/FastMPCFunctionPointerObjective.cpp:64-70 | corrected: silent with parameters expected only when a vector of the right size is set, and silent when none are expected |
| `FunctionPointerObjectives.FunctionPointerObjective.constructor` | src/FastMPCFunctionPointerObjective.cpp:76-83 | stores the four counts; value, gradient and Hessian are null, the others do nothing; no parameters |
| `FunctionPointerObjectives.FunctionPointerObjective.SetParameters` | src/FastMPCFunctionPointerObjective.cpp:85-87 | sets the parameters, nothing else |
| `FunctionPointerObjectives.FunctionPointerObjective.SetValueFunction` | src/FastMPCFunctionPointerObjective.cpp:95-97 | replaces the value pointer, nothing else |
| `FunctionPointerObjectives.FunctionPointerObjective.SetGradientFunction` | src/FastMPCFunctionPointerObjective.cpp:107-110 | replaces the gradient pointer, nothing else |
| `FunctionPointerObjectives.FunctionPointerObjective.SetHessianFunction` | src/FastMPCFunctionPointerObjective.cpp:120-122 | replaces the Hessian pointer, nothing else |
| `FunctionPointerObjectives.FunctionPointerObjective.SetEqualityMatrixFunction` | src/FastMPCFunctionPointerObjective.cpp:136-139 | replaces the equality matrix pointer, nothing else |
| `FunctionPointerObjectives.FunctionPointerObjective.SetEqualityVectorFunction` | src/FastMPCFunctionPointerObjective.cpp:152-155 | replaces the equality vector pointer, nothing else |
| `FunctionPointerObjectives.FunctionPointerObjective.SetInequalityValueFunction` | src/FastMPCFunctionPointerObjective.cpp:169-172 | replaces the inequality value pointer, nothing else |
| `FunctionPointerObjectives.FunctionPointerObjective.SetInequalityGradientFunction` | src/FastMPCFunctionPointerObjective.cpp:186-189 | replaces the inequality gradient pointer, nothing else |
| `FunctionPointerObjectives.FunctionPointerObjective.SetInequalityHessianFunction` | src/FastMPCFunctionPointerObjective.cpp:203-206 | replaces the inequality Hessian pointer, nothing else |
| `FunctionPointerObjectives.FunctionPointerObjective.Value` | src/FastMPCFunctionPointerObjective.cpp:89-93 | calls the value pointer for a scalar |
| `FunctionPointerObjectives.FunctionPointerObjective.Gradient` | src/FastMPCFunctionPointerObjective.cpp:99-105 | calls the gradient pointer for an n-vector |
| `FunctionPointerObjectives.FunctionPointerObjective.Hessian` | src/FastMPCFunctionPointerObjective.cpp:112-118 | calls the Hessian pointer for an n-by-n matrix |
| `FunctionPointerObjectives.FunctionPointerObjective.EqualityConstraintMatrix` | src/FastMPCFunctionPointerObjective.cpp:124-134 | a matrix exactly when there are equality constraints, shaped constraints by variables |
| `FunctionPointerObjectives.FunctionPointerObjective.EqualityConstraintVector` | src/FastMPCFunctionPointerObjective.cpp:141-150 | a vector exactly when there are equality constraints, one row per constraint |
| `FunctionPointerObjectives.FunctionPointerObjective.InequalityConstraintsValue` | src/FastMPCFunctionPointerObjective.cpp:157-167 | calls the pointer exactly when there are inequality constraints, otherwise zero |
| `FunctionPointerObjectives.FunctionPointerObjective.InequalityConstraintsGradient` | src/FastMPCFunctionPointerObjective.cpp:174-184 | calls the pointer exactly when there are inequality constraints, otherwise a zero n-vector |
| `FunctionPointerObjectives.FunctionPointerObjective.InequalityConstraintsHessian` | src/FastMPCFunctionPointerObjective.cpp:191-201 | calls the pointer exactly when there are inequality constraints, otherwise a zero n-by-n matrix |
| `FunctionPointerObjectives.FunctionPointerObjective.Validate` | src/FastMPCFunctionPointerObjective.cpp:30-74 | the first null pointer's message, else the parameter message, else `Objective::validate` |
| `FunctionPointerObjectives.ObjectiveChecksPass` | src/FastMPCFunctionPointerObjective.cpp:124-150 | the matrix and vector this objective returns always pass `Objective::validate` |
| `FunctionPointerObjectives.ValidateMeaning` | src/FastMPCFunctionPointerObjective.cpp:30-74 | with the corrected guard: no message exactly when all eight pointers are set and the parameters fit; any message is one of the nine |
| `FunctionPointerObjectives.SolverAccepts` | cppmpc/FastMPC.cpp:160-169 | with the corrected guard and validation compiled in, a solver is built over the objective exactly when all pointers are set and the parameters fit |
| `FunctionPointerObjectives.FunctionPointerObjective.ValidateAsWritten` | src/FastMPCFunctionPointerObjective.cpp:30-74 | as written: the first null pointer's message, else the parameter message when the guard holds, else `Objective::validate`; defined wherever the guard is not reached or does not dereference an empty optional |
| `FunctionPointerObjectives.ValidateAsWrittenMeaning` | src/FastMPCFunctionPointerObjective.cpp:30-74 | as written: no message exactly when all eight pointers are set, whatever the parameters; any message is a null-pointer message |
| `FunctionPointerObjectives.SolverAcceptsAsWritten` | cppmpc/FastMPC.cpp:160-169 | as written, with validation compiled in: a solver is built exactly when all eight pointers are set, whatever the parameters |
| `FunctionPointerObjectives.GuardsDisagree` | src/FastMPCFunctionPointerObjective.cpp:64-73 | with all pointers set and a parameter vector of the wrong length, the program as written reports nothing and the corrected guard reports the parameter message |
| `FunctionPointerObjectives.FreshObjectiveRefused` | include/FastMPCFunctionPointerObjective.h:65-67 | a freshly built objective is refused for its null value pointer |

## Left out

- `taylorExpand` (cppmpc/SymEngineUtilities.cpp:80-119) is not modelled. It is series arithmetic inside SymEngine.
- `sum`, `norm`, `squaredSum` and the trigonometric and power wrappers (cppmpc/SymEngineUtilities.cpp:238-276) are not modelled. They are one-line calls into SymEngine.
- `stepSolver` and the Newton iterations of `minimize` (cppmpc/FastMPC.cpp:14-115, 208-374) are not modelled. They are floating-point linear algebra. Only the start vectors and their checks are modelled.
- File writing in `writeFunctionsToFile` is left out. The model builds the text; opening and writing the file is I/O. The `DEBUG_PRINT` output is left out too.
- `std::endl` flushes the stream; the model keeps only the newline.
- `generateMatrixFunctionString` (src/SymbolicEquality.cpp:193-245) is not modelled. It is debugging output. The `generateCCode` that the legacy generator calls is not part of this model and is a function parameter of `GenerateSymbolicEqualityCode`.
- SymEngine's operations (`diff`, `expand`, `xreplace`, `ccode`, `log`, the conversion to a polynomial) are uninterpreted parameters. Nothing is proved about their algebra.
- The polynomial's generator order `gens` is a parameter, constrained only to be a duplicate-free arrangement of the ordering.
- The iteration order of SymEngine's unordered sets and maps is not modelled. Loops pick elements with `:|`, and the results proved do not depend on the order.
- `indexOf` is called by the generators (cppmpc/CodeGenerator.cpp:95) but is not declared in include/OrderedSet.h. It is modelled as the `std::map::at` lookup of the index map, failing with out_of_range for a missing symbol.
- include/GetSymbolsVisitor.h:32 gives the `Basic` overload of `bvisit` an empty inline body, which clashes with the recursive definition in src/GetSymbolsVisitor.cpp:22-26. The model follows the recursive definition.
- The `FunctionPointerObjective` accessors dereference `_parameters` without checking that it was set. That undefined behaviour is not modelled, and an accessor returns the call it would make.
- Function-pointer bodies and the matrices they fill are not modelled. A pointer is `Null`, a do-nothing default, or a named user function; an accessor returns the call and its shape.
- Eigen's refusal of negative sizes is a precondition of `FastMPC.StartVectors` (the counts are at least zero).
- `FunctionPointerObjectives.FunctionPointerObjective.Validate` uses the corrected parameter guard. The guard as written is modelled in `FunctionPointerObjectives.FunctionPointerObjective.ValidateAsWritten`; see Findings.
- `FunctionPointerObjectives.ValidateMeaning` states the corrected guard. As written, a parameter vector of the wrong length is not reported; `FunctionPointerObjectives.ValidateAsWrittenMeaning` states that behaviour.
- `FunctionPointerObjectives.SolverAccepts` states the corrected guard. As written, the solver also accepts a parameter vector of the wrong length; `FunctionPointerObjectives.SolverAcceptsAsWritten` states that behaviour.
- `SymEngineUtilities.Factorial`: `start` is below 2^64, since it is a size_t.
- `FastMPC.NewSolver` takes the objective's `validate` message as a parameter, because `validate` is virtual. `FunctionPointerObjectives.SolverAccepts` connects it to the function-pointer objective.

## Findings

| source | as written | input that shows it | evidently intended | confidence | as-written member | corrected member |
|---|---|---|---|---|---|---|
| src/SymEngineUtilities.cpp:35-55 | `variableVector`/`parameterVector` size the vector with `num` null entries, then `push_back` `num` symbols | `num = 1`: the result has two entries, the first null | exactly `num` symbols, as in cppmpc/SymEngineUtilities.cpp:40-62 | not executed | `LegacyUtilities.LegacyVariableVector` (with `LegacyUtilities.AsWrittenHasNulls`) | `LegacyUtilities.IntendedLegacyVector` |
| src/FastMPCFunctionPointerObjective.cpp:66-70 | the guard requires the parameters to be absent AND of the right size | `numParameters = 2`, parameters `[0.0]`: no message; with no parameters set, the guard dereferences an empty optional | report when parameters are expected and are absent or of the wrong size | not executed | `FunctionPointerObjectives.ParameterGuardAsWritten` (with `FunctionPointerObjectives.GuardAsWrittenNeverFires`, `FunctionPointerObjectives.FunctionPointerObjective.ValidateAsWritten` and `FunctionPointerObjectives.GuardsDisagree`) | `FunctionPointerObjectives.ParameterGuard` |
