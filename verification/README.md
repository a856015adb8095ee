# Verified model of the lattica build compiler, its numerics and the query key store

A Dafny model of the algorithms that the homomorphic-encryption pipeline builder and its query client rely on, with
proofs of what they promise. `dafny verify dfyconfig.toml` checks the whole project.

| part | files | what is modelled |
|---|---|---|
| bitonic sort | `Bits`, `BitonicNetwork`, `BitonicSorting`, `BitonicError`, `BitonicLevels` | The data-oblivious sort in its rotate/mask/multiply form, the loops that build the network, the refresh points and the levels between them; an exact comparator and one that is only accurate up to a tolerance. |
| compiler | `OpGraph`, `Tracing`, `TracingCorrect`, `ClearArithmetic`, `TracerMachine` | The tracer that turns nested operator programs into scoped graphs with fresh names, tensor registration and last-use flags, the interpreter that reference-counts its environment, and what programs compute entry by entry. |
| levels | `ModulusChain`, `DropConfigs`, `PrimeDivisors`, `LevelTracing`, `LevelJoins`, `LevelTails`, `RefreshLevels`, `ConsumptionOrder`, `Rnn` | Level and scale inference as a state machine over active rows, live columns and scale with a shared drop log; drops as the code computes them for any rows and counts, and when they divide by the primes they remove; joins and bootstraps, slim ones included; the scale law of whole circuits; the consumption order; the refresh schedule of the recurrent example. |
| moduli | `Primes`, `ChainPrimes`, `BootstrapChain` | Drawing distinct primes for a precision table, int64 safety of the products that drops compute, the draw order, and the bootstrap chain's precision tables and DFT splits. |
| fitting | `LinearSolve`, `References`, `ExtremumSearch`, `RefinementPoly`, `PolynomialZeros`, `RefinementGain`, `PolyEval`, `SignSearch`, `Sorting` | Gaussian elimination, reference selection, golden-section and ternary refinement, refinement polynomials and what they gain, Clenshaw evaluation, degree-schedule enumeration and the cached minimal-depth search. |
| key store | `KeyStore` | Staged write, rename, pointer commit, garbage removal and resumable registration, where every file-system or network step may complete, raise, or be the last before the process dies. |

`Wrappers` and `Reals` hold the shared `Option`, absolute value and power.

Conventions. Code that works step by step is a method (with a class where it mutates an object), proved against a
specification function; code made of expressions is functions and lemmas. Exceptions and error returns are `None` or an
error value. Arithmetic on mpmath numbers, fractions, `Decimal` scales and tensors is exact real arithmetic. A lemma that
takes a result as a parameter (`requires r == F(x)`) does so to keep the proof small; it holds for every `x`.

Where the code and its comments differ, the model follows the code:

- `infer_adjust_levels_and_scale` promises a compatible state, but returns the lower input's whole metadata, its shape
  included. The claims here are about rows and columns.
- `_get_drop_row_config` and `_get_drop_cols_config` pick factors by position in ascending row order, while
  `get_init_rows` puts the bootstrap base before the StC rows of a slim bootstrap. `DropConfigs.RightDivisorIff`,
  `PrimeDivisors.RightDivisorOfCountIff` and `LevelTracing.CountBalancesIff` give the exact condition under which a drop
  divides by the primes it removes, and `PrimeDivisors.SlimDropsOfCount`, `DropConfigs.SlimBaseDrop` and
  `LevelJoins.SlimRunRightIff` show where fresh slim ciphertexts violate it.
- `HomModSwitch` takes columns to drop, but inference uses only how many they are. `DropConfigs.CountKeepsGoodIff` gives
  the counts that leave a usable state.
- `apply_drop_config` slices around the relative row, which for row -1 keeps the row that it is asked to drop:
  `DropConfigs.LastRowStays` and `DropConfigs.FromEndIsForward` tell the negative rows for which a drop is what it says.
- The clean-up in `save_key_bundle` is meant for uncommitted revisions, but it also runs when the directory sync after the
  commit raises, and then deletes the committed bundle: `KeyStore.Host.SaveKeyBundle` gives the exact condition.
- The tracer's fresh names can collide with a parameter called `v<digits>`; `TracerMachine.SafeExactlyWhenNotFresh` gives
  the exact condition and `TracerMachine.NameClash` a failing program.
- For chains of fewer than three levels the recurrent example computes a refresh period of zero, which raises.

## Model

| member | source | states |
|---|---|---|
| `BitonicNetwork.StageIsPairStage` | lattica_build_src/lattica_build/examples/advanced/bitonic_sort.py:68-75 | Slot by slot, a stage written with two rotations, four 0/1 masks and multiplications equals the update of pairs that differ in one bit: the comparator is asked once per pair, at the lower slot. |
| `BitonicNetwork.Entry` | lattica_build_src/lattica_build/examples/advanced/bitonic_sort.py:68-75 | The value a stage writes to any slot of any vector, by the two mask bits of that slot, with the wrapped slots the rotations read. |
| `BitonicNetwork.RollAt` | lattica_build_src/lattica_build/operators/slots/h_rotate_sum.py:44-50 | Entry i of a roll by s is the entry at the cyclic index i - s; rolls wrap at both ends. |
| `BitonicNetwork.BuildStages` | lattica_build_src/lattica_build/examples/advanced/bitonic_sort.py:81-88 | The nested k/j loops build exactly the recursive schedule of phases 2, 4, ... up to the array length, each with halving distances. |
| `BitonicNetwork.LoopsBuildLayers` | lattica_build_src/lattica_build/examples/advanced/bitonic_sort.py:81-88 | For 2^m slots that schedule is the bitonic network with m(m+1)/2 layers, and every layer fits the array. |
| `BitonicNetwork.RefreshPoints` | lattica_build_src/lattica_build/examples/advanced/bitonic_sort.py:91-93 | The refresh set holds stage i iff (i + 1) is a multiple of boot_every and i is not the last stage. |
| `BitonicNetwork.RunStage` | lattica_build_src/lattica_build/examples/advanced/bitonic_sort.py:68-75 | One executed stage returns the pair update of its layer for any comparator. |
| `BitonicNetwork.Forward` | lattica_build_src/lattica_build/examples/advanced/bitonic_sort.py:95-100 | The whole forward pass, refreshes included, returns the run of the network layers on the input. |
| `BitonicSorting.StageIsCompareExchange` | lattica_build_src/lattica_build/examples/advanced/bitonic_sort.py:50-75 | With an exact comparator a stage is the min/max compare-exchange of i with i xor j, ascending exactly when i & k is 0 (both written with the bit operations). |
| `BitonicSorting.PairStageIsExchange` | lattica_build_src/lattica_build/examples/advanced/bitonic_sort.py:68-75 | An exact pair update is the compare-exchange layer used in the sorting proof. |
| `BitonicSorting.ExchangeCommutes` | lattica_build_src/lattica_build/examples/advanced/bitonic_sort.py:68-75 | Compare-exchange commutes with thresholding, the step that reduces sorting of reals to sorting of bits. |
| `BitonicSorting.HalfClean` | lattica_build_src/lattica_build/examples/advanced/bitonic_sort.py:83-88 | Exchanging the halves of a bitonic bit sequence leaves two bitonic halves, and the lower one is all false or the upper one all true. |
| `BitonicSorting.MergeSorts` | lattica_build_src/lattica_build/examples/advanced/bitonic_sort.py:83-88 | The halving distances of one phase sort every bitonic block, in the direction of its block. |
| `BitonicSorting.NetworkAscends` | lattica_build_src/lattica_build/examples/advanced/bitonic_sort.py:78-100 | For every power-of-two length and every real array, the exact network output is ascending. |
| `BitonicSorting.RunIsPhases` | lattica_build_src/lattica_build/examples/advanced/bitonic_sort.py:81-100 | Running the layers in loop order is running the phases one after the other. |
| `BitonicError.StageKeepsSum` | lattica_build_src/lattica_build/examples/advanced/bitonic_sort.py:68-75 | A stage keeps the sum of the array exactly, whatever its comparator answers. |
| `BitonicError.RunKeepsSum` | lattica_build_src/lattica_build/examples/advanced/bitonic_sort.py:95-100 | So does every run of stages. |
| `BitonicError.ExactRunPermutes` | lattica_build_src/lattica_build/examples/advanced/bitonic_sort.py:95-100 | With an exact comparator every run permutes its input. |
| `BitonicError.ExactNetworkSorts` | lattica_build_src/lattica_build/examples/advanced/bitonic_sort.py:34-100 | Headline: the exact network returns an ascending permutation of every power-of-two-length input. |
| `BitonicError.SortExactly` | lattica_build_src/lattica_build/examples/advanced/bitonic_sort.py:34-100 | The same of the executed forward pass in its rotate/mask/multiply form. |
| `BitonicError.AscendingUnique` | lattica_build_src/lattica_build/examples/advanced/bitonic_sort.py:34-100 | There is only one ascending permutation, so the result above is the sort. |
| `BitonicError.StageError` | lattica_build_src/lattica_build/examples/advanced/bitonic_sort.py:68-75 | If an input is within delta of an exact run whose values span at most 1 - 2 delta, the inexact stage output is within delta + eps of the exact stage output. |
| `BitonicError.InexactNetworkError` | lattica_build_src/lattica_build/examples/advanced/bitonic_sort.py:50-100 | With abs(t - step(d)) * abs(d) <= eps on [-1, 1] and input spread plus 2 S eps at most 1, the sum is kept and every entry ends within S eps of the true sort, S = m(m+1)/2. |
| `OpGraph.RunClearSection` | lattica_build_src/lattica_build/serialization/clear_execution.py:58-93 | The interpreter that counts uses and deletes values equals the interpreter that releases nothing, on every graph, errors included; so no released value is read and the output is never released. |
| `OpGraph.Release` | lattica_build_src/lattica_build/serialization/clear_execution.py:88-92 | The release loop finds every name it deletes, and keeps every value that a later child or the output still reads. |
| `OpGraph.CountUses` | lattica_build_src/lattica_build/serialization/clear_execution.py:83-84 | The counter is the multiset of all child inputs plus the output. |
| `OpGraph.ReadInputs` | lattica_build_src/lattica_build/serialization/clear_execution.py:86-86 | Reading the inputs fails exactly where a name is unbound. |
| `OpGraph.UsedLater` | lattica_build_src/lattica_build/serialization/clear_execution.py:83-92 | A name has uses left from child i on iff some child from i on reads it. |
| `OpGraph.ReleasedExactlyAtLastUse` | lattica_build_src/lattica_build/base_classes/hom_op_tracer.py:184-198 | A name is released at a position iff finalize marks that position as its last use, unless it is the section output. |
| `Tracing.FreshInjective` | lattica_build_src/lattica_build/base_classes/hom_op_tracer.py:54-55 | Fresh ids v0, v1, ... never repeat within a scope. |
| `Tracing.FreshNames` | lattica_build_src/lattica_build/base_classes/hom_op_tracer.py:54-55 | A name is fresh iff it is v followed by decimal digits without leading zeros, and it is then the fresh name of the number they read as. |
| `Tracing.Register` | lattica_build_src/lattica_build/base_classes/hom_op_tracer.py:118-131 | Registering a tensor only extends the table and returns a reference to that tensor. |
| `TracingCorrect.RecordedRuns` | lattica_build_src/lattica_build/base_classes/hom_op_tracer.py:45-52 | Appending one recorded op binds exactly the next fresh id to the op result and leaves every earlier binding. |
| `TracingCorrect.LeafRuns` | lattica_build_src/lattica_build/base_classes/hom_op_tracer.py:108-116 | A serialized leaf computes with its own data, whatever tensors are registered after it. |
| `TracingCorrect.ExprSimulates` | lattica_build_src/lattica_build/base_classes/hom_op.py:55-68 | Tracing any forward body records children whose execution gives its handle the value of the direct run, and fails iff the direct run fails. |
| `TracingCorrect.CallSimulates` | lattica_build_src/lattica_build/base_classes/hom_op_tracer.py:133-160 | A nested operator call, composite or leaf, traces into one child with the value of the direct call, including composites that return an input. |
| `TracingCorrect.BinarySimulates` | lattica_build_src/lattica_build/base_classes/hom_value.py:150-214 | Overloaded +, - and * between handles trace to the value of the operator, equal handles as a square. |
| `TracingCorrect.ConstSubSimulates` | lattica_build_src/lattica_build/base_classes/hom_value.py:204-205 | c - x, traced as negation followed by a constant addition, has the value of the subtraction. |
| `TracingCorrect.OpSimulates` | lattica_build_src/lattica_build/base_classes/hom_op_tracer.py:57-60 | Serializing an operator of any nesting gives a graph that computes its direct run. |
| `TracingCorrect.TraceThenExecute` | lattica_build_src/lattica_build/base_classes/hom_op_tracer.py:133-182 | Headline: for every program with well-named parameters and every input, executing the recorded graph gives the direct evaluation; tracing fails only where the direct evaluation fails. |
| `ClearArithmetic.LeafEntries` | lattica_build_src/lattica_build/operators/arithmetic/h_mul.py:74-78 | The addition, subtraction, multiplication and constant leaves combine two vectors iff their sizes agree or one has a single element, and hold exactly the sums, differences and products of their entries. |
| `ClearArithmetic.OperatorEntries` | lattica_build_src/lattica_build/base_classes/hom_value.py:71-102 | So do +, -, * and ** 2 between the values of any two expressions. |
| `ClearArithmetic.ConstantEntries` | lattica_build_src/lattica_build/base_classes/hom_value.py:135-178 | And the operators with a constant on either side, and negation as the product with -1. |
| `ClearArithmetic.Commutes` | lattica_build_src/lattica_build/base_classes/hom_value.py:190-214 | x + y equals y + x, x * y equals y * x, and x ** 2 equals x * x, errors included. |
| `ClearArithmetic.Units` | lattica_build_src/lattica_build/base_classes/hom_value.py:142-178 | Multiplying by 1, adding 0 and subtracting 0 change nothing. |
| `ClearArithmetic.Distributes` | lattica_build_src/lattica_build/base_classes/hom_value.py:190-214 | (x + y) * z equals x * z + y * z, errors included. |
| `ClearArithmetic.Cancels` | lattica_build_src/lattica_build/base_classes/hom_value.py:190-205 | (c - x) + x is there iff x and c combine, and each of its entries is that entry of c. |
| `ClearArithmetic.OpAt` | lattica_build_src/lattica_build/base_classes/hom_op.py:55-68 | Headline: for any nesting of operators over the modelled leaves, entry i of the result is the program text evaluated on entry i of the inputs in real arithmetic; it fails iff the text does. |
| `TracerMachine.TensorTable.RegisterTensor` | lattica_build_src/lattica_build/base_classes/hom_op_tracer.py:118-131 | The mutable table ends as the specification table, with the same reference. |
| `TracerMachine.Tracer.Call` | lattica_build_src/lattica_build/base_classes/hom_op_tracer.py:45-52 | A call appends exactly one child whose output is the next fresh id, and returns that handle. |
| `TracerMachine.Tracer.SerializeOp` | lattica_build_src/lattica_build/base_classes/hom_op_tracer.py:57-60 | The mutable tracer serializes an operator to the graph and table that the specification gives. |
| `TracerMachine.Tracer.Finalize` | lattica_build_src/lattica_build/base_classes/hom_op_tracer.py:184-198 | The backward pass with a seen set marks an occurrence iff its id occurs neither later in that op nor in a later op. |
| `TracerMachine.RunForward` | lattica_build_src/lattica_build/base_classes/hom_value.py:71-108 | Running a body with the overloaded operators leaves the recorded ops and table of the specification. |
| `TracerMachine.CompileAndRun` | lattica_build_src/lattica_build/base_classes/hom_op_tracer.py:133-182 | Tracing and then running the recorded section returns what evaluating the operator directly returns, which on the modelled leaves is the program text on each entry. |
| `TracerMachine.RegisterKeepsObjectsOnce` | lattica_build_src/lattica_build/base_classes/hom_op_tracer.py:118-131 | No operator-held tensor is stored twice, however often its op is applied. |
| `TracerMachine.NameClash` | lattica_build_src/lattica_build/base_classes/hom_op_tracer.py:54-55 | For every n, a concrete program with a parameter called v<n> is miscompiled: it should return its input and returns another value. |
| `TracerMachine.SafeExactlyWhenNotFresh` | lattica_build_src/lattica_build/base_classes/hom_op_tracer.py:133-144 | All programs over a parameter name are compiled correctly iff the name is not a fresh name v<digits>. |
| `DropConfigs.RightRowIff` | lattica_build_src/lattica_build/params/level_and_scale_tracing.py:108-115 | The k-th entry of the factors of the active rows belongs to the row that is dropped iff exactly k active rows precede that row in the chain, k being its index among the active rows. |
| `DropConfigs.AscendingRowsAreRight` | lattica_build_src/lattica_build/params/level_and_scale_tracing.py:108-121 | Ascending active rows always meet that condition. |
| `DropConfigs.OneColumnDivisor` | lattica_build_src/lattica_build/params/level_and_scale_tracing.py:108-121 | For arbitrary rows, a drop of one column divides by the prime in that column of the row that is read; past the end of that row it divides by 1 if the whole row goes, and raises if a column goes. |
| `DropConfigs.RightDivisorIff` | lattica_build_src/lattica_build/params/level_and_scale_tracing.py:108-121 | With distinct primes, a drop of one column divides by the prime that it removes iff exactly k active rows precede its row in the chain. |
| `DropConfigs.RightScaleIff` | lattica_build_src/lattica_build/params/level_and_scale_tracing.py:108-176 | With distinct primes and a non-zero scale, the new scale is the old one over the removed prime under exactly that condition. |
| `PrimeDivisors.RightDivisorOfCountIff` | lattica_build_src/lattica_build/params/level_and_scale_tracing.py:108-138 | With distinct primes, a drop of 1 to all live columns divides by exactly the primes that it removes iff exactly k active rows precede its row in the chain. |
| `PrimeDivisors.RightScaleOfCountIff` | lattica_build_src/lattica_build/params/level_and_scale_tracing.py:108-176 | So with a non-zero scale the new scale is the old one over the removed primes under exactly that condition. |
| `DropConfigs.SlimDrops` | lattica_build_src/lattica_build/params/level_and_scale_tracing.py:85-121 | On a fresh ciphertext of a slim bootstrap with any number of initial pipeline rows, the divisor of a one-column drop is the removed prime iff a pipeline row is dropped; for the base row and every StC row it is another number. |
| `PrimeDivisors.SlimDropsOfCount` | lattica_build_src/lattica_build/params/level_and_scale_tracing.py:85-138 | On a fresh slim ciphertext a drop of any number of live columns has the right divisor iff it drops from a pipeline row. |
| `DropConfigs.SlimBaseDrop` | lattica_build_src/lattica_build/params/level_and_scale_tracing.py:85-121 | Dropping the base row of such a ciphertext divides the scale by the first prime of the first StC row. |
| `DropConfigs.DropInPlace` | lattica_build_src/lattica_build/params/level_and_scale_tracing.py:108-176 | A drop of 1 to all live columns of a row that is read correctly divides by exactly the primes that it removes. |
| `DropConfigs.CountKeepsGoodIff` | lattica_build_src/lattica_build/params/level_and_scale_tracing.py:123-176 | A drop keeps every active row with a non-empty suffix of live columns iff its count is between 1 and the live columns, or is 0 with the first column dead; every other count leaves a row without live columns behind. |
| `ModulusChain.DropKeepsGood` | lattica_build_src/lattica_build/params/level_and_scale_tracing.py:152-176 | A drop keeps the active rows different rows of the chain, each with a non-empty suffix of live columns. |
| `ModulusChain.DropDividesModulus` | lattica_build_src/lattica_build/params/level_and_scale_tracing.py:123-138 | A drop removes exactly the primes it divides by from the product of all live primes. |
| `ModulusChain.DropRemovesLive` | lattica_build_src/lattica_build/params/level_and_scale_tracing.py:123-176 | A drop of n columns removes n live columns, all from its own row, as counted under any budget. |
| `LevelTracing.ChosenIsFirst` | lattica_build_src/lattica_build/params/level_and_scale_tracing.py:140-150 | The row that a rescale without a named row takes is the first active one within the budget, and there is none iff the budget allows no active row. |
| `LevelTracing.RescaledMeaning` | lattica_build_src/lattica_build/params/level_and_scale_tracing.py:178-199 | A rescale with modswitch whose row is read correctly fails iff the budgeted rows hold no live column; otherwise it removes one budgeted column, and by default keeps the scale. |
| `LevelTracing.LevelsDownMeaning` | lattica_build_src/lattica_build/params/level_and_scale_tracing.py:201-205 | If every drop reads its own row, dropping n levels succeeds iff the budgeted rows hold at least n live columns, then removes exactly n of them, and keeps the scale. |
| `LevelTracing.LevelsDownIsRun` | lattica_build_src/lattica_build/params/level_and_scale_tracing.py:201-205 | Dropping n levels is a run of n rescales that scale up by the prime they drop. |
| `LevelTracing.GainIsUp` | lattica_build_src/lattica_build/params/level_and_scale_tracing.py:178-199 | A right step scales up by exactly its own number; without one by the default scale if it drops nothing, else by the product of the primes it removes. |
| `LevelTracing.GainsExist` | lattica_build_src/lattica_build/params/level_and_scale_tracing.py:178-205 | Every run of right steps has a list of such gains. |
| `LevelTracing.DefaultScaleUps` | lattica_build_src/lattica_build/params/level_and_scale_tracing.py:178-190 | n default steps without modswitch keep rows and columns and multiply the scale by the n-th power of the default scale. |
| `LevelTracing.RunConserves` | lattica_build_src/lattica_build/params/level_and_scale_tracing.py:152-205 | Over every run of rescales and modswitches whose drops are right, from any good state: the state stays good, and the final scale times the dropped primes is the initial scale times the product of the gains, each of which is described without the code that computes it. |
| `LevelTracing.OneColumnBalancesIff` | lattica_build_src/lattica_build/params/level_and_scale_tracing.py:108-176 | With distinct primes and a non-zero scale, an explicit drop of one column conserves scale times modulus iff its row is read correctly. |
| `LevelTracing.CountBalancesIff` | lattica_build_src/lattica_build/params/level_and_scale_tracing.py:108-176 | With distinct primes and a non-zero scale, the same holds of an explicit drop of any number of live columns. |
| `LevelTracing.DropLog.ColumnsToDrop` | lattica_build_src/lattica_build/params/level_and_scale_tracing.py:132-138 | The column loop collects the first n live columns, or all of them if fewer are live; for n = 0 nothing if the first column is dead, else all live columns. |
| `LevelTracing.DropLog.DropConfig` | lattica_build_src/lattica_build/params/level_and_scale_tracing.py:123-138 | For every state, row index and count, the configuration or the index error that the code gives. |
| `LevelTracing.DropLog.FirstConfig` | lattica_build_src/lattica_build/params/level_and_scale_tracing.py:140-150 | For every state, one column of the first budgeted row, or the failure of the code. |
| `LevelTracing.DropLog.ApplyDropConfig` | lattica_build_src/lattica_build/params/level_and_scale_tracing.py:152-176 | The new rows, columns and scale, and the dropped row appended to the log. |
| `LevelTracing.DropLog.OptionalModswitch` | lattica_build_src/lattica_build/params/level_and_scale_tracing.py:178-199 | For every state the inferred one equals the specification, for both flags and all scale-up forms (whose numbers GainIsUp pins); the log grows by the dropped row only on success. |
| `LevelTracing.DropLog.ModswitchByNumLevels` | lattica_build_src/lattica_build/params/level_and_scale_tracing.py:201-205 | For every state the loop equals the specification and logs the rows it drops in order, up to the point where it raises. |
| `LevelTracing.DropLog.ModSwitch` | lattica_build_src/lattica_build/operators/fhe/h_mod_switch.py:32-50 | For every state, row index, also a negative one, and count (or the whole row) an explicit modswitch equals the specification, and logs the row it names unless it raises. |
| `DropConfigs.FromEndIsForward` | lattica_build_src/lattica_build/operators/fhe/h_mod_switch.py:32-50 | On a good state a modswitch by a negative row index is the drop of the row counted from the end, except when the last row is to go as a whole. |
| `DropConfigs.LastRowStays` | lattica_build_src/lattica_build/params/level_and_scale_tracing.py:158-163 | Asked to drop the last row by -1, the code keeps it behind a second copy of the rows before it: the state stays good iff it had one row only. |
| `LevelTracing.DropLog.TracedConsumptionOrder` | lattica_build_src/lattica_build/params/level_and_scale_tracing.py:79-83 | Whatever was logged, the traced order lists every pipeline row exactly once. |
| `LevelJoins.SubsetMeaning` | lattica_build_src/lattica_build/params/level_and_scale_tracing.py:216-222 | The tensor check holds iff every live prime of the first state is live in the second. |
| `LevelJoins.JoinMeaning` | lattica_build_src/lattica_build/params/level_and_scale_tracing.py:224-258 | A join succeeds iff one input's live primes are among the other's, and its level holds exactly the primes live in both. |
| `LevelJoins.DropsInTwoRowsClash` | lattica_build_src/lattica_build/params/level_and_scale_tracing.py:224-258 | Drops in two different rows of one state always lead to states that cannot be joined, so budgets can break joins. |
| `LevelJoins.FreshHolds` | lattica_build_src/lattica_build/params/level_and_scale_tracing.py:85-121 | A fresh ciphertext holds exactly the primes of the last pipeline rows, as many as asked for, of the base, and with a slim bootstrap of the StC rows. |
| `LevelJoins.BootRestores` | lattica_build_src/lattica_build/params/level_and_scale_tracing.py:260-270 | A bootstrap restores every prime of pipeline and base, with a slim bootstrap also of the StC rows, and no other. |
| `LevelJoins.ScaleLaw` | lattica_build_src/lattica_build/params/level_and_scale_tracing.py:152-270 | Headline: for every circuit of rescales, modswitches, level drops, additions, multiplications and bootstraps whose drops read their own rows, the scale times the primes dropped since the fresh or bootstrapped source is the source scale times the product of the scale-ups on the path through the lower inputs, a multiplication contributing the other input's scale. |
| `LevelJoins.CircuitHasGains` | lattica_build_src/lattica_build/params/level_and_scale_tracing.py:152-270 | Every circuit whose drops are right has such gains. |
| `LevelJoins.SourceScale` | lattica_build_src/lattica_build/operators/fhe/h_bootstrap.py:27-41 | A fresh source has the initial scale; a bootstrapped one the target scale, or without a target the scale of its input. |
| `LevelJoins.FreshSlimBalancesIff` | lattica_build_src/lattica_build/params/level_and_scale_tracing.py:85-121 | On a fresh slim ciphertext the law holds for an explicit one-column drop iff it drops a pipeline row. |
| `LevelJoins.FreshSlimCountIff` | lattica_build_src/lattica_build/params/level_and_scale_tracing.py:85-138 | With distinct primes, so it does for an explicit drop of any number of live columns. |
| `LevelJoins.SlimRunRightIff` | lattica_build_src/lattica_build/params/level_and_scale_tracing.py:85-205 | A ciphertext with the rows of a fresh slim one can lose n levels with the right divisors iff its pipeline rows hold n levels. |
| `LevelJoins.ReachableAscend` | lattica_build_src/lattica_build/params/level_and_scale_tracing.py:85-270 | Every state inferred for a circuit with fair explicit counts, without a slim bootstrap or from its bootstraps on, has an ordered subset of the chain as active rows, each with a non-empty suffix of live columns. |
| `LevelJoins.CircuitConserves` | lattica_build_src/lattica_build/params/level_and_scale_tracing.py:152-270 | For all those circuits the scale law holds without further conditions on the drops. |
| `LevelTails.BootIsTail` | lattica_build_src/lattica_build/params/level_and_scale_tracing.py:260-270 | A bootstrap restores every level of pipeline, base and, if it is slim, StC. |
| `LevelTails.ReachableAreTails` | lattica_build_src/lattica_build/params/level_and_scale_tracing.py:152-270 | Without row budgets, every state any such circuit reaches is a tail of the rows that a bootstrap restores. |
| `LevelTails.TailsCompare` | lattica_build_src/lattica_build/params/level_and_scale_tracing.py:216-222 | Of two tails the one with no more live columns is contained in the other. |
| `LevelTails.JoinsNeverFail` | lattica_build_src/lattica_build/params/level_and_scale_tracing.py:224-258 | Hence any two states reachable without budgets are comparable and their join succeeds at the lower level, as long as both hold a level. |
| `ConsumptionOrder.DroppedByLastDrop` | lattica_build_src/lattica_build/params/level_and_scale_tracing.py:79-83 | The first part of the order lists exactly the dropped pipeline rows, strictly by their last drop. |
| `ConsumptionOrder.OrderIsPermutation` | lattica_build_src/lattica_build/params/level_and_scale_tracing.py:79-83 | For every drop history the order holds each pipeline row once: dropped rows by last drop, then never-dropped rows in chain order. |
| `ConsumptionOrder.OrderHasAllRows` | lattica_build_src/lattica_build/params/level_and_scale_tracing.py:79-83 | No pipeline row is missing. |
| `Rnn.TanhUsesTwoLevels` | lattica_build_src/lattica_build/examples/advanced/rnn.py:25-26 | The degree-3 polynomial costs the two levels that the per-step constant counts. |
| `RefreshLevels.BootLevelsCount` | lattica_build_src/lattica_build/examples/advanced/rnn.py:100-101 | A refreshed ciphertext holds one level per pipeline prime and the base. |
| `RefreshLevels.OneLevel` | lattica_build_src/lattica_build/params/level_and_scale_tracing.py:178-199 | Without a budget a one-level operator fails iff no level is left, else costs one, and drops the base row iff exactly one was left. |
| `RefreshLevels.PolyLevels` | lattica_build_src/lattica_build/params/level_and_scale_tracing.py:201-205 | A polynomial of n levels fails iff fewer are left, else costs n, and drops the base row iff between 1 and n were left. |
| `RefreshLevels.MulLevels` | lattica_build_src/lattica_build/operators/arithmetic/h_mul.py:56-72 | A product of two ciphertexts fails iff one of them has run out, else leaves one level less than the lower of them, and drops the base row iff that one held a single level. |
| `Rnn.TimeStep` | lattica_build_src/lattica_build/examples/advanced/rnn.py:70-80 | One timestep costs three levels of the hidden state, joins without failing, and drops the base row iff the hidden state held at most three levels. |
| `Rnn.Forward` | lattica_build_src/lattica_build/examples/advanced/rnn.py:62-85 | For every chain, sequence length, batching flag and period: the run succeeds without dropping the base row iff the period is positive, the sequence non-empty and a closed bound on levels, period and length holds. |
| `Rnn.ChosenPeriod` | lattica_build_src/lattica_build/examples/advanced/rnn.py:97-104 | A third of the levels is a safe period for every length iff the chain has at least three levels, and no longer period is safe for sequences that fill it. |
| `Rnn.BuildAndTrace` | lattica_build_src/lattica_build/examples/advanced/rnn.py:97-106 | With the period the pipeline chooses, the base survives and a level is left for the classifier iff the chain has at least three levels; below that the period is zero and the loop raises. |
| `BitonicLevels.ThresholdUsesSevenLevels` | lattica_build_src/lattica_build/examples/advanced/bitonic_sort.py:20-20 | The threshold polynomial of degree 127 costs seven levels, so that a stage costs eight. |
| `BitonicLevels.RunStage` | lattica_build_src/lattica_build/examples/advanced/bitonic_sort.py:68-75 | A stage that succeeds costs eight levels; it succeeds without dropping the base row iff more than eight are left. |
| `BitonicLevels.Forward` | lattica_build_src/lattica_build/examples/advanced/bitonic_sort.py:91-100 | For every chain, every power-of-two length and every boot_every: the sort succeeds without dropping the bootstrap base iff boot_every is not 0 and the longest run of stages between refreshes fits the pipeline levels at eight levels a stage; a negative boot_every never refreshes. |
| `BitonicLevels.LongestSafePeriod` | lattica_build_src/lattica_build/examples/advanced/bitonic_sort.py:91-93 | A positive period is safe iff it is at most an eighth of the pipeline levels, or there are no more stages than that. |
| `BitonicLevels.OneStageFits` | lattica_build_src/lattica_build/examples/advanced/bitonic_sort.py:29-30 | With the eight pipeline levels of the example chain only a refresh after every stage is safe, except for at most two entries. |
| `Primes.RelativePrecisions` | lattica_build_src/lattica_build/params/primes_utils.py:24-32 | The row check accepts iff every row is non-empty and strictly decreasing, and yields the per-column bit lengths. |
| `Primes.Telescope` | lattica_build_src/lattica_build/params/primes_utils.py:28-32 | The bit lengths from a column to the end of its row sum to the row's precision at that column. |
| `Primes.CountsOccurrences` | lattica_build_src/lattica_build/params/primes_utils.py:42-48 | A pool is asked for as many primes as its length occurs among the precisions. |
| `Primes.GetPrimes` | lattica_build_src/lattica_build/params/primes_utils.py:18-63 | Accepted iff the rows are valid and every pool holds enough primes; otherwise the error names the first failing check: an empty or non-decreasing row, an unknown length, or a pool with too few primes. |
| `Primes.DrawnFromEnd` | lattica_build_src/lattica_build/params/primes_utils.py:53-57 | The n-th prime of a length is the n-th of its pool counted from the end. |
| `Primes.DrawIsDistinct` | lattica_build_src/lattica_build/params/primes_utils.py:53-57 | Every prime comes from the pool of its own length, and none is drawn twice. |
| `Primes.UnflattenRowsCols` | lattica_build_src/lattica_build/params/primes_utils.py:10-16 | The packing loop equals the recursive packing. |
| `Primes.UnflattenFlatten` | lattica_build_src/lattica_build/params/primes_utils.py:10-16 | Packing into rows is undone by flattening, and gives the requested row lengths. |
| `Primes.FactorsHaveTheirLength` | lattica_build_src/lattica_build/params/primes_utils.py:53-63 | Each column of each row gets one prime below two to its own bit length. |
| `Primes.FactorsAreDistinct` | lattica_build_src/lattica_build/params/primes_utils.py:53-63 | No two columns of a drawn table share a prime. |
| `Primes.RowProductBound` | lattica_build_src/lattica_build/params/primes_utils.py:24-63 | The product of a row from column c on stays below two to the row's precision at c. |
| `Primes.FitsInt64` | lattica_build_src/lattica_build/params/level_and_scale_tracing.py:108-121 | The int64 product of any remaining columns of a drawn row stays below 2^62 for precisions up to 62 bits. |
| `Primes.ChainRowProductBound` | lattica_build_src/lattica_build/params/level_and_scale_tracing.py:62-67 | The bound holds row by row in chain order although the base row is drawn first. |
| `Primes.BaseMatchesOneRowChain` | lattica_build_src/lattica_build/params/level_and_scale_tracing.py:62-67 | Drawn first, the base row gets the primes of a one-row chain with the same row. |
| `ChainPrimes.ColumnsDiffer` | lattica_build_src/lattica_build/params/level_and_scale_tracing.py:62-67 | No two columns of a chain share a prime, although the base row is drawn first. |
| `ChainPrimes.ColumnPrime` | lattica_build_src/lattica_build/params/level_and_scale_tracing.py:62-67 | In chain order each column holds one prime of its own bit length. |
| `ChainPrimes.DrawnIsDistinct` | lattica_build_src/lattica_build/params/level_and_scale_tracing.py:62-67 | So every drawn chain meets the hypothesis of distinct primes under which the divisors above are characterised. |
| `ChainPrimes.DrawnIsPrime` | lattica_build_src/lattica_build/params/level_and_scale_tracing.py:62-67 | Over pools of primes every drawn chain also meets the hypothesis under which drops of any count are characterised. |
| `ChainPrimes.DrawnIsValid` | lattica_build_src/lattica_build/params/level_and_scale_tracing.py:62-70 | A drawn chain whose sections cover its table is a valid chain for the level tracing. |
| `ChainPrimes.DrawnDropBalancesIff` | lattica_build_src/lattica_build/params/level_and_scale_tracing.py:62-176 | On every drawn chain a drop of any number of live columns conserves scale times modulus iff its row is read correctly. |
| `ChainPrimes.DropFitsInt64` | lattica_build_src/lattica_build/params/level_and_scale_tracing.py:108-121 | The product of the columns that a drop removes, in chain order, stays below 2^62 for rows of at most 62 bits. |
| `ChainPrimes.DivisorFitsInt64` | lattica_build_src/lattica_build/params/level_and_scale_tracing.py:108-121 | And so does the divisor that a drop computes, whatever rows, columns and count, also when another row is read. |
| `Primes.QListIsDrawable` | lattica_build_src/lattica_build/params/bootstrapping_params.py:62-71 | A bootstrap precision table is given iff scale and levels are in range; it passes the row check of the prime draw, holds exactly the requested levels, and stays within 62 bits per row. |
| `Primes.QListBits` | lattica_build_src/lattica_build/params/bootstrapping_params.py:62-71 | Every level of a bootstrap table has a prime of exactly the given bits, packed in pairs below 32 bits. |
| `BootstrapChain.SplitCoversStages` | lattica_build_src/lattica_build/params/bootstrapping_params.py:78-116 | A bootstrap chain never refuses a slot count it was built for; its split covers exactly the log2 of the slots and fits the levels. |
| `BootstrapChain.ChainMaxima` | lattica_build_src/lattica_build/params/bootstrapping_params.py:78-93 | The chain is built iff every slot count has an entry, with the deepest split and the widest primes among them and no more. |
| `BootstrapChain.SlimSplit` | lattica_build_src/lattica_build/params/bootstrapping_params.py:111-116 | A slim split uses all levels, in parts that differ by at most one, the longer ones first, and sums to the number of stages. |
| `LinearSolve.Solve` | lattica_build_src/lattica_build/operators/polynomials/remez_utils.py:255-282 | In-place elimination with partial pivoting: an answer solves every equation and is the only solution; a zero pivot yields a non-zero kernel vector of the matrix. |
| `LinearSolve.KernelBreaksUniqueness` | lattica_build_src/lattica_build/operators/polynomials/remez_utils.py:255-282 | A non-zero kernel vector rules out a unique solution, so an answer is given exactly for regular systems. |
| `LinearSolve.AugmentedMeaning` | lattica_build_src/lattica_build/operators/polynomials/remez_utils.py:262-262 | Solutions and kernel vectors are the zeros of the augmented rows with last entry -1 and 0. |
| `LinearSolve.PivotRow` | lattica_build_src/lattica_build/operators/polynomials/remez_utils.py:264-264 | The first row of largest absolute value in the column. |
| `LinearSolve.EliminateColumn` | lattica_build_src/lattica_build/operators/polynomials/remez_utils.py:269-274 | One elimination round clears the column below the diagonal and keeps the solution set. |
| `LinearSolve.BackSubstitute` | lattica_build_src/lattica_build/operators/polynomials/remez_utils.py:275-282 | Back substitution solves every reduced row. |
| `References.Collapse` | lattica_build_src/lattica_build/operators/polynomials/remez_utils.py:301-309 | The loop computes the alternating skeleton of the points. |
| `References.CollapsedSkeleton` | lattica_build_src/lattica_build/operators/polynomials/remez_utils.py:301-309 | The skeleton alternates, keeps position order, stays within the points, and is empty only if they are. |
| `References.CollapsedCovers` | lattica_build_src/lattica_build/operators/polynomials/remez_utils.py:301-309 | For every point the skeleton has one of the same run of marks that is taller, or equally tall and not to the right of it. |
| `References.SkeletonIsLongest` | lattica_build_src/lattica_build/operators/polynomials/remez_utils.py:301-309 | No alternating selection of the points in position order is longer than the skeleton. |
| `References.AllowedIff` | lattica_build_src/lattica_build/operators/polynomials/remez_utils.py:349-361 | A removal is tried iff it leaves the protected point. |
| `References.PairLoss` | lattica_build_src/lattica_build/operators/polynomials/remez_utils.py:346-348 | The price of a removal is what the sum of the absolute errors loses without the two points of its pair. |
| `References.TrimOnce` | lattica_build_src/lattica_build/operators/polynomials/remez_utils.py:335-363 | One trimming turn removes the cheapest removal that spares the tallest point; the fallback of the for-else is never reached. |
| `References.Trim` | lattica_build_src/lattica_build/operators/polynomials/remez_utils.py:334-364 | Trimming terminates with exactly num_nodes of the points in position order, keeps the protected one and alternation, and takes a cheapest allowed removal every time, the smaller unprotected end at last. |
| `References.EndLoss` | lattica_build_src/lattica_build/operators/polynomials/remez_utils.py:338-345 | The end that goes at last is unprotected and leaves the larger sum of absolute errors, the first one on a tie. |
| `References.TrimsToOne` | lattica_build_src/lattica_build/operators/polynomials/remez_utils.py:334-364 | That description has one outcome only. |
| `References.Pad` | lattica_build_src/lattica_build/operators/polynomials/remez_utils.py:326-329 | A short skeleton is kept whole, and every point added to it is taller than every point left out, or equally tall and to the left of it. |
| `References.EnoughIff` | lattica_build_src/lattica_build/operators/polynomials/remez_utils.py:314-320 | A threshold keeps enough alternating points iff some alternating selection of num_nodes extrema, in position order and above the noise, meets it. |
| `References.FirstSufficient` | lattica_build_src/lattica_build/operators/polynomials/remez_utils.py:314-320 | The threshold used is the first among the whole level, half, a quarter, a tenth and nothing that such a selection meets. |
| `References.SelectReferences` | lattica_build_src/lattica_build/operators/polynomials/remez_utils.py:285-364 | When some threshold admits num_nodes alternating points: exactly num_nodes points that meet the first such threshold by mu * r, in position order, strictly alternating, in the sign of the error too if the threshold is positive, with the largest error it keeps, obtained by cheapest removals that spare the first tallest point; in every case no point is below the noise. |
| `References.WithoutThreshold` | lattica_build_src/lattica_build/operators/polynomials/remez_utils.py:321-332 | When no threshold does: exactly num_nodes extrema (or all, if fewer) in position order, the skeleton trimmed if it is long enough and else padded with the tallest leftovers, the leftmost among equally tall. |
| `References.PickAlternating` | lattica_build_src/lattica_build/operators/polynomials/remez_utils.py:158-182 | Runs of one error sign become their tallest member, then exactly the smaller end goes until num_nodes are left: signs alternate, a tallest error survives, and of the window that stays, each point dropped on its left is matched in height from its right end on, and each one dropped on its right is topped up to its left end. |
| `References.OneWindow` | lattica_build_src/lattica_build/operators/polynomials/remez_utils.py:177-181 | There is one such window of each size, also among equally tall ends. |
| `ExtremumSearch.GoldenSection` | lattica_build_src/lattica_build/operators/polynomials/remez_utils.py:699-711 | The loop that evaluates once per step ends on the bracket of the plain search that evaluates both probes, for every function. |
| `ExtremumSearch.Ternary` | lattica_build_src/lattica_build/operators/polynomials/remez_utils.py:240-252 | The ternary search is the plain search that keeps two thirds of the bracket. |
| `ExtremumSearch.PeakOrValley` | lattica_build_src/lattica_build/operators/polynomials/remez_utils.py:240-243 | The function that is maximised is unimodal iff the error has one peak for positive mu, one valley otherwise. |
| `ExtremumSearch.ProbeSurvives` | lattica_build_src/lattica_build/operators/polynomials/remez_utils.py:701-709 | Because GR^2 + GR = 1, the surviving probe is a probe of the smaller bracket. |
| `ExtremumSearch.TiesKeepLeft` | lattica_build_src/lattica_build/operators/polynomials/remez_utils.py:703-709 | Where the probes are equal the left part stays. |
| `ExtremumSearch.SearchKeepsTop` | lattica_build_src/lattica_build/operators/polynomials/remez_utils.py:699-711 | A unimodal function keeps its extremum in the bracket. |
| `ExtremumSearch.SearchWidth` | lattica_build_src/lattica_build/operators/polynomials/remez_utils.py:699-711 | The width after n steps is the ratio applied n times to the start. |
| `ExtremumSearch.WidthIsPower` | lattica_build_src/lattica_build/operators/polynomials/remez_utils.py:699-711 | That is the n-th power of the ratio times the start. |
| `ExtremumSearch.RefineExtremum` | lattica_build_src/lattica_build/operators/polynomials/remez_utils.py:240-252 | Both searches return a point within half the final width of the one peak of the error (mu = 1) or its one valley (mu = -1) in the bracket, with its error. |
| `RefinementPoly.NormPositive` | lattica_build_src/lattica_build/operators/polynomials/remez_utils.py:1057-1057 | The exact normaliser is strictly positive for every order. |
| `RefinementPoly.AltSumPascal` | lattica_build_src/lattica_build/operators/polynomials/remez_utils.py:1057-1057 | The alternating binomial sum of one order is the difference of two sums of one order less. |
| `RefinementPoly.ClosedRatio` | lattica_build_src/lattica_build/operators/polynomials/remez_utils.py:1057-1057 | Neighbouring sums stand in the ratio a : a + 2 order + 2. |
| `RefinementPoly.FlatPowerCoefficient` | lattica_build_src/lattica_build/operators/polynomials/remez_utils.py:1046-1050 | The coefficients of (1 - x^2)^order, defined by repeated multiplication, are the signed binomials. |
| `RefinementPoly.Build` | lattica_build_src/lattica_build/operators/polynomials/remez_utils.py:1052-1060 | The filled list is an odd polynomial with value 1 at 1 whose derivative is (1 - x^2)^order over the positive normaliser, and the returned Chebyshev coefficients have its value everywhere. |
| `RefinementPoly.ConversionKeepsValue` | lattica_build_src/lattica_build/operators/polynomials/remez_utils.py:1060-1060 | Horner conversion to the Chebyshev basis keeps the value of every coefficient list at every point. |
| `RefinementGain.BuiltCoefs` | lattica_build_src/lattica_build/operators/polynomials/remez_utils.py:1052-1060 | The list that the loop fills is the one whose order at 1 is taken: the filling leaves no freedom. |
| `RefinementGain.RefinementOrder` | lattica_build_src/lattica_build/operators/polynomials/remez_utils.py:1043-1060 | The refinement polynomial of order o is flat at 1 to order exactly o + 1: 1 - f(1 + t) is t^(o+1) times a polynomial that is not 0 at 0. |
| `PolynomialZeros.OrderIsUnique` | lattica_build_src/lattica_build/operators/polynomials/remez_utils.py:1046-1050 | A function is flat at 1 to one order only. |
| `PolynomialZeros.ComposedOrder` | lattica_build_src/lattica_build/operators/polynomials/remez_utils.py:1046-1050 | The orders of composed functions multiply. |
| `RefinementGain.FactorIsOrder` | lattica_build_src/lattica_build/operators/polynomials/remez_utils.py:1310-1312 | The factor by which the search multiplies the bits of a combination is the order to which the composite of its refinement polynomials is flat at 1. |
| `RefinementGain.RefinementFits` | lattica_build_src/lattica_build/operators/polynomials/remez_utils.py:1063-1066 | A refinement is charged the least supported depth whose tree fits the coefficients of its polynomial. |
| `PolyEval.ChebyshevIs` | lattica_build_src/lattica_build/operators/polynomials/h_poly_eval_base.py:59-64 | The Chebyshev polynomials that the sums run over: T_k at the mean of y and 1/y is the mean of their k-th powers, so on the unit circle the cosine of k times an angle. |
| `PolyEval.EndingsAgree` | lattica_build_src/lattica_build/operators/polynomials/remez_utils.py:671-676 | Both register endings of the Clenshaw recurrence equal the Chebyshev sum, for every coefficient list and x. |
| `PolyEval.ClenshawSum` | lattica_build_src/lattica_build/operators/polynomials/h_poly_eval_base.py:59-64 | The two registers weigh two neighbouring Chebyshev polynomials to the whole sum, from any starting pair. |
| `PolyEval.ForwardClear` | lattica_build_src/lattica_build/operators/polynomials/h_poly_eval_base.py:55-64 | Clear evaluation returns the sum of c_k * T_k at the rescaled input, the empty list included. |
| `PolyEval.Cheb` | lattica_build_src/lattica_build/operators/polynomials/remez_utils.py:530-537 | The fitting code's helper returns the same sum, with its special cases for no and one coefficient. |
| `PolyEval.RescaleMapsInterval` | lattica_build_src/lattica_build/operators/polynomials/h_poly_eval_base.py:56-57 | The change of variable maps left to -1 and right to 1, and an input lands in [-1, 1] iff it lies in the interval. |
| `PolyEval.RescaleCosts` | lattica_build_src/lattica_build/operators/polynomials/h_poly_eval_base.py:72-82 | The change of variable costs a level iff it stretches by a factor that differs from 1 by more than the tolerance; on [-1, 1] it never does. |
| `PolyEval.LevelsSuffice` | lattica_build_src/lattica_build/operators/polynomials/h_poly_eval_base.py:83-85 | n levels are inferred to suffice exactly for degrees up to 2^n - 1. |
| `PolyEval.InferLevels` | lattica_build_src/lattica_build/operators/polynomials/h_poly_eval_base.py:66-92 | For every state the method runs one optional rescale and then the levels of the degree, with the meaning above. |
| `PolyEval.EvalStateMeaning` | lattica_build_src/lattica_build/operators/polynomials/h_poly_eval_base.py:66-92 | From ascending rows inference fails iff the budgeted rows hold fewer levels than rescale and tree need; otherwise it removes exactly those and keeps the scale. |
| `PolyEval.BucketMatchesInference` | lattica_build_src/lattica_build/operators/polynomials/remez_utils.py:110-116 | The search charges a degree exactly the levels that the operator infers for it, but at least three. |
| `SignSearch.BucketIsLeast` | lattica_build_src/lattica_build/operators/polynomials/remez_utils.py:110-116 | The bucket depth is the least supported depth whose degree is large enough. |
| `SignSearch.EnumerateExact` | lattica_build_src/lattica_build/operators/polynomials/remez_utils.py:1072-1095 | A list is enumerated iff it is a non-decreasing list of supported depths with the given sum; the recursion ends for every total. |
| `SignSearch.EnumerateNoRepeats` | lattica_build_src/lattica_build/operators/polynomials/remez_utils.py:1072-1095 | No list is enumerated twice. |
| `SignSearch.CombosExact` | lattica_build_src/lattica_build/operators/polynomials/remez_utils.py:1098-1105 | A refinement combination is offered iff it is non-decreasing, drawn from the orders, and short enough. |
| `SignSearch.Search.RecordsFor` | lattica_build_src/lattica_build/operators/polynomials/remez_utils.py:1266-1284 | The stage cache agrees with the uncached recursive definition, unstable prefixes included, and no prefix is fitted twice. |
| `SignSearch.RecordsAre` | lattica_build_src/lattica_build/operators/polynomials/remez_utils.py:1266-1284 | A prefix has given records iff each of them is the fit on what the one before it leaves, with no coefficient above 1000 in absolute value. |
| `SignSearch.Search.BaseBitsFor` | lattica_build_src/lattica_build/operators/polynomials/remez_utils.py:1289-1298 | The bits cache agrees with measuring afresh. |
| `SignSearch.Search.PassingAt` | lattica_build_src/lattica_build/operators/polynomials/remez_utils.py:1303-1320 | One round lists exactly the schedules of its total depth that reach the target. |
| `SignSearch.Search.SignMinimax` | lattica_build_src/lattica_build/operators/polynomials/remez_utils.py:1303-1332 | The result passes and is no worse than any passing schedule: least total depth, then fewest polynomials, then most bits; failure means that nothing passes within the depth limit. |
| `RefinementGain.DepthIsLevels` | lattica_build_src/lattica_build/operators/polynomials/remez_utils.py:965-968 | The compared depth of a schedule is the sum of the levels that evaluating its polynomials is inferred to take, each at least three, and the compared number is that of its polynomials. |
| `RefinementGain.PassesByOrder` | lattica_build_src/lattica_build/operators/polynomials/remez_utils.py:1305-1320 | A schedule passes iff its stages fit, each on what the one before it leaves and none with a coefficient beyond 1000, and the bits measured of them times the order to which its refinements are flat at 1 reach the target. |
| `Sorting.Sort` | lattica_build_src/lattica_build/operators/polynomials/remez_utils.py:1322-1322 | Python's sort on a total preorder: the sorted permutation that keeps equal elements in their order. |
| `KeyStore.Host.AtomicPrivateWrite` | lattica_query_src/lattica_query/storage/_files.py:34-75 | Whatever step fails or is the last before a crash, the whole content is in place iff the rename completed, also when the directory sync then raises; otherwise the old file is left. |
| `KeyStore.Host.RemoveOldRevisions` | lattica_query_src/lattica_query/storage/key_store.py:259-262 | Garbage removal never touches the current revision, and without faults leaves nothing else. |
| `KeyStore.Host.StageAndCommit` | lattica_query_src/lattica_query/storage/key_store.py:139-146 | The rename of the pointer is the commit: a revision is committed iff the steps up to it complete; before it nothing current changes, after it the new revision is complete. |
| `KeyStore.Host.SaveKeyBundle` | lattica_query_src/lattica_query/storage/key_store.py:116-155 | Through failures and crashes at every step, saving commits the whole new revision or leaves the last one current, with one exact exception: if the directory sync after the commit raises and the clean-up completes, the committed bundle is lost, and in no other case. It succeeds iff the key is non-empty, the steps up to the listing of old revisions complete, and the process survives their removal. An empty evaluation key is refused untouched. |
| `KeyStore.Host.LateFailureLosesKey` | lattica_query_src/lattica_query/storage/key_store.py:146-150 | That exception occurs: a generation fails after replacing the key that was there, and every later ensure fails. |
| `KeyStore.Host.MarkKeyUploaded` | lattica_query_src/lattica_query/storage/key_store.py:158-161 | Marking needs the backend to hold the evaluation key; on success the current revision is the same bundle with the flag set, and pointer and revisions never change. |
| `KeyStore.Host.LoadKeyBundle` | lattica_query_src/lattica_query/storage/key_store.py:164-191 | Loading returns exactly the last committed revision, never a mix; it reports a missing key only when nothing was committed, and a malformed one when the committed bundle was lost or current names no possible revision. What it loads has version 4 and no empty part. |
| `KeyStore.RevisionNames` | lattica_query_src/lattica_query/storage/key_store.py:201-203 | A revision name is accepted iff it is 32 hexadecimal digits in lower case, as uuid4().hex yields. |
| `KeyStore.Host.Register` | lattica_query_src/lattica_query/client/keys.py:114-117 | Registration uploads the current evaluation key exactly when its first step completes, before it is marked, and succeeds iff all its steps complete. |
| `KeyStore.Host.Generate` | lattica_query_src/lattica_query/client/keys.py:78-98 | A generated key is the one committed, and is returned iff the fetch, the save and, if requested, the registration complete on usable material; the flag is set only after the upload. |
| `KeyStore.Host.Ensure` | lattica_query_src/lattica_query/client/keys.py:44-54 | ensure keeps a committed key, completes an interrupted registration by one upload, and when already registered uploads and writes nothing; it succeeds iff generation and registration do on an empty store, and else iff the token matches and the key is registered or its registration completes. A key of another token is refused, and a lost bundle is reported, not replaced. |
| `KeyStore.Host.EnsureWithoutFaults` | lattica_query_src/lattica_query/client/keys.py:44-54 | Without faults ensure ends with a registered key: a new one on an empty store, or the committed one of this token, after exactly one upload if it was pending. |
| `KeyStore.Host.EnsureAgain` | lattica_query_src/lattica_query/client/keys.py:44-54 | On a registered key ensure returns that key, and leaves disk, backend and committed history exactly as they are. |
| `KeyStore.Host.EnsureRepeatedly` | lattica_query_src/lattica_query/client/keys.py:44-54 | So does any number of further calls. |
| `KeyStore.Host.EnsureTwice` | lattica_query_src/lattica_query/client/keys.py:44-54 | Whatever crash came before, once ensure returns a key, every one of any number of later calls returns the same key, and all of them together upload at most once: the committed evaluation key. |
| `KeyStore.Host.Load` | lattica_query_src/lattica_query/client/keys.py:100-112 | load returns the last committed key of this token and changes nothing. |
| `KeyStore.Host.RunSessions` | lattica_query_src/lattica_query/client/keys.py:44-112 | Over every sequence of generate, ensure and load with a failure or crash at any step: unless in some session exactly the directory sync after the commit raises, the last committed revision stays complete; in every case nothing but that revision loads, and its uploaded flag implies that the backend accepted its evaluation key. |

## Left out

- HTTP, worker polling, studio resources, deployment, logging, table display, plotting: no internal algorithm.
- `fhe_core` encryption, protobuf modules, safetensors and zip writing, the backend's execution: foreign or generated code.
- Floating-point rounding, numpy and scipy fitting, mpmath precision, convergence of the Remez exchange: fits and measurements are uninterpreted functions, `math.log2` is the exact logarithm.
- The quality of the comparator polynomial: it enters through the tolerance hypothesis only.
- The prime pool file is not part of this model: pools are assumed to hold distinct primes, to be disjoint, and to hold numbers from 2 to below 2^b for b bits; that the numbers are prime is a hypothesis only where drops of several columns are characterised.
- Shape and packing-axis inference, custom inputs, client-only ops, `on_leaf_op` and shapes-only tracing: metadata that does not reach the clear graph. Leaf ops other than addition, multiplication and their constant forms are one uninterpreted function. Tensors are flat vectors; broadcasting is modelled for single elements.
- Slicing (`x[key]`) in traced bodies: a call of an uninterpreted leaf.
- The data-loading half of `run_clear_section` (`_constructor`, attributes): a graph leaf carries its kind directly.
- The rest of `remez_utils.py` (extrema scanning on grids, initial nodes, EvalMod fits), and the vectorised ternary search, which is the same loop elementwise.
- Conversion of refinement polynomials to floats.
- Files, locks and permissions below single steps: mutual exclusion and ordered atomic steps are assumed, power loss is not modelled, reads do not fail, file contents are not altered by others, and fresh revision names have not been used before.
- An interrupt between two steps is an exception of the step before or after it; a directory that cannot be opened for its sync counts as synced, as the code treats it.
- BitonicNetwork.Forward: a refresh is the identity on clear values; the levels are traced by `BitonicLevels.Forward`.
- LevelJoins.CircuitConserves: circuits that drop from fresh slim ciphertexts are covered by `LevelJoins.ScaleLaw` under its condition on the drops, because without it the law is false of the code.
- LevelTails.ReachableAreTails: fresh slim ciphertexts are left out, whose rows are not a tail of the rows that a bootstrap restores.
- LevelJoins.Adjusted: a state without active rows has no rectangular tensor form; such a join is modelled as failing.
- PolyEval.EvalStateMeaning: the level count is stated from ascending rows; for other rows `PolyEval.InferLevels` gives the run itself.
- SignSearch.Search.SignMinimax: orders whose refinement degree exceeds the largest supported degree, for which the depth lookup raises, are excluded by `GoodTask`.
- References.SelectReferences: positions are distinct and marks are 1 or -1, as the scans produce them; the case without a sufficient threshold is `References.WithoutThreshold`.
- KeyStore.Host.Generate: whether a call without a key reads Failed or Died is stated only where a contract names it, since a process that died answers nobody.
- Rnn.Forward: levels only; the scale is not part of the claim.
- BitonicLevels.Forward: levels only; the scale is not part of the claim.
