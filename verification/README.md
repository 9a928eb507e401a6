# A model of SLEEF's planner, arithmetic and tools

This project models the parts of SLEEF whose correctness is not visible in single functions, and
proves what they are for.

- **The DFT planner and its data movement** (`src/dft/dft.cpp`). `PathSearch` is the best-first search
  that marks nodes when they are pushed; it is optimal because costs are sums of weights on nodes.
  `Planner` models `measure`, the estimator and the plans, `Construction` the choice of the
  instruction set. `Bits` and `BitPermutation` follow `uperm` bit by bit; `Tables`, `Interleaving`
  and `MakeTables` the coefficient tables and `perm`, `TableEntries` what stands where in them.
  `Transpose`, `Execute2D`, `Execute1D` and `SmallTransforms` move the data; butterfly kernels,
  coefficients and one-dimensional transforms inside the two-dimensional one are arbitrary functions.
  `RealSub` holds the kernels of the real transforms, `RealFormat` the bins they produce and the way
  back.
- **Error-free arithmetic** (`src/common/df.h`, `src/common/dd.h`) and **rounding tricks**
  (`src/common/commonfuncs.h`, `src/arch/helperpurec_scalar.h`). A float is an integer multiple of the
  smallest quantum, representable when it is `m * 2^k` with `|m| < 2^p`; rounding is to nearest,
  ties to even. The results hold for every precision p, subnormal numbers included, without
  overflow. Products are without underflow.
- **The two-phase revised simplex method** (`src/gencoef/simplexfr.c`) over exact reals: `Tableau`
  holds the linear algebra of a pivot, `StandardForm` and `FreeVariables` the translation between
  the given problem and the equations, `AddedColumns` and `Pivoting` the steps, `PivotPath` and
  `Vertices` what the bound of the ratio test does, `Leftovers` the rows that phase 1 gives up,
  `Relaxation` what the answer without them is worth, `Simplex` the mutable state and the loops,
  `Pitfalls` three inputs with wrong answers. The source works with eps = 1e-50 and large = 1e50; both
  are parameters.
- **Streaming SHA-256** (`src/common/psha2.hpp`) against FIPS 180-4 (`Sha256Standard`),
  whose constants are derived (`Sha256Constants`) and whose example is computed (`Sha256Example`).
- **The plan text and the plan file** (`src/dft/dftcommon.cpp`, `src/dft/serializer.hpp`): `PlanText`,
  `Serializer`, `PlanFile` and, from a planner's plan to the path of another transform, `SavedPlans`.

`dafny verify dfyconfig.toml` checks everything.

## Where the code does not do what it is for

- The bit-decrement rounding of `vrint_vi_vd` and `vrint_vi2_vf` is not round-half-even for the float
  just above 0.5, whose sum with 0.5 is rounded to 1, nor for odd integers whose last place is 1
  (reached by singles only). `BitRintExactly` states the exact condition; `JustAboveHalf` and
  `OddIntegerMovesUp` are concrete cases. Beyond the range of `int32_t` the conversion in the code is
  undefined, so there the statement is about the trick alone.
- `phase1` ignores how `minimize` ended, and `minimize` looks at ratios below `large` only. With
  eps = 0 a feasible problem is reported as infeasible exactly when a ratio on the path of phase 1 is
  not below `large` (`Solve`, `PhaseOneVerdict`): the path is that of the pivots without the bound, which the rows
  determine (`LoadedIsUnique`). It does not happen when no vertex of the extended constraints has a
  component of `large` or more (`VerticesKeepPhaseOneShort`), and may not happen though one has
  (`FarVertexIsHarmless`). `FarPointLooksInfeasible` is an input for which it happens.
- For the same reason MAXIMIZABLE_TO_INFINITY does not mean an unbounded cost. When no ratio on the path
  of phase 2 reaches `large` it is given exactly for unbounded costs, and when one does it is always given
  (`Solve`, `PhaseTwoVerdict`). For -x over x <= b with b >= `large` it is given although x = b is the
  optimum (`FarOptimumLooksUnbounded`).
- Rows whose artificial variable is still basic after phase 1 are given up, and nothing keeps the
  variable at zero afterwards: phase 2 optimizes without their constraints (`Leftovers`). Which rows
  these are does not depend on the costs. The answers are right for all costs exactly when the other
  rows imply the ones given up (`ImpliedIsExact`, `Solve`); for single costs, the optimal value and the
  answer that there is none are right exactly when leaving the rows out lets no point cost less than
  all admissible ones (`OptimumWithout`, `UnboundedWithout`). For x <= 1 and x >= 1 the minimum of x is
  reported as unbounded (`TouchingRowsLookUnbounded`).
- A string with a NUL character does not survive the plan file; `StringRoundTrip` states what comes
  back.
- A one-step path of a complex transform would leave the result in a scratch buffer
  (`LastWriteGoesToD`); the planner never produces one.

## Model
| member | source | states |
|---|---|---|
| PathSearch.FrontierBound | src/dft/dft.cpp:438-473 | a walk that ends outside the expanded nodes costs at least what the cheapest pending node costs |
| PathSearch.PushIsCheapest | src/dft/dft.cpp:464-471 | the walk pushed for a node that was not marked yet is a cheapest walk to it, which is why marking on the push is safe with weights on nodes |
| PathSearch.PopCheapest | src/dft/dft.cpp:448-462 | the entry taken off the heap is a cheapest walk, and no walk to a node not yet taken off is cheaper |
| PathSearch.PopKeeps | src/dft/dft.cpp:389-395 | taking the cheapest entry off keeps the invariant and lowers heap size plus unmarked nodes by one |
| PathSearch.PushKeeps | src/dft/dft.cpp:466-471 | pushing an unmarked successor keeps the invariant and the measure |
| PathSearch.AllReported | src/dft/dft.cpp:456 | when every entry costs INFINITY_ each node that a walk reaches has been taken off the heap |
| PathSearch.NextPath | src/dft/dft.cpp:439-473 | the list of returned paths stays cheapest, with distinct ends and nondecreasing cost |
| PathSearch.KShortest.FindBest | src/dft/dft.cpp:445-454 | the index of a cheapest finite entry, or the size of the heap when there is none |
| PathSearch.KShortest.AddPath | src/dft/dft.cpp:403-409 | appends path and cost, counts the end node unless the path is empty, and returns the size of the heap |
| PathSearch.KShortest.Remove | src/dft/dft.cpp:390-395 | removes the n-th path and its cost |
| PathSearch.KShortest.Push | src/dft/dft.cpp:466-471 | a successor is pushed if and only if it is not marked; the invariant of the expansion holds again |
| PathSearch.KShortest.Turn | src/dft/dft.cpp:440-472 | one turn of the search loop takes off a cheapest walk and lowers the measure by exactly one |
| PathSearch.KShortest.Execute | src/dft/dft.cpp:439-473 | terminates with the cheapest walk to a destination not returned before, or with the empty path exactly when every reachable destination has been returned |
| PathSearch.KShortest.FirstPaths | src/dft/dft.cpp:832-843 | successive calls return the cheapest path for each distinct reachable final action, each once, in nondecreasing cost |
| Planner.EstimatorIsAdditive | src/dft/dft.cpp:793-806 | the cost of every path the estimator can build is finite and the sum of weights of its actions, on a finite set of actions |
| Planner.WalksArePrefixes | src/dft/dft.cpp:768-791 | the walks of the search graph are exactly the plan prefixes: executable actions, linked levels, constant MT bit (`QuickFinder::next` builds the same successors) |
| Planner.PrefixBounds | src/dft/dft.cpp:769-787 | the bound NMAX never cuts off an executable butterfly that a path from the top level can reach |
| Planner.FirstButterflyExists | src/dft/dft.cpp:930-954 | some first action is executable if and only if log2len >= 2, n >= vecwidth squared and the vector is no wider than the widest butterfly |
| Planner.ContinuationExecutable | src/dft/dft.cpp:918-946 | after every unfinished executable prefix some action is executable |
| Planner.PrefixExtends | src/dft/dft.cpp:918-946 | every executable prefix extends to a complete plan: the planner never dead-ends |
| Planner.PlanIsDispatchable | src/dft/dft.cpp:142 | a plan has at least two actions, its first is at least as wide as a vector, the levels stay positive until the last, the widths sum to log2len, and the tables dispatch reads exist |
| Planner.LevelsTelescope | src/dft/dft.cpp:777-779 | widths and levels of a prefix add up to log2len |
| Planner.CheapestIsBestPlan | src/dft/dft.cpp:822-826 | a cheapest walk to a finishing action is a plan with the smallest total estimate of all plans |
| Planner.BestIsRelaxed | src/dft/dft.cpp:793-797 | the plans of smallest total estimate are exactly those that deviate least from eight-point butterflies and, from 2^14 points on with threads allowed, use threads throughout |
| Planner.BestUsesEights | src/dft/dft.cpp:793-826 | from 64 points on, with vectors of at most eight elements and butterflies of at least eight points, a best plan consists of eight-point butterflies when log2len is divisible by 3, and otherwise deviates by at most one |
| Planner.Transform.FillConfig | src/dft/dft.cpp:924-945 | fills exactly the executable entries of one configuration |
| Planner.Transform.FillExecutable | src/dft/dft.cpp:912-946 | the executable table agrees with the predicate for every configuration, level and width |
| Planner.Transform.SearchForBestPath | src/dft/dft.cpp:810-826 | the first path of the estimator is a plan of minimum total estimate, so of least deviation from eight-point butterflies and threaded where threads halve the estimate |
| Planner.Transform.Measure | src/dft/dft.cpp:905-954 | planning succeeds if and only if the vector width fits, and then yields a plan of minimum total estimate, so of least deviation from eight-point butterflies and threaded where threads halve the estimate |
| Construction.ChooseIsa | src/dft/dft.cpp:1049-1057 | the first instruction set of the highest priority among those available with n >= vecwidth squared, or -1 exactly when there is none |
| Construction.UsableFits | src/dft/dft.cpp:1053 | a chosen instruction set fits the planner exactly when its vectors are no wider than the widest butterfly |
| Construction.Construct | src/dft/dft.cpp:1049-1134 | without a saved plan: the chosen instruction set is planned for when its vectors are no wider than the widest butterfly; otherwise the constructor falls back to the first one, and aborts if and only if that does not fit; what is built has a plan of minimum total estimate, as for `Measure` |
| Log2.Ilog2 | src/dft/dft.cpp:86-98 | the position of the highest set bit of every nonzero 32-bit number; the wrapped -1 for zero |
| BitPermutation.Reverse32Bit | src/dft/dft.cpp:103-107 | the five mask-and-shift steps reverse all 32 bits |
| BitPermutation.UpermBit | src/dft/dft.cpp:100-112 | which bit of k each bit of uperm(nbits, k, s, d) is, for all integers s and d, which are clamped |
| BitPermutation.UpermBound | src/dft/dft.cpp:100-112 | uperm maps nbits-bit numbers to nbits-bit numbers |
| BitPermutation.UpermTelescopes | src/dft/dft.cpp:100-112 | uperm from a to b and then from b to c is uperm from a to c, for all integers a, b, c |
| BitPermutation.UpermIdentity | src/dft/dft.cpp:100-112 | uperm from a layout to itself is the identity |
| BitPermutation.UpermInverse | src/dft/dft.cpp:100-112 | uperm with s and d exchanged undoes uperm, so it is a bijection |
| BitPermutation.UpermReverses | src/dft/dft.cpp:100-112 | uperm from 0 to nbits reverses the bits |
| BitPermutation.StagesTelescope | src/dft/dft.cpp:367-379 | stages of any widths compose to one uperm |
| BitPermutation.StagesReverse | src/dft/dft.cpp:367-379 | stages whose widths sum to n compose to the full bit reversal, whatever the decomposition |
| BitPermutation.ButterflyIndex | src/dft/dft.cpp:329-333 | uperm(L, i0 + (i << (L-N)), s, s+N) = uperm(L, i0, s, s+N) + (rev(i) << s) |
| BitPermutation.ButterfliesPartition | src/dft/dft.cpp:329-334 | every index below 2^L belongs to exactly one butterfly of a stage, at exactly one place |
| Tables.CountClosedForm | src/dft/dft.cpp:285-310 | g(m) = 2^m + g(m-1) + 2g(m-2) values for a block of 2^m points: 9 g(n) = 6n 2^n - 4 2^n + 4 (-1)^n |
| Tables.ConstKIsCount | src/dft/dft.cpp:41 | constK[N] = 2 + g(N) for N from 1 to 8 |
| Tables.Recurse | src/dft/dft.cpp:285-311 | writes exactly c g(N - levelinc) values for a range of c blocks, in the order of the recursion, all indices of p in bounds, and nothing else |
| Tables.RecurseBlock | src/dft/dft.cpp:290-300 | one block: a quarter of its points, its lower half one level up, its upper half two levels up |
| Tables.FillPositions | src/dft/dft.cpp:330-334 | the table p for a start position |
| Tables.FillButterfly | src/dft/dft.cpp:336-340 | the first pair and the values of one butterfly |
| Tables.Turns | src/dft/dft.cpp:329 | the loop over start positions runs 2^(level-N) times |
| Tables.TableSize | src/dft/dft.cpp:327 | the values of t butterflies fill t (2 + g(N)) places |
| Tables.MakeLevel | src/dft/dft.cpp:322-341 | the allocation K << (level-N) is filled exactly, butterfly by butterfly |
| TableEntries.PlaceOfPoint | src/dft/dft.cpp:285-310 | every place of a butterfly behind its first pair belongs to a quadruple of some point of some block, in closed form: the lower half of a block begins as many values behind it as the block has points, the quarters of its upper half behind that |
| TableEntries.QuadrupleStands | src/dft/dft.cpp:285-310 | the four values of a point of a block: both components of r2coefsc and then of srcoefsc, negated, at a multiple of 2^(log2len - level + sublevel) |
| TableEntries.FirstPairStands | src/dft/dft.cpp:336-338 | the first pair of a butterfly: the second and then the first component of r2coefsc at minus its angle |
| TableEntries.AngleZero | src/dft/dft.cpp:336-338 | at angle 0, where sine and cosine are 0 and 1, the first pair is 1, 0 and a quadruple is 0, -1, 0, -1 |
| TableEntries.PointIsAngle | src/dft/dft.cpp:274-283 | r2coefsc and srcoefsc are sine and cosine of the angle and of three times the angle of the point: their masks change nothing |
| Interleaving.FromAndTo | src/dft/dft.cpp:346-354 | source and destination positions of the interleaving are inverse to each other |
| Interleaving.CopiedTwice | src/dft/dft.cpp:346-354 | every entry is copied to exactly two places |
| Interleaving.Interleave | src/dft/dft.cpp:343-357 | the loops write every place of the doubled table, inside its bounds |
| MakeTables.WholeGroups | src/dft/dft.cpp:323-346 | the last level consists of whole groups of vecwidth butterflies |
| MakeTables.MakeTable | src/dft/dft.cpp:316-364 | for every level the table, nothing, or the interleaved table, as the level demands |
| MakeTables.PairIsMade | src/dft/dft.cpp:316-364 | where the first pair of a butterfly stands in the finished table, also in the interleaved one, and its values: cosine before sine |
| MakeTables.PointIsMade | src/dft/dft.cpp:316-364 | where the four values of a point stand in the finished table, also in the interleaved one, and which they are |
| MakeTables.MadeWhereNeeded | src/dft/dft.cpp:316-364 | makeTable leaves a table for a level exactly when the executable relation of the planner says it has one |
| MakeTables.PlanReadsTables | src/dft/dft.cpp:141-168 | on any plan of the planner every table that dispatch reads was allocated by makeTable |
| MakeTables.FillRow | src/dft/dft.cpp:373-377 | one row of perm: twice the permuted start of every vector, then zeros; other rows unchanged |
| MakeTables.GeneratePerm | src/dft/dft.cpp:367-379 | every row holds what the last action of its level wrote, up to an action of level 0 |
| MakeTables.PlanRows | src/dft/dft.cpp:368-371 | the levels of a plan fall strictly, so every action gets its own row |
| MakeTables.RowStartsButterflies | src/dft/dft.cpp:373-376 | an entry of perm is twice the place of the first point of its butterfly, and point i lies rev(i) << d behind it |
| MakeTables.PlanReverses | src/dft/dft.cpp:367-379 | the permutations of any plan of the planner compose to the bit reversal of log2len bits |
| Transpose.TransposeBlock | src/dft/dft.cpp:177-182 | the sixteen swaps transpose a 16 by 16 block in place |
| Transpose.StoreBlock | src/dft/dft.cpp:219-221 | writes one block of the destination and nothing else |
| Transpose.MoveBlock | src/dft/dft.cpp:200-221 | one block of the source arrives transposed, what agreed before still agrees |
| Transpose.TransposeBlocks | src/dft/dft.cpp:198-223 | for all multiples of 16 the blocked loops give the transposed matrix |
| Transpose.TransposeNaive | src/dft/dft.cpp:187-194 | the element loops give the transposed matrix |
| Transpose.TransposeMatrix | src/dft/dft.cpp:185-225 | both branches of transpose give the same: the transposed matrix |
| Transpose.TransposeBlocksInAnyOrder | src/dft/dft.cpp:247-267 | the blocks give the transposed matrix in whatever order threads take them |
| Transpose.TransposeParallel | src/dft/dft.cpp:227-270 | both branches of transposeMT give the transposed matrix |
| Transpose.TransposedTwice | src/dft/dft.cpp:185-225 | transposing twice is the identity |
| Execute2D.RowsOfTransposed | src/dft/dft.cpp:1388-1399 | transforming the rows of the transposed matrix and transposing back transforms the columns |
| Execute2D.ExecuteRows | src/dft/dft.cpp:1389-1391 | row by row transform of a matrix |
| Execute2D.ExecuteRowsInAnyOrder | src/dft/dft.cpp:1374-1377 | the same, in whatever order threads that share the rows write the elements |
| Execute2D.Execute | src/dft/dft.cpp:1362-1399 | row transform of all rows, then column transform of all columns, in the original layout, with and without threads, also in place |
| Execute1D.LastWriteGoesToD | src/dft/dft.cpp:1316-1348 | successive writes go to different buffers, the first never to d, the last to d exactly when there are at least two (without REALSUB0) |
| Execute1D.Transform.Dispatch | src/dft/dft.cpp:129-169 | a butterfly maps its source buffer to another buffer |
| Execute1D.Transform.RealSub1 | src/dft/dft.cpp:1327-1329 | the real pre-processing and its correction, out of place; `RealFormat` says what the correction is for |
| Execute1D.Transform.RealSub0 | src/dft/dft.cpp:1350-1356 | the real post-processing and its corrections, also in place; `RealFormat` says what the corrections are for |
| Execute1D.Transform.Execute | src/dft/dft.cpp:1316-1356 | in every mode d receives the composition of the kernels applied to the input as it was, also when input and output are the same array |
| Execute1D.PlanRuns | src/dft/dft.cpp:1335-1346 | every plan of the planner meets what execute needs, in every mode |
| Execute1D.PlanInOrder | src/dft/dft.cpp:1341-1342 | the running level is the level of the action, so the kernels run as the plan lists them |
| RealSub.FillCoefficients | src/dft/dft.cpp:1079-1096 | the tables hold (1 - sin)/2 forward, (1 + sin)/2 backward, and cos/2, each twice |
| RealSub.RealSub0 | src/dft/unroll0.cpp.in:14093-14134 | the loop computes the twisted pairs of its input as it was, also in place |
| RealSub.RealSub1 | src/dft/unroll0.cpp.in:14136-14192 | the loop computes the untwisted pairs in both formats |
| RealSub.CoefficientsCancel | src/dft/dft.cpp:1083-1096 | the coefficients of the two directions cancel on the unit circle |
| RealSub.ShortSubsUndo | src/dft/unroll0.cpp.in:14093-14192 | the kernels with the coefficients of the two directions undo each other |
| RealFormat.FinishedBins | src/dft/dft.cpp:1350-1356 | after the corrections the first and the last bin are the two values at the front of the post-processing without imaginary parts, the middle bin is conjugated, and all others stay |
| RealFormat.MiddleReturns | src/dft/dft.cpp:1327-1356 | whatever the kernels, the middle place comes back with the factor 2 when the post-processing leaves it alone |
| RealFormat.MiddleBin | src/dft/dft.cpp:1350-1356 | when the butterflies end with the alternating sums of the even and the odd samples, the middle bin is the bin of the real samples at a quarter of the sampling frequency |
| RealFormat.OuterBins | src/dft/dft.cpp:1350-1356 | when they end with the sums of the even and the odd samples, the first and the last bin are the sum and the alternating sum of all samples |
| RealFormat.LongFormatReturns | src/dft/dft.cpp:1327-1356 | post-processing into the long format and pre-processing back multiply every value by exactly 2 |
| RealFormat.ShortFormatReturns | src/dft/dft.cpp:1324-1356 | pre-processing of the short format is taken back by the post-processing |
| RealFormat.TransformReturns | src/dft/dft.cpp:1316-1356 | when the butterflies of the two directions undo each other up to a factor, so do the real transforms |
| SmallTransforms.UnrolledIsSmall | src/dft/dft.cpp:1254-1313 | the expressions of all modes are the two- or four-point Fourier sum of their input, in the layout of the mode (Hermitian for real frequencies, conjugated and halved in the ALT mode) |
| SmallTransforms.RealResults | src/dft/dft.cpp:1254-1313 | the backward sum of real frequencies has no imaginary part, so nothing is lost |
| SmallTransforms.ExecuteSmall | src/dft/dft.cpp:1254-1313 | the transforms without butterflies write the Fourier sum, in all modes, also in place |
| SmallTransforms.SmallRoundTrip | src/dft/dft.cpp:1254-1313 | forward and then backward multiplies by the number of points (half of it in the ALT mode) |
| Floats.RoundsToRep | src/common/df.h:111-114 | rounding an integer to nearest even gives a float |
| Floats.RoundsToNearest | src/common/df.h:111-114 | no float is nearer than the rounded value |
| Floats.RoundingScales | src/common/df.h:191-194 | rounding commutes with powers of two |
| ErrorFree.FastTwoSumExact | src/common/df.h:111-114 | the three-operation sum is exact when |x| >= |y|: both parts are floats, they add up to x + y, the high part is x + y rounded; for every precision |
| ErrorFree.TwoSumExact | src/common/dd.h:124-128 | the six-operation sum is exact for all floats x and y and every precision of at least 2 |
| ErrorFree.NormalizeExact | src/common/df.h:102-105 | normalization keeps the value of a pair with |x| >= |y| |
| ErrorFree.ExactIsNormalized | src/common/dd.h:108-111 | normalization does not change an exact pair |
| ErrorFree.MulFmaExact | src/common/dd.h:199-202 | the FMA product of any two floats is exact, for every precision |
| ErrorFree.UpperScales | src/common/df.h:22-24 | the mask clears the low half of the significand, whatever the exponent |
| ErrorFree.SplitScales | src/common/df.h:254-266 | powers of two on the operands move through every operation of the split product |
| ErrorFree.MulSplitExact | src/common/df.h:254-266 | the split product of two normal singles or zeros is exact and gives the same pair as the FMA product |
| ErrorFree.ExactlyScales | src/common/df.h:191-194 | moving the exact value by a power of two moves the pair along |
| RintTricks.Rint2IsRint | src/common/commonfuncs.h:268-276 | (d + c) - c rounds every float to an integer, ties to even, with the sign of d |
| RintTricks.PatternRoundTrip | src/arch/helperpurec_scalar.h:195-197 | the bit pattern of a float, read as an integer, decodes to the float |
| RintTricks.DecrementIsPredecessor | src/arch/helperpurec_scalar.h:196-198 | decrementing the bit pattern gives the next smaller float |
| RintTricks.BitRintExactly | src/arch/helperpurec_scalar.h:193-200 | the bit-decrement rounding is round-half-even if and only if the magnitude is neither the float just above 0.5 nor an odd integer with last place 1 |
| RintTricks.JustAboveHalf | src/arch/helperpurec_scalar.h:193-200 | the float just above 0.5 is rounded to 0 instead of 1 |
| RintTricks.OddIntegerMovesUp | src/arch/helperpurec_scalar.h:301-308 | the odd integer 2^(p-1) + 1, for singles 8388609, becomes 2^(p-1) + 2 |
| RintTricks.BitRintInt32 | src/arch/helperpurec_scalar.h:193-200 | for a double that fits int32_t only the float just above 0.5 is rounded wrongly |
| Tableau.PivotTableau | src/gencoef/simplexfr.c:190-215 | a pivot performs a Gauss-Jordan step on the tableau that is never stored |
| Tableau.PivotKeepsValid | src/gencoef/simplexfr.c:190-215 | every pivot on a nonzero entry of a nonbasic column keeps row and col inverse, column 0 of q, the unit basic columns with zero cost, and the regularity of q |
| Tableau.PivotKeepsFeasible | src/gencoef/simplexfr.c:234-248 | the ratio test keeps the right-hand side nonnegative and a negative reduced cost never makes the objective worse |
| Tableau.OptimalBound | src/gencoef/simplexfr.c:217-232 | without a reduced cost below -eps no nonnegative solution has an objective below -tableau(0,0) by more than eps times its components |
| Tableau.BasicSolves | src/gencoef/simplexfr.c:366-370 | the basic solution satisfies the constraints, is nonnegative when the tableau is feasible, and has objective -tableau(0,0) |
| Tableau.UnboundedRay | src/gencoef/simplexfr.c:244-247 | moving along the entering column gives solutions with the objective the tableau predicts |
| Tableau.PricedStep | src/gencoef/simplexfr.c:278-286 | eliminating the cost of one basic variable from row 0 of q |
| Tableau.BasisDetermines | src/gencoef/simplexfr.c:190-215 | a basis determines the whole state q: two valid states with the same col and row are equal, whatever pivots led to them |
| Tableau.SameBasis | src/gencoef/simplexfr.c:276-286 | a new objective row changes neither the basis nor the right-hand side |
| StandardForm.StartIsValid | src/gencoef/simplexfr.c:126-150 | the invariant holds after prepare and the marking of the artificial variables |
| StandardForm.SatisfyingSolves | src/gencoef/simplexfr.c:126-150 | every point that satisfies the given constraints solves the extended equations with the same cost and no artificial part |
| StandardForm.SolvingSatisfies | src/gencoef/simplexfr.c:126-150 | a nonnegative solution without artificial part satisfies the given constraints |
| StandardForm.GivenEntry | src/gencoef/simplexfr.c:157-178 | for a given column the tableau entry is the product of a row of q and the column |
| StandardForm.AddedEntry | src/gencoef/simplexfr.c:181-187 | for an added column the tableau entry is read off q with the right sign and the added 1 |
| StandardForm.PhaseOneAccepts | src/gencoef/simplexfr.c:264-268 | when tableau(0,0) is not negative the constraints can be satisfied, however minimize ended |
| StandardForm.PhaseOneDecides | src/gencoef/simplexfr.c:264-268 | at an optimal tableau of phase 1 the constraints can be satisfied if and only if tableau(0,0) is not negative, also with leftover artificial variables |
| StandardForm.DroppedSatisfies | src/gencoef/simplexfr.c:270-274 | the problem without the constraints given up: the others remain |
| StandardForm.PhaseTwoOptimal | src/gencoef/simplexfr.c:292-300 | at an optimal tableau of phase 2 the basic point satisfies the constraints and none is cheaper, also when artificial variables of value zero are basic |
| FreeVariables.LoadedHolds | src/gencoef/simplexfr.c:325-347 | a loaded row with its relation holds exactly when the given row holds on the differences, after all sign changes |
| FreeVariables.SameFeasibility | src/gencoef/simplexfr.c:325-347 | the given constraints on variables of any sign can be satisfied if and only if the loaded ones can |
| FreeVariables.OptimumDrops | src/gencoef/simplexfr.c:366-383 | an optimum of the loaded problem, with or without constraints given up, gives an optimum of the given one |
| FreeVariables.NearOptimumDrops | src/gencoef/simplexfr.c:366-383 | nearly an optimum of the loaded problem is nearly an optimum of the given one |
| Relaxation.ImpliedIsExact | src/gencoef/simplexfr.c:270-274 | constraints may be left out for every cost vector if and only if the other constraints imply them; otherwise some cost vector has a point below all admissible ones |
| Relaxation.OptimumWithout | src/gencoef/simplexfr.c:270-274 | an optimum without the constraints given up has the cost of an optimum if and only if no such point lies below all admissible ones, and is an optimum if and only if it is admissible |
| Relaxation.UnboundedWithout | src/gencoef/simplexfr.c:270-274 | a cost without lower bound when constraints are left out has none with them if and only if no such point lies below all admissible ones |
| Relaxation.ImpliedOptimum | src/gencoef/simplexfr.c:270-274 | with implied constraints left out an optimum is an optimum; with a point below all admissible ones it is not |
| FreeVariables.NoBoundDrops | src/gencoef/simplexfr.c:366-383 | when the loaded cost has no lower bound neither has the given one |
| FreeVariables.LoadedIsUnique | src/gencoef/simplexfr.c:325-351 | rows and relations determine the problem that phase 1 works on |
| AddedColumns.BlocksArePrepared | src/gencoef/simplexfr.c:129-146 | surplus, slack and artificial columns belong to exactly the rows that need them and form the first basis |
| Pivoting.BestIsMinRatio | src/gencoef/simplexfr.c:235-243 | the row found has an entry above eps, and no row with one has a smaller ratio |
| Pivoting.StepAdvances | src/gencoef/simplexfr.c:220-249 | one turn of minimize keeps the invariant, and for eps = 0 feasibility and progress |
| Pivoting.NearOptimumIs | src/gencoef/simplexfr.c:292-300 | for every eps: without a reduced cost below -eps in phase 2 the basic solution meets the equations, and no point that satisfies the constraints is cheaper by more than eps for every unit of its components |
| Pivoting.ReadDrops | src/gencoef/simplexfr.c:366-383 | what is read from row are the components of the basic solution |
| Vertices.BasicIsVertex | src/gencoef/simplexfr.c:234-248 | the basic solution of every feasible state is a vertex of the extended constraints |
| PivotPath.RatioTestLeaves | src/gencoef/simplexfr.c:234-248 | the ratio test finds the row that leaves without any bound, unless its ratio is not below large |
| PivotPath.FollowsStep | src/gencoef/simplexfr.c:217-250 | one turn of minimize is the next pivot of the path, also with rows given up |
| PivotPath.VerticesMakeShort | src/gencoef/simplexfr.c:234-248 | when all vertices stay below large the bound never cuts the path short |
| PivotPath.PhaseOneVerdict | src/gencoef/simplexfr.c:252-268 | phase 1 accepts satisfiable constraints only, decides them when its path ends, and is cut short exactly when a ratio of the path is not below large; it then rejects the constraints |
| PivotPath.VerticesKeepPhaseOneShort | src/gencoef/simplexfr.c:252-268 | when all vertices stay below large phase 1 is not cut short |
| PivotPath.NoArtificialEnds | src/gencoef/simplexfr.c:351-352 | without artificial variables phase 1 has nothing to do |
| PivotPath.PhaseOneEnds | src/gencoef/simplexfr.c:252-268 | for every eps: where the loop of phase 1 ends its path ends, and the artificial components of the basic solution it ends in add up to more than eps if and only if tableau(0,0) is below -eps |
| PivotPath.ArtificialPartBound | src/gencoef/simplexfr.c:252-268 | for every eps: without a reduced cost below -eps the artificial components add up to at most eps times the components of any point that satisfies the constraints |
| PivotPath.RejectedIsFar | src/gencoef/simplexfr.c:252-268 | for every eps: when phase 1 rejects although no variable enters, every point that satisfies the constraints has components that add up to more than 1, or there is none where eps is 0 |
| PivotPath.PhaseTwoStartIsUnique | src/gencoef/simplexfr.c:270-300 | the constraints and the costs determine the state in which phase 2 starts |
| PivotPath.PhaseTwoEnds | src/gencoef/simplexfr.c:217-250 | where the loop of phase 2 ends its path ends: at an optimum, on a column no row stops, or cut short by large |
| PivotPath.PhaseTwoVerdict | src/gencoef/simplexfr.c:292-300 | phase 2 ends at an optimum, or with a cost that falls along a ray up to large; the optimum is reached on a path that is not cut short, a path that gets stuck without being cut short means a cost without lower bound, and no path is cut short when all vertices stay below large; all on the problem without the constraints given up |
| Leftovers.ShownMatches | src/gencoef/simplexfr.c:155 | the zeros shown for a row given up are the tableau of the problem without its constraint |
| Leftovers.StepMatches | src/gencoef/simplexfr.c:190-215 | a pivot of the program is a pivot of the problem without the constraints given up |
| Leftovers.GiveUpKeeps | src/gencoef/simplexfr.c:270-274 | giving up a row keeps the basis of the problem without its constraint |
| Leftovers.PricingStarts | src/gencoef/simplexfr.c:275-286 | the cleared objective row prices the artificial variables given up |
| Pitfalls.FarPointLooksInfeasible | src/gencoef/simplexfr.c:234-268 | x = b with b >= large is reported as infeasible |
| Pitfalls.FarVertexIsHarmless | src/gencoef/simplexfr.c:252-268 | the condition on the vertices is not necessary: x <= b with b >= large has a far vertex and is not cut short |
| Pitfalls.FarOptimumLooksUnbounded | src/gencoef/simplexfr.c:234-247 | for -x over x <= b with b >= large the answer is MAXIMIZABLE_TO_INFINITY although x = b is the optimum |
| Pitfalls.TouchingIsFree | src/gencoef/simplexfr.c:270-300 | for x over x <= 1 and x >= 1 the path of phase 2 ends on a column that no row stops, the second row being given up |
| Pitfalls.TouchingRowsLookUnbounded | src/gencoef/simplexfr.c:270-274 | for x over x <= 1 and x >= 1 the answer is MAXIMIZABLE_TO_INFINITY although the minimum is 1 |
| Pivoting.NoRowStops | src/gencoef/simplexfr.c:244-247 | when no row has a positive entry there is a point below every bound |
| Simplex.Solver.Prepare | src/gencoef/simplexfr.c:126-150 | counts and places the added columns, sets the first basis and the identity |
| Simplex.Solver.Entry | src/gencoef/simplexfr.c:152-188 | the tableau entry, zero for rows given up |
| Simplex.Solver.PivotOn | src/gencoef/simplexfr.c:190-215 | the new q, col and row |
| Simplex.Solver.FindEntering | src/gencoef/simplexfr.c:222-230 | the first variable with a reduced cost below -eps, or none up to jmax |
| Simplex.Solver.RatioTest | src/gencoef/simplexfr.c:234-243 | the pivot column and the row of the smallest ratio below large |
| Simplex.Solver.Minimize | src/gencoef/simplexfr.c:217-250 | follows the path of the problem without the constraints given up: keeps the invariant for every eps, for eps = 0 also feasibility and progress, and stops without negative reduced cost or with a column that no row stops below large |
| Simplex.Solver.DropLeftover | src/gencoef/simplexfr.c:270-274 | the rows given up are those of the artificial variables still basic; the state is one of the problem without their constraints |
| Simplex.Solver.Phase1 | src/gencoef/simplexfr.c:252-290 | for every eps: rejects if and only if the artificial components of the basic solution in which its path ends add up to more than eps, and where it ends because no variable enters only constraints far from every point; phase 2 starts in the basis it ends in. For eps = 0: accepts satisfiable constraints only; ends without a pivot row exactly when a ratio of its path is not below large, and then rejects; otherwise decides feasibility when it ends |
| Simplex.Solver.ReplaceObjective | src/gencoef/simplexfr.c:276-286 | row 0 of q is rebuilt so that all basic variables have zero cost again |
| Simplex.Solver.Phase2 | src/gencoef/simplexfr.c:292-300 | minimizes the given costs without the artificial variables |
| Simplex.Solver.Run | src/gencoef/simplexfr.c:349-359 | for every eps the outcome is the one the two pivot paths lead to, and OK means nearly an optimum. For eps = 0 the outcome of both phases is the one their pivot paths lead to: NOT_FEASIBLE, or on the problem without the constraints given up an optimum, or MAXIMIZABLE_TO_INFINITY, which is given if and only if the cost has no lower bound when no ratio of phase 2 reaches large, and always when one does |
| Simplex.Solver.LoadRow | src/gencoef/simplexfr.c:328-346 | one row, widened by the column of the free variables and turned to a nonnegative right-hand side |
| Simplex.Solver.ReadSolution | src/gencoef/simplexfr.c:366-383 | the differences of the basic values |
| Simplex.Solve | src/gencoef/simplexfr.c:302-393 | with exact arithmetic and for every eps the code is the one the two pivot paths lead to; NOT_FEASIBLE where no variable enters means that every admissible point has components that add up to more than 1; OK means a point that meets the equations not given up and costs at most eps more, for every unit of its components, than any point that satisfies the constraints not given up. For eps = 0: NOT_FEASIBLE if and only if no point of any sign satisfies the constraints or a ratio of phase 1 is not below large (never, when all vertices are below large). OK means the cheapest point of those that satisfy the constraints not given up. MAXIMIZABLE_TO_INFINITY if and only if their cost has no lower bound when no ratio of phase 2 reaches large, and always when one does. The answer is right when the constraints given up are implied by the others and no ratio reaches large, and wrong for costs for which leaving them out undershoots all admissible points |
| Sha256Constants.ConstantsAreRoots | src/common/psha2.hpp:63-80 | the 64 round constants are the first 32 bits of the fractional parts of the cube roots of the first 64 primes |
| Sha256Constants.InitialAreRoots | src/common/psha2.hpp:48-55 | the initial state holds the first 32 bits of the fractional parts of the square roots of the first eight primes |
| Sha256Constants.FirstPrimes | src/common/psha2.hpp:63-80 | entry t of the list is a prime that exactly t primes are smaller than |
| Sha256Example.DigestOfExample | src/common/psha2.hpp:61-180 | the digest of "abc", byte by byte |
| Sha256.RenamedRound | src/common/psha2.hpp:102-104 | what the source assigns to two variables is the whole new state of a round of the standard |
| Sha256.ScheduleStep | src/common/psha2.hpp:33-37 | the slots at j + 1, j + 9 and j + 14 of the rolling schedule hold the words t-15, t-7 and t-2 |
| Sha256.UpdateW | src/common/psha2.hpp:22-40 | the in-place update advances the 16-word schedule by 16 words of the standard |
| Sha256.Hasher.FourRounds | src/common/psha2.hpp:102-113 | four rounds with renamed variables are four rounds of the standard |
| Sha256.Hasher.Mix | src/common/psha2.hpp:90-115 | the loops perform the 64 rounds |
| Sha256.Hasher.Block | src/common/psha2.hpp:61-125 | the state becomes the compression of the state and the buffered block |
| Sha256.Hasher.AppendByte | src/common/psha2.hpp:127-135 | state, buffer and counters stand for the message with the byte appended |
| Sha256.Hasher.Append | src/common/psha2.hpp:137-141 | appends any piece |
| Sha256.BigEndianAt | src/common/psha2.hpp:164-167 | shifting and masking picks the bytes of the length, the most significant first |
| Sha256.Hasher.PadZeros | src/common/psha2.hpp:160-162 | the padding loop ends after exactly the number of zeros the standard demands |
| Sha256.Hasher.Finalize | src/common/psha2.hpp:155-168 | the message becomes the padded message, a whole number of blocks |
| Sha256.WordRoundTrip | src/common/psha2.hpp:174-178 | the four bytes of a word determine it |
| Sha256.Hasher.FinalizeBytes | src/common/psha2.hpp:170-180 | the 32 bytes are the digest of everything appended |
| Sha256.HashChunks | src/common/psha2.hpp:137-180 | however a message shorter than 2^64 bits is cut into pieces, the result is its SHA-256 digest |
| PlanText.Print | src/dft/dftcommon.cpp:67-75 | the printed form of a path |
| PlanText.ConfigNames | src/dft/dftcommon.cpp:28 | the name of a configuration starts with MT if and only if it is threaded, and ends in stream if and only if it is streaming |
| PlanText.TextExample | src/dft/dftcommon.cpp:28-75 | the printed form of a path of two butterflies, character by character |
| PlanText.ParsePathStr | src/dft/dftcommon.cpp:31-64 | the loop computes the parse function, errors included |
| PlanText.ConfigIsFound | src/dft/dftcommon.cpp:50-52 | the longer names are tried first, so that a name is found although another is a prefix of it |
| PlanText.ItemIsParsed | src/dft/dftcommon.cpp:36-60 | one printed action is read back and the rest is parsed as the rest |
| PlanText.RoundTrip | src/dft/dftcommon.cpp:31-75 | parsing a printed well-formed path gives it back |
| PlanText.ParsedIsWellFormed | src/dft/dftcommon.cpp:43-63 | every accepted text gives a well-formed path |
| PlanText.AcceptedPaths | src/dft/dftcommon.cpp:31-75 | the paths that some text denotes are exactly the well-formed ones |
| PlanText.WellFormedTelescopes | src/dft/dftcommon.cpp:58-63 | in a well-formed path the levels telescope and the widths sum to log2len |
| PlanText.PlanRoundTrip | src/dft/dftcommon.cpp:31-75 | the text of every plan of the planner leads back to it |
| PlanText.Plan1D.SetPath | src/dft/dftcommon.cpp:78-88 | a text that parses replaces the path, any other leaves it unchanged |
| PlanText.Text2DSplits | src/dft/dftcommon.cpp:91-123 | the two-dimensional text splits into its threading, horizontal and vertical parts |
| PlanText.Plan2D.SetPath | src/dft/dftcommon.cpp:91-109 | what a text changes, also when both directions share one object |
| PlanText.Plan2D.CopyPlan | src/dft/dftcommon.cpp:91-123 | setting what another transform of the same shape printed copies its plan |
| Serializer.SizeRoundTrip | src/dft/serializer.hpp:58-68 | a size is read back and what follows is left |
| Serializer.FileExample | src/dft/serializer.hpp:58-134 | the file of one plan with one entry, byte by byte |
| Serializer.StringRoundTrip | src/dft/serializer.hpp:88-100 | a string comes back up to its first NUL, so unchanged if and only if it has none |
| Serializer.ItemsRoundTrip | src/dft/serializer.hpp:102-120 | the entries of a map in any order, with any decodable values |
| Serializer.ListedIsBuilt | src/dft/serializer.hpp:109-120 | in whatever order the entries were written, reading them builds the map |
| Serializer.PlanRoundTrip | src/dft/serializer.hpp:102-147 | reading a written plan file gives plans and identification back and leaves the bytes behind |
| Serializer.PlanContinues | src/dft/serializer.hpp:64-147 | more bytes behind a readable file change nothing but the rest |
| Serializer.TruncatedIsRejected | src/dft/serializer.hpp:50-54 | a plan file cut off anywhere is not read |
| PlanFile.Output.WriteOuter | src/dft/serializer.hpp:102-107 | writes the entries in some order that lists the map |
| PlanFile.Output.WritePlan | src/dft/serializer.hpp:122-134 | writes the tuple |
| PlanFile.Input.ReadString | src/dft/serializer.hpp:95-100 | reads what the string decoder decodes |
| PlanFile.Input.ReadInner | src/dft/serializer.hpp:109-120 | reads what the map decoder decodes |
| PlanFile.Input.ReadPlan | src/dft/serializer.hpp:136-147 | reads what the tuple decoder decodes |
| PlanFile.StaleBytesAreHarmless | src/dft/dftcommon.cpp:375-410 | a file written over an old one is read as what was written, whatever the old one was |
| PlanFile.CutOffIsNotAccepted | src/dft/dftcommon.cpp:343-349 | a file cut off while it was written leaves the plans in use alone |
| PlanFile.PlanManager.Load | src/dft/dftcommon.cpp:332-351 | the plans of a readable identified file are taken, otherwise the old ones stay |
| PlanFile.PlanManager.Get | src/dft/dftcommon.cpp:419-423 | the value of a key or the empty string; the entry of the identification is created when missing |
| PlanFile.PlanManager.Save | src/dft/dftcommon.cpp:354-368 | the file lists the plans in use and, when these survive a file, is read back as them |
| PlanFile.PlanManager.LoadAndPut | src/dft/dftcommon.cpp:375-410 | the entry is added to the plans of the file, the new contents are written over the old ones and, when the plans survive a file, are read back as the plans in use |
| SavedPlans.TextIsNarrow | src/dft/dftcommon.cpp:67-75 | a printed path has characters of one byte and no NUL, so it survives the file |
| SavedPlans.SaveMeasurementResults | src/dft/dftcommon.cpp:432-444 | the printed path becomes the entry of the key, in the file in automatic mode and in the plans in use otherwise |
| SavedPlans.LoadMeasurementResults | src/dft/dftcommon.cpp:461-474 | the entry of the key, when there is one, becomes the path if it parses |
| SavedPlans.SaveAndLoad | src/dft/dftcommon.cpp:431-475 | a plan of the planner saved by one manager is found by any manager with the same identification and becomes the path of any transform of the same size |

## Left out
- Butterfly kernels, the values of sine and cosine, and that a transform is the discrete Fourier transform: they need trigonometry.
- Timing-based search (`QuickFinder`, whose successors are those of the estimator), random paths and plans loaded from a file as inputs to execute: nothing can be said about their cost, and the parser accepts paths that the planner would not produce.
- Overflow of doubles in the costs: estimates are natural numbers, `INFINITY_` is a separate value.
- Simplex.Solver.Minimize: no rule against cycling is present, so the loop runs on a fuel argument and may end `OutOfFuel`; what is proved holds after every turn, feasibility and progress for eps = 0 as in `StepAdvances`.
- Simplex.Solve: for eps > 0 OK does not promise that the inequalities hold exactly, and the codes are tied to the pivot paths and to the bounds in eps rather than to feasibility itself; the reals are exact, MPFR precision and allocation are not modelled.
- RealSub.RealSub0: the loop over whole vectors, which treats the same pairs as the loop modelled here; also for `RealSub.RealSub1`.
- Pivoting.StepAdvances: for eps > 0 feasibility and progress are not claimed, because the ratio test passes over positive entries up to eps.
- The non-FMA double product of dd.h: its split makes partial products of up to 54 bits; that it is exact is not claimed.
- Overflow and underflow in the error-free transformations, and infinities and NaN in the rounding tricks.
- The calls `uperm` with 0 or 32 bits, and decimal overflow of N in the parser: undefined in C; numbers in texts are unbounded here.
- Execute1D.Transform.Execute: one thread; `x0` and `x1` are the scratch buffers of that thread.
- Transpose.TransposeParallel: threads take whole blocks in any order; that the writes of two blocks interleave is not modelled, the blocks being disjoint. Which branch of the two-dimensional execute runs in debug mode is random in the source, a parameter here.
- Execute1D.Transform.Dispatch: which kernel runs (first, middle or last, shifted or not) and its assertion on the vector width; `Planner.PlanIsDispatchable` proves the assertion for every plan.
- Planner.Transform.Measure: the random path of debug mode and the measuring search.
- PlanFile.PlanManager.Load: as in `LoadAndPut` and `SavedPlans`, a file in which a string has no terminator makes the source build a string from an unterminated array; nothing is promised for it.
- SavedPlans.SaveAndLoad: automatic mode, as otherwise the entry is not in the file another transform reads; and plans without NUL characters, as the others do not survive the file.
- Construction.Construct: a saved plan is not looked up first (`SavedPlans` has that step alone), and planning is by estimation.
- Byte order: `size_t` has eight bytes, the lowest first.
- Sha256.Hasher.AppendByte: the bit counter wraps at 2^64 as in the source; digests are compared with the standard for messages shorter than 2^64 bits. `appendWord` on big-endian hosts is not modelled.
- File opening, locking, buffering, environment variables, verbose output and CPU detection: input and output around the modelled code.
- SIMD helpers, testers, benchmarks and text generators: calls into other code, or easy members.
