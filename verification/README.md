# FVE in Dafny

FVE turns a spreadsheet into an expression graph, bounds the graph over a box of inputs with
interval arithmetic, and answers SAFE, FAIL or ABSTAIN. This project models the parts of FVE on
which that answer rests and proves what they promise, or exactly when they keep the promise.

- **Integer linear algebra** (`Matrices`, `Division`, `Smith`, `Dimensions`): the in-place Smith
  normal form with both transform matrices, and the solver of dimension equations over it.
- **The soundness chain** (`ExtReal`, `Interval`, `Enclosure`, `Traces`, `Isotonicity`, `Verifier`,
  `Workbook`, `Oracle`, `Answers`, `Lower`, `Support`, `Preservation`, `Gaps`): doubles as extended
  reals with NaN, interval operations under abstract outward rounding, evaluation of the graph, the
  two readings of a workbook (interpreter and lowering), and the verdict. `Answers` says in plain
  arithmetic what the interpreter returns, `Support` which expressions have a graph. `Preservation`
  joins the two: whatever the interpreter computes from numbers is a value of the lowered graph unless
  that has a hole, so a verdict on the graph is one on the interpreter. `Gaps` shows where the two
  readings part: by names, ranges, aggregates, depth and cycles.
- **Exactness** (`Ranges`, `PowerRanges`, `Exactness`): without rounding, what an operation, a graph
  that names each variable once, and its verdict hold is no more than they must.
- **Other bounds** (`Affine`, `AffineLoops`, `Lipschitz`, `MonotoneWrap`, `Sivia`): affine forms
  with shared noise symbols, the two wrappers for hidden functions, and the paving of a box.
- **DEFLATE** (`Huffman`, `Inflate`, `Deflate`): canonical Huffman decoding and LZ77 with the circular
  window, against sections 3.2.2 to 3.2.7 of RFC 1951, and a writer made after the text of that RFC
  whose streams are read back.
- **Gluing and graphs** (`Cohomology`, `Glue`, `ArtifactGraph`): the weighted union-find, the meet
  of sections, dependency collection, ordering and reverse reachability.
- **Parsers and streams** (`Formula`, `FormulaParser`, `Precedence`, `Rpn`, `Records`): the lexer and the
  precedence-climbing parser, a printer that writes no parentheses but those needed, the postfix
  decoder, and the two record readers with a writer.
- **Authenticated structures and caches** (`Merkle`, `Linearize`, `EvalCache`).

Code that changes objects or arrays in place is modelled by classes and methods with loops, and
each is proved equal to a specification function or relation; the laws are lemmas about those.
The arithmetic unit is a parameter (`Interval.Fpu`): `Sound` says that rounding is outward, that
square root, exponential and logarithm are monotone, and that the trigonometric enclosures hold;
`Exact` says that there is no rounding, and `Ranges.Genuine` that roots, exponentials and logarithms
are the real ones. Hash functions are parameters too, injective where a lemma
says so.

## Findings

Properties that the code does not have on all inputs, each with an input and the condition under
which it does.

- A product of intervals can lose values: zero times infinity is NaN, which the selectors let
  pass, so [0, inf] times [0, 1] is [0, 0]. `Interval.MulExactlyWhen`: without rounding every
  product is enclosed if and only if `MulLossy` is false, a guard on the four endpoints.
- A quotient can lose values when an unbounded numerator meets a negative denominator unbounded
  below. `Interval.DivExactlyWhen`: if and only if `DivLossy`.
- A power can lose values: [0, inf] squared is [0, 0] and [-inf, 0] squared is [inf, inf].
  `Interval.IPowExactlyWhen`: every defined power is enclosed if and only if the interval is not
  [0, inf] with an exponent of 2 or more, nor [-inf, 0] with one of 2 or more or -2 or less.
- An odd power of an interval on both sides of zero can be too wide: [-1, 2] cubed is [-4, 8]
  (`PowerRanges.CubeLoose`). `PowerRanges.IPowRangeExactly`: where a power loses nothing it holds just
  the powers of the interval's points if and only if the exponent is even or one, or the interval is on
  one side of zero or reaches equally far to both; for negative exponents, if and only if the interval
  holds no zero, or is the whole line and the exponent odd. All other operations hold just their points'
  results, except that a quotient by an unbounded interval and an exponential of one unbounded below
  hold a zero that is only approached (`Ranges.DivRange`, `Ranges.ExpRange`).
- A variable that occurs twice is bounded as if it were two: x - x over [0, 1] is [-1, 1]
  (`Exactness.TwiceLoose`). `Exactness.EnclosureExactly`: when each occurs once and every operation is
  tight, the enclosure is just the set of the graph's values; then the verdict misses nothing
  (`Exactness.VerdictExactly`).
- A hull keeps nothing when its first non-empty member has a NaN endpoint, and keeps everything
  otherwise. `Holes.BundleExactly`.
- SAFE can be wrong without any hole, which the documentation rules out (README.md of FVE, lines
  7-10): min(5, x * (1 / y)) over x in [0, 1], y in [-1, 1] is called safe and takes the value -100. `Verifier.FalseSafe` gives the
  program. `Verifier.VerdictSound` proves SAFE and FAIL right whenever no operation on the way is
  lossy (`Enclosure.Faithful`), which finite enclosures and whole constant exponents guarantee in
  exact arithmetic (`Enclosure.FiniteIsFaithful`).
- An exponent is taken for the lower end of its interval: 5 - x ^ y over x = 2 and y in [2, 3] is
  called safe and takes the value -3 (`Verifier.ExponentFalseSafe`). `Enclosure.ExponentExactly`:
  when that lower end is whole, all powers by whole exponents are enclosed if and only if the
  interval holds no second whole number.
- A name without a sheet is read on the first sheet by the interpreter and on the current one by
  the lowering. `Gaps.NameFalseSafe` is a workbook whose target is -5 and whose graph is SAFE.
  `Gaps.NamesExactly`: where both readings are inputs, the two sides agree at every assignment if
  and only if the name gives its sheet or the formula stands on the first one.
- A range as the condition of an IF shifts the branches that the interpreter indexes, and the graph
  drops the condition. `Gaps.RangeFalseSafe`: IF(A1:A2, 10, 20) with A1 = 1 and A2 = -5 is -5 and
  its graph SAFE. `Gaps.IfRangeExactly`: with a range of inputs for its condition, IF gives one of
  its branches at every assignment if and only if the range is a single cell. In any other place
  where a single value is due, a range becomes a hole, which forces ABSTAIN.
- Aggregates pass over what is no number, begin at 1e300, -1e300 and 1 for MIN, MAX and PRODUCT,
  and the graph does neither. `Gaps.FoldExactly`: the interpreter's aggregate is the graph's fold if
  and only if all arguments are numbers, and there is one at or below 1e300 for MIN, one at or above
  -1e300 for MAX, and any for PRODUCT. `Gaps.EmptyFolds` is each of the three of nothing,
  `Gaps.BeyondStart` an argument beyond the start, and `Gaps.SkipFalseSafe` the workbook
  SUM(-1, 2 + SQRT(A1)): -1 at A1 = -1, and SAFE over [-1, 1].
- A chain of references past the depth limit is NaN, which aggregates pass over.
  `Gaps.DepthFalseSafe`: behind 258 references or more, MAX(-5, chain) with 100 at the end is -5 and
  its graph SAFE. `Gaps.ChainExactly`: the value is the meaning, whatever the input, if and only if
  there are at most 257. `Preservation.VerdictOnInterpreter` is the verdict's promise with this
  limit; `Preservation.VerdictOnWorkbook` is that for the cell's meaning, without one.
- A cycle that only the condition of an IF reaches is not seen by lowering, and on its way around it
  the interpreter keeps values cut off by the depth limit. `Gaps.CycleFalseSafe`:
  IF(C1, 20, MAX(-5, A3)), with A3 = A2 = A1 = 100 and SUM(C1, A3) in C1, is -5, while the disjunction
  of its branches' graphs is SAFE. `Preservation.VerdictOnInterpreter` asks that what the target leads
  to is ranked, so that it leads to no cycle; a cycle that lowering meets is a hole.
- A wider box can have an enclosure that is not wider, when a maximum, a minimum or an absolute
  value meets an empty argument. `Isotonicity.EmptyBreaksGrowth` gives the graph and the boxes;
  `Isotonicity.EnclosureGrows` proves growth without such an argument.
- Paving loses every point of a box when it splits a side that is the whole line, since that side
  has no midpoint. `Sivia.HalvedCoversExactly` for one split, `Sivia.CoversExactly` for a run: if
  and only if the run begins by splitting a whole line.
- Paving splits a box into itself, twice, when its widest variable has the empty name or no width.
  `Sivia.VolumeSharedExactly` for one split, `Sivia.VolumeExactly` for a run: volumes add up if and
  only if no box was split into itself, which never happens when what has no name is narrower than
  epsilon (`Sivia.NoRepeats`). `Sivia.NamelessTwice` is a box that comes back twice. The safe
  fraction stays within [0, 1] all the same (`Sivia.SafeVolumeBound`).
- A depth limit can hide nodes that are within it, because collection goes depth first.
  `ArtifactGraph.DetourMisses` hides a node three edges away under a limit of three.
  `ArtifactGraph.LimitExactly`: nothing is hidden in any graph of n artifacts if and only if the
  limit is at least n; otherwise the ring of n artifacts loses an edge.
- The whole-buffer record reader returns one record too many where, after the last complete record,
  a record type stands with a size that has not ended and asks for no more bytes than there are.
  `Records.ReadersAgreeExactly`: it agrees with the streaming reader if and only if there is no
  such loose end; `Records.LoneType` is a one-byte input.
- Decoding a compressed block need not end where the input does, because bits past the end are
  zero and the loop does not look. `Inflate.EndlessExactly`: the blocks that the model calls endless
  are those on which the loop goes on for ever. Blocks in the fixed code never are
  (`Inflate.FixedEnds`); one in a code of a single literal is when its end is missing
  (`Inflate.LoneLiteral`). On all other inputs `Inflate.InflateTo` gives what the stream stands for.
- Cycles are reported only beyond a tolerance. `Cohomology.SlipUnreported`: an overlap of a region
  with itself by no more than the tolerance has no potentials and is not reported.
  `Cohomology.GrainExactly`: over all offsets that are multiples of a grain, silence means that the
  offsets glue if and only if the grain exceeds the tolerance. `Cohomology.CohomologyVerdict`: with
  any offsets silence means potentials within the tolerance.
- A range that is not empty and yet holds no number, because an end is NaN or both are one infinity,
  is glued to the whole line without a conflict (`Glue.OddRangeGlues`). `Glue.RangesExactly`: beside
  empty and proper ranges, ranges of a further kind leave conflicts and disagreements equivalent if
  and only if that kind is itself empty or proper.
- An affine form minus itself is exactly zero if and only if it carries no error of its own.
  `Affine.SelfDifference`.
- Two probes at one place with different values are not refuted, although no function has both
  (`Lipschitz.ClashUnrefuted`). `Lipschitz.RefutedExactly`: a function with the claimed slope goes
  through all probes if and only if they are not refuted and agree wherever they are at one place.
- The sign given to a monotone wrapper does not matter, since the two corner values are put in
  order. `MonotoneWrap.WrapSound`.
- Merkle roots bind leaves only at a known number of leaves. `Merkle.RootBindsExactly`: with an
  injective hash, equal roots over n and over m leaves mean equal leaves if and only if n = m;
  `Merkle.OddTwin` is an odd list and the one that repeats its last leaf. The audit chain's check
  does not compare sequence numbers with positions; `Merkle.AuditChain.Verify` says exactly what
  passes. The head of a log that appends have grown does fix its length (`Merkle.GrownHeadBinds`).

## Model

| member | source | states |
|---|---|---|
| SmithForm.IMat.RowAddMul | model/dim/dim.cpp:20-23 | the matrix afterwards is the elementary row operation applied to the old one |
| SmithForm.IMat.ColumnAddMul | model/dim/dim.cpp:25-28 | the same for columns |
| SmithForm.Pivot | model/dim/dim.cpp:49-57 | a nonzero entry of least magnitude in the block, or none when the block is zero |
| SmithForm.ClearCross | model/dim/dim.cpp:60-77 | row and column of the pivot are cleared, the transforms keep U*A*V, and every swap leaves a smaller pivot, so it ends |
| SmithForm.SmithNormalForm | model/dim/dim.cpp:42-102 | for every matrix U*A*V = D with U and V invertible over the integers, D diagonal and non-negative, each entry dividing the next, rank nonzero entries first |
| Division.RemainderMeaning | model/dim/dim.cpp:63-85 | the truncated remainder is smaller than the divisor and zero exactly on multiples |
| Dimensions.DimGraph.AddEq | model/dim/dim.cpp:113-113 | adds a constraint that holds of an assignment exactly when both symbols have one dimension |
| Dimensions.DimGraph.AddCombo | model/dim/dim.cpp:115-120 | adds a constraint that holds exactly when out's dimension is the weighted sum |
| Dimensions.MatMul | model/dim/dim.cpp:30-38 | the matrix product, zero factors skipped |
| Dimensions.BuildSystem | model/dim/dim.cpp:136-148 | the rows of coefficients and right-hand sides of the constraints |
| Dimensions.SystemMeaning | model/dim/dim.cpp:136-148 | an assignment solves the constraints exactly when its unknowns solve the matrix system |
| Dimensions.SolveSystem | model/dim/dim.cpp:150-177 | consistent exactly when an integer solution exists; determined unknowns have the reported value in every solution, the others two values in some two |
| Dimensions.InferDims | model/dim/dim.cpp:124-196 | complete decision over the integers on all seven axes: consistent if and only if solvable, reported symbols forced, unreported ones really free, clashes only when inconsistent |
| Interval.AddSound | core/interval/ival.cpp:72-79 | sums of points lie in the sum under outward rounding |
| Interval.MulSound | core/interval/ival.cpp:90-102 | products of points lie in the product of a pair that is not lossy |
| Interval.MulExactlyWhen | core/interval/ival.cpp:90-102 | without rounding, for all proper intervals, exactly when the guard is false |
| Interval.DiviSound | core/interval/ival.cpp:104-117 | quotients by nonzero points lie in the quotient of a pair that is not lossy |
| Interval.DivExactlyWhen | core/interval/ival.cpp:104-117 | without rounding, exactly when the guard is false |
| Interval.SqrSound | core/interval/ival.cpp:119-129 | squares of points lie in the square, for every interval |
| Interval.ComputeIPow | core/interval/ival.cpp:131-145 | the square-and-multiply loop computes the interval power that the lemmas speak of |
| Interval.PowLoopSound | core/interval/ival.cpp:138-142 | the loop keeps p * q^e inside while its two intervals hold p and q |
| Interval.IPowSound | core/interval/ival.cpp:131-145 | with rounding, defined powers lie in the interval power when no product on the way is lossy |
| Interval.IPowExactlyWhen | core/interval/ival.cpp:131-145 | without rounding, for all proper intervals and exponents: every defined power is enclosed if and only if the interval is not a half-line ending in zero raised past the first power (with the reciprocal of [0, inf] spared) |
| Interval.ISqrtSound | core/interval/ival.cpp:159-173 | roots of the non-negative points lie in the root |
| Interval.ILogSound | core/interval/ival.cpp:175-181 | logarithms of the positive points lie in the logarithm |
| Interval.IExpSound | core/interval/ival.cpp:183-186 | exponentials lie in the exponential, infinite ends included |
| Interval.MeetSound | core/interval/ival.cpp:221-225 | the meet holds exactly the common points of two proper intervals |
| Interval.IMaxSound | core/enclosure/enclosure.cpp:27-29 | maxima and minima of points lie in the enclosures of the two calls |
| Interval.IAbsSound | core/enclosure/enclosure.cpp:30-34 | absolute values of points lie in the enclosure of the call |
| Ranges.AddRange | core/interval/ival.cpp:72-79 | without rounding, for all proper intervals, the sum holds exactly the sums of points |
| Ranges.SubRange | core/interval/ival.cpp:81-88 | the difference holds exactly the differences of points |
| Ranges.MulRange | core/interval/ival.cpp:90-102 | the product of a pair that is not lossy holds exactly the products of points, infinite ends included |
| Ranges.DivRange | core/interval/ival.cpp:104-117 | the quotient by an interval without zero, not lossy, holds exactly the quotients of points and perhaps a zero that is only approached |
| Ranges.BoundedDivisor | core/interval/ival.cpp:104-117 | with a bounded divisor no zero is only approached |
| Ranges.SqrRange | core/interval/ival.cpp:119-129 | the square holds exactly the squares of points |
| Ranges.SqrtRange | core/interval/ival.cpp:159-173 | the root holds exactly the roots of the points that are not negative |
| Ranges.LogRange | core/interval/ival.cpp:175-181 | the logarithm holds exactly the logarithms of the positive points |
| Ranges.ExpRange | core/interval/ival.cpp:183-186 | the exponential holds exactly the exponentials of points and perhaps a zero that is only approached |
| Ranges.HullLeast | core/interval/ival.cpp:215-219 | no proper interval that holds both is smaller than the hull |
| Ranges.MaxRange | core/enclosure/enclosure.cpp:27-29 | the enclosure of a maximum holds exactly the maxima of points |
| Ranges.MinRange | core/enclosure/enclosure.cpp:27-29 | the same for minima |
| Ranges.AbsRange | core/enclosure/enclosure.cpp:30-34 | the enclosure of an absolute value holds exactly the absolute values of points |
| Ranges.RealExponent | core/interval/ival.cpp:147-157 | other exponents, where the library's power rises or falls: the powers of points that are not negative are enclosed, and without rounding the ends are those of the interval's ends |
| PowerRanges.IPowRangeExactly | core/interval/ival.cpp:131-145 | without rounding, for every interval and exponent that lose nothing: the power holds only the powers of points, an approached zero aside, if and only if the condition of the finding holds |
| PowerRanges.SpanOddPower | core/interval/ival.cpp:131-145 | the odd powers from the third on of [-p, q] are [-p * m, q * m] with m the matching even power of the farther end |
| PowerRanges.CubeLoose | core/interval/ival.cpp:131-145 | [-1, 2] cubed is [-4, 8], although no cube of its points is below -1 |
| Holes.HoleEvalSound | core/holes/holes.cpp:73-83 | through its fallbacks the table encloses every value in the physical range that sound wrappers enclose |
| Holes.BundleExactly | core/holes/holes.cpp:85-89 | the hull keeps every member's points if and only if its first non-empty member has no NaN endpoint, or there are no points |
| Enclosure.Evaluation.Rec | core/enclosure/enclosure.cpp:40-94 | the recursion returns the graph's enclosure, adds the residuals of its holes in order and appends one trace row per node, operands first |
| Enclosure.Eval | core/enclosure/enclosure.cpp:103-109 | enclosure, residual plus slack, and trace of a program |
| Enclosure.ExponentExactly | core/enclosure/enclosure.cpp:16-16 | without rounding and with a whole lower end for the exponent, all powers by whole exponents are enclosed if and only if the exponent's interval holds no second whole number |
| Enclosure.OpSound | core/enclosure/enclosure.cpp:9-25 | every operator's defined value on points lies in its enclosure unless the operation is lossy |
| Enclosure.Fundamental | core/enclosure/enclosure.cpp:40-94 | every value that the graph can take at a point of the box, holes and disjunctions included, lies in the enclosure while evaluation is faithful |
| Enclosure.FiniteIsFaithful | core/enclosure/enclosure.cpp:40-94 | without rounding, finite enclosures and whole constant exponents make evaluation faithful |
| Traces.TraceMeaning | core/enclosure/enclosure.cpp:40-94 | one trace row for each node, the root's last, each with its node's enclosure, that one's width, and whether it is a hole |
| Traces.ResidualMeaning | core/enclosure/enclosure.cpp:40-94 | the residual is what the trace's holes add up to in the order of the rows |
| Traces.HoleAnswers | core/holes/holes.cpp:73-83 | a wrapper that answers is believed, enclosure and residual; otherwise the table's range before the node's, with half its width as residual, unbounded for the whole line |
| Traces.WidthMeaning | core/interval/ival.cpp:62-63 | width and middle of a bounded interval: no two numbers further apart than the width, the ends equally far from the middle |
| Exactness.EnclosureExactly | core/enclosure/enclosure.cpp:40-94 | without rounding, the enclosure of a graph that names each variable once and whose operations are tight is exactly the set of the values that it takes in the box |
| Exactness.TwiceLoose | core/enclosure/enclosure.cpp:40-94 | x - x over [0, 1] has the enclosure [-1, 1] and the one value zero |
| Isotonicity.MulGrows | core/interval/ival.cpp:90-102 | wider factors give a wider product, infinite ends included, when neither pair is lossy |
| Isotonicity.DiviGrows | core/interval/ival.cpp:104-117 | the same for quotients, through the whole line |
| Isotonicity.IPowGrows | core/interval/ival.cpp:131-145 | the same for integer powers, through square-and-multiply and the even-power correction |
| Isotonicity.EnclosureGrows | core/enclosure/enclosure.cpp:40-94 | without wrappers a wider box has a wider enclosure, while nothing is lossy and no maximum, minimum or absolute value has an empty argument; other empty enclosures are allowed |
| Isotonicity.EmptyBreaksGrowth | core/enclosure/enclosure.cpp:27-34 | a graph and two boxes, all other conditions met, where an empty argument makes the wider box's enclosure not wider |
| Verifier.VerdictSound | core/verifier/verifier.cpp:14-28 | SAFE means positive and FAIL negative for every value of a faithful evaluation over the box |
| Verifier.DecideExactly | core/verifier/verifier.cpp:14-23 | for all doubles: SAFE if and only if the ends are finite, the residual is a number that is not negative, and the lower end exceeds it; FAIL if and only if not so and the upper end lies below its negative |
| Exactness.VerdictExactly | core/verifier/verifier.cpp:25-28 | on such a graph with a finite enclosure, SAFE if and only if every value in the box exceeds the slack, FAIL if and only if every value lies below its negative |
| Verifier.OpenHoleAbstains | core/verifier/verifier.cpp:14-28 | one hole anywhere without wrapper and range forces ABSTAIN, whatever the slack |
| Verifier.FalseSafe | core/verifier/verifier.cpp:14-28 | a hole-free program that is SAFE and takes the value -100 in its box |
| Verifier.ExponentFalseSafe | core/enclosure/enclosure.cpp:16-16 | 5 - x ^ y over x = 2 and y in [2, 3] is SAFE and takes the value -3 |
| Addresses.ColName | model/workbook/workbook.cpp:15-24 | the letters of a column, in bijective base 26 |
| Addresses.ColIndex | model/workbook/workbook.cpp:26-34 | the column that the leading letters name, -1 without any |
| Addresses.ParseA1 | model/workbook/workbook.cpp:38-55 | the address that a text stands for, dollar signs included, or none |
| Addresses.AddressRoundTrip | model/workbook/workbook.cpp:15-55 | reading an address's text gives it back, for all rows, columns and markers |
| Addresses.A1RoundTrip | model/workbook/workbook.cpp:36-55 | reading a1(row, col) gives row and col |
| Addresses.AddressExactly | model/workbook/workbook.cpp:38-55 | a text is an address if and only if letters and then digits spell it, each with a dollar sign in front or none, and nothing else; which column and row they name |
| Addresses.ColumnOrder | model/workbook/workbook.cpp:15-34 | columns A to Z are the single letters in their order, AA comes next, and either case reads the same |
| Workbooks.SheetIndex | model/workbook/workbook.cpp:69-73 | the first sheet of that name, -1 without one |
| Workbooks.SheetMeaning | model/lower/lower.cpp:91-95 | a written sheet name stands for the sheet of that name, an unknown or missing one for the formula's own |
| Workbooks.RangeAt | oracle/oracle.cpp:84-97 | where a range's cells stand in the list, row by row from the smaller corner on, whichever corner is written first |
| Workbooks.KeyInjective | model/workbook/workbook.cpp:84-99 | two cells on sheets never share a key, although sheet names may hold any character |
| Oracle.Interpreter.Build | oracle/oracle.cpp:14-38 | formulas that parse and plain numbers, and nothing else, are taken over |
| Oracle.Interpreter.Value | oracle/oracle.cpp:55-66 | the target's value and the memo afterwards are those of the recursive definition, from any memo and for cyclic workbooks too |
| Oracle.Interpreter.CellVal | oracle/oracle.cpp:68-82 | the same below a reference: what is held, else the formula's value unless it lies too deep, else zero |
| Oracle.Interpreter.RangeVals | oracle/oracle.cpp:84-97 | the values of the range's cells, row by row, each seeing the memo that the one before left |
| Oracle.Interpreter.Eval | oracle/oracle.cpp:99-210 | the value of an expression at any depth, every operator and modelled function, NaN included, is that of the recursive definition that the rows from Answers characterise |
| Answers.ComparisonDecides | oracle/oracle.cpp:135-140 | IF(A op B, p, q) over held values is p if and only if the values stand so to each other, for each of =, <>, <, >, <=, >=; with NaN only <> holds |
| Answers.ChoiceRun | oracle/oracle.cpp:200-200 | an IF of three arguments gives the third exactly when the first is zero, NaN being none |
| Answers.RescueRun | oracle/oracle.cpp:201-201 | IFERROR gives the second argument exactly when the first is NaN |
| Answers.ArithmeticRun | oracle/oracle.cpp:130-141 | the arithmetic of two numbers; a quotient by zero and a joining are NaN |
| Answers.SingleRun | oracle/oracle.cpp:172-189 | the functions of one number, with the domains of root and logarithm |
| Answers.AggregateAnswer | oracle/oracle.cpp:154-160 | over values without infinities: sum, product, sum of squares, mean, least and greatest of those that are numbers, with their starting values |
| Answers.StartingValue | oracle/oracle.cpp:156-157 | the starting value is ten to the power of 300 |
| Oracle.AssignmentTracks | oracle/oracle.cpp:48-53 | a table that holds just the inputs of an assignment tracks it |
| Oracle.ValueTracks | oracle/oracle.cpp:55-82 | from a table that tracks an assignment, a target whose references lead to no cycle and pass at most 258 formulas gets its meaning, and the table still tracks it |
| Lower.Lifter.LowerCell | model/lower/lower.cpp:26-49 | memo, cycle guard and holes: the returned graph is well formed, new holes show in it, and for a cell whose references lead to no cycle it is the cell's graph |
| Lower.Lifter.LowerX | model/lower/lower.cpp:84-176 | the same for an expression, branch by branch |
| Lower.Lifter.LowerFold | model/lower/lower.cpp:117-144 | aggregates become folds over the expanded arguments |
| Lower.StoredMeaning | model/lower/lower.cpp:40-41 | what is stored under an input's key is that input's number |
| Lower.LowerTarget | model/lower/lower.cpp:181-188 | targets that lead to no cycle get the graph of their cell, with holes if and only if it contains something unsupported; every variable of the graph has its number stored, under the key of an input, and nothing else is stored |
| Support.HolesExactly | model/lower/lower.cpp:84-176 | for every expression whose references lead to no cycle, its graph has a hole if and only if what reaches the graph contains a text, a comparison, a joining, an unknown name or function, an unreadable formula, or a range where one value is due |
| Support.CellHolesExactly | model/lower/lower.cpp:26-49 | the same for a cell |
| Support.RangeCells | model/lower/lower.cpp:57-68 | a range's cells are those between its corners, whichever is written first |
| Preservation.HoldsX | model/lower/lower.cpp:84-176 | wherever the interpreter computes an expression from numbers, its value is a value of the lowered graph, unless that has a hole |
| Preservation.HoldsCell | oracle/oracle.cpp:68-82 | the same for a cell |
| Preservation.FoldMeaning | oracle/oracle.cpp:154-160 | an aggregate's value is a value of the fold of its arguments' graphs |
| Preservation.LoweringHoleAbstains | model/lower/lower.cpp:21-24 | any hole made by lowering forces ABSTAIN, whatever box and slack |
| Preservation.VerdictOnWorkbook | core/verifier/verifier.cpp:14-28 | for a target whose references lead to no cycle, SAFE on its graph means that the target's meaning is positive at every assignment in the box where it is computed from numbers; FAIL that it is negative |
| Preservation.VerdictOnInterpreter | oracle/oracle.cpp:48-82 | the same of the value that the interpreter returns once the inputs are set, for targets within its depth limit |
| Preservation.AnyAssignment | model/workbook/workbook.cpp:84-99 | every assignment of numbers to input cells is an assignment to their keys |
| Gaps.NamesExactly | oracle/oracle.cpp:40-46 | a name whose two readings are inputs is the same to both sides at every assignment if and only if it gives its sheet or stands on the first one |
| Gaps.NameFalseSafe | oracle/oracle.cpp:40-46 | a workbook with a name without a sheet whose target is -5 and whose graph is SAFE |
| Gaps.IfRangeExactly | model/lower/lower.cpp:162-166 | with a range of inputs for its condition, IF gives one of its branches at every assignment if and only if the range is one cell |
| Gaps.RangeFalseSafe | oracle/oracle.cpp:145-200 | IF(A1:A2, 10, 20) is -5 for the interpreter and its graph SAFE |
| Gaps.FoldExactly | oracle/oracle.cpp:154-160 | over numbers and what is none, the interpreter's aggregate is the fold of the graph if and only if all are numbers and no starting value shows through |
| Gaps.EmptyFolds | oracle/oracle.cpp:156-159 | MIN, MAX and PRODUCT of nothing are their starting values for the interpreter and zero in the graph |
| Gaps.SkipFalseSafe | oracle/oracle.cpp:154-154 | SUM(-1, 2 + SQRT(A1)) is -1 at A1 = -1 and its graph SAFE over [-1, 1] |
| Gaps.ChainExactly | oracle/oracle.cpp:68-82 | behind a chain of references the interpreter's value is the meaning, whatever the input, if and only if the chain has at most 257 |
| Gaps.DepthFalseSafe | oracle/oracle.cpp:68-82 | behind a longer chain MAX(-5, chain) is -5 for the interpreter and its graph SAFE |
| Gaps.CycleFalseSafe | oracle/oracle.cpp:68-82 | an IF whose condition leads around a cycle is -5 for the interpreter, while the disjunction of its branches' graphs is SAFE |
| BitReader.Bits.ReadBit | extractor/zip/zip.cpp:18-28 | the next bit of the bytes, low bits first; past the end a zero and the bad mark |
| BitReader.Bits.Read | extractor/zip/zip.cpp:29-33 | the number that the next bits stand for, those past the end being zero; the bad mark exactly when there were such |
| Huffman.MatchUnique | extractor/zip/zip.cpp:53-65 | no codeword of section 3.2.2 of RFC 1951 is a prefix of another |
| Huffman.KraftExactly | extractor/zip/zip.cpp:40-52 | all codewords fit in their lengths if and only if the Kraft sum is at most one |
| Huffman.CodewordIsRead | extractor/zip/zip.cpp:53-65 | with a Kraft sum of at most one, a symbol's codeword followed by any bits names that symbol |
| Huffman.Huff.Build | extractor/zip/zip.cpp:40-52 | the two tables hold counts by length and symbols by length and number, each coded symbol once |
| Huffman.Huff.Decode | extractor/zip/zip.cpp:53-65 | on any input the symbol whose codeword comes next, with exactly its bits consumed; -1 when no codeword comes |
| Inflate.LengthTable | extractor/zip/zip.cpp:69-72 | the length codes cover 3 to 258 without gap or overlap |
| Inflate.DistanceTable | extractor/zip/zip.cpp:73-76 | the distance codes cover 1 to 32768 without gap or overlap |
| Inflate.Output.Emit | extractor/zip/zip.cpp:138-144 | one byte more of output, in window and chunk, flushed when full |
| Inflate.Output.Back | extractor/zip/zip.cpp:172-172 | the circular window gives the byte d back, for every d within the output and the window |
| Inflate.Output.Copy | extractor/zip/zip.cpp:172-172 | a back-reference appends the bytes of LZ77, overlapping copies included |
| Inflate.ReadStored | extractor/zip/zip.cpp:148-153 | a stored block's bytes, or those there are |
| Inflate.ReadCoded | extractor/zip/zip.cpp:158-174 | literals and back-references up to the end-of-block code; a bad symbol or distance ends the stream; so does the end of the input unless the block is endless |
| Inflate.EndlessExactly | extractor/zip/zip.cpp:158-174 | a block is endless if and only if the loop takes one item after the other for ever |
| Inflate.FixedEnds | extractor/zip/zip.cpp:78-88 | blocks in the fixed code end, even where the input does not reach |
| Inflate.LoneLiteral | extractor/zip/zip.cpp:158-174 | with a code of one literal a block that the input does not close is endless |
| Inflate.DynamicHuff | extractor/zip/zip.cpp:90-122 | on any input the two code tables of section 3.2.7 of RFC 1951, or failure; Deflate.HeaderRead says which header stands for which tables |
| Inflate.InflateTo | extractor/zip/zip.cpp:129-181 | the chunks given to the sink are, end to end, the LZ77 expansion of the stream up to where it is corrupt or cut short, each at most 65536 bytes, unless a block is endless |
| Inflate.InflateAll | extractor/zip/zip.cpp:183-188 | the whole expansion |
| Deflate.DeflateRoundTrip | extractor/zip/zip.cpp:129-181 | whatever blocks a stream is written in, stored, in the fixed code or with codes of their own, and whatever runs its headers use, reading its bytes gives their output |
| Deflate.HeaderRead | extractor/zip/zip.cpp:90-122 | section 3.2.7 of RFC 1951: a header written from the RFC's text, its fields in the order 16, 17, 18, 0, 8, 7, 9, ... and its lengths in any mix of single lengths and runs, is read as all literal and distance lengths |
| Deflate.EveryHeader | extractor/zip/zip.cpp:90-122 | all literal and distance lengths up to 15 have such a header |
| Deflate.FixedLiteralCodes | extractor/zip/zip.cpp:78-85 | the fixed lengths give the codewords that section 3.2.6 of RFC 1951 lists |
| Deflate.LengthCodes | extractor/zip/zip.cpp:69-72 | the code and extra bits computed from the binary digits of a length stand for that length |
| Deflate.DistanceCodes | extractor/zip/zip.cpp:73-76 | the same for distances |
| Deflate.CanonicalExample | extractor/zip/zip.cpp:40-65 | the codewords of the example in section 3.2.2 of RFC 1951 |
| Deflate.Refused | extractor/zip/zip.cpp:154-176 | a reference to before the start, a length code above 285 and a third kind of code end the output where it stands |
| UnionFind.DSU.Find | semantic/glue.cpp:64-71 | path compression returns the root with the right potential and changes no component or potential |
| UnionFind.DSU.Link | semantic/glue.cpp:98-102 | hanging one root below another moves its component by the offset |
| Cohomology.GluingTest | semantic/glue.cpp:94-118 | the offsets have potentials if and only if no overlap that closed a cycle shows a discrepancy |
| Cohomology.CycleCount | semantic/glue.cpp:103-118 | as many overlaps are set aside as edges - nodes + components |
| Cohomology.CohomologyVerdict | semantic/glue.cpp:77-128 | nothing is reported when every symbol glues; silence means potentials within 1e-9; when all offsets are multiples of some grain beyond that both are equivalent; every reported class is a real mismatch, and some potentials fit all overlaps that are not reported |
| Cohomology.SlipUnreported | semantic/glue.cpp:103-118 | one overlap of a region with itself by no more than the tolerance has no potentials and is not reported |
| Cohomology.GrainExactly | semantic/glue.cpp:94-118 | over all offsets of one grain, silence and gluing are equivalent if and only if the grain exceeds the tolerance |
| Cohomology.Cohomology | semantic/glue.cpp:77-128 | h0 is the number of regions, h1_rank the sum over symbols of edges - nodes + components, classes as in the verdict, obstructed exactly when there are some |
| Glue.GlueSections | semantic/glue.cpp:19-57 | the accumulated assignments, conflicts and matches of all sections in order |
| Glue.GluedExactly | semantic/glue.cpp:19-57 | when each range is empty or holds a number: no conflict if and only if every symbol of two sections or more has one dimension and a number in all its ranges; then what is glued holds exactly the common numbers and the given dimension |
| Glue.RunReports | semantic/glue.cpp:19-57 | a match for each symbol that comes again, with the region that had it first; a conflict only with that region, over a dimension given before or over ranges without a common number |
| Glue.RangesExactly | semantic/glue.cpp:34-46 | with one further kind of range beside empty and proper ones, conflicts show exactly the disagreements if and only if that kind is empty or proper |
| Glue.OddRangeGlues | semantic/glue.cpp:34-46 | a range that is neither glues to the whole line without a conflict, although no number is in both |
| Sivia.Bisect | core/sivia/sivia.cpp:12-24 | the two halves of the box along its first widest variable |
| Sivia.WidestMeaning | core/sivia/sivia.cpp:13-16 | the chosen variable is one of greatest width |
| Sivia.HalvedCoversExactly | core/sivia/sivia.cpp:12-24 | for every box, halving keeps all points if and only if the box has none or its widest named side is not the whole line |
| Sivia.VolumeSharedExactly | core/sivia/sivia.cpp:12-35 | for a finite box without rounding, the halves share its volume if and only if the widest variable has a name and a width |
| Sivia.CoversExactly | core/sivia/sivia.cpp:39-76 | without rounding, after any number of steps, every point is still in some box if and only if the run did not begin by splitting a whole line; with rounding, when no side is one |
| Sivia.VolumeExactly | core/sivia/sivia.cpp:39-76 | without rounding, after any number of steps, the four volumes sum to the box's if and only if no box was split into itself |
| Sivia.NoRepeats | core/sivia/sivia.cpp:65-72 | no box is split into itself when epsilon is positive and what has no name is narrower |
| Sivia.SafeVolumeBound | core/sivia/sivia.cpp:60-62 | safe boxes never exceed the box's volume, whatever the names and epsilon |
| Sivia.WaitsBelow | core/sivia/sivia.cpp:45-74 | boxes pending below wait until all that came later, halves of halves included, is settled |
| Sivia.UpperFirst | core/sivia/sivia.cpp:70-74 | of two halves the upper one is settled first, with all its parts |
| Sivia.PavedSign | core/sivia/sivia.cpp:60-64 | with a non-negative slack, values are positive on a safe box and negative on a discarded one wherever evaluation is faithful |
| Sivia.SiviaPaves | core/sivia/sivia.cpp:39-76 | all of these for the result of a run: signs, covering, volumes, a fraction in [0, 1] that is the safe share; every unknown box that was not still pending is narrower than epsilon and shown neither safe nor failing, and all unknown boxes are when the work ran out before the limit |
| Sivia.RunSivia | core/sivia/sivia.cpp:39-76 | the worklist loop returns the run's result, and all that is promised holds of it |
| ArtifactGraph.Sorter.Dfs | platform/artifact_graph.cpp:62-70 | the visit finishes what it reaches, dependencies first, and marks cycles |
| ArtifactGraph.Order | platform/artifact_graph.cpp:57-73 | every node once; a cycle is reported if and only if the edges have one; otherwise dependencies come first |
| ArtifactGraph.Affected | platform/artifact_graph.cpp:77-91 | exactly the artifacts with a non-empty path to the changed one, each once |
| ArtifactGraph.CollectedExactly | platform/artifact_graph.cpp:40-55 | with a limit of at least the number of artifacts, exactly the reachable nodes and the edges between them |
| ArtifactGraph.LimitExactly | platform/artifact_graph.cpp:40-55 | nothing is missed in any graph of n artifacts if and only if the limit is at least n |
| ArtifactGraph.BuildArtifactGraph | platform/artifact_graph.cpp:34-75 | the collected nodes, each once and all reachable, ordered or with a cycle reported exactly; complete when the limit leaves room |
| ArtifactGraph.DetourMisses | platform/artifact_graph.cpp:44-55 | a node three edges away that a limit of three misses |
| Affine.PlusSound | core/affine/aff.cpp:31-38 | under any noise the sum of two forms stands for the sum of what they stand for |
| Affine.ScaleSound | core/affine/aff.cpp:50-56 | the same for multiples |
| Affine.TimesSound | core/affine/aff.cpp:64-75 | the same for products, within the error term |
| Affine.FromIvalSound | core/affine/aff.cpp:8-18 | some value of the new symbol makes an interval's form stand for any of its points |
| Affine.ToIvalSound | core/affine/aff.cpp:20-29 | a form's interval holds what the form stands for |
| Affine.PlusExactly | core/affine/aff.cpp:31-38 | under any noise the sum of two forms stands only for sums of what they stand for |
| Affine.ScaleExactly | core/affine/aff.cpp:50-56 | the same for multiples |
| Affine.TimesTight | core/affine/aff.cpp:64-75 | for forms without a common symbol the product's error is no larger than it must be: some noise and numbers use up all of it |
| Affine.FromIvalTight | core/affine/aff.cpp:8-18 | an interval's form stands only for its points |
| Affine.ToIvalExactly | core/affine/aff.cpp:20-29 | a form's interval holds exactly what it stands for under some noise |
| Affine.SelfDifference | core/affine/aff.cpp:48-48 | a form minus itself is the point zero if and only if its error is zero |
| Affine.AffineSound | core/enclosure/enclosure.cpp:112-161 | for any noise under which the inputs' forms stand for their values, the new symbols have values under which the result stands for the graph's value |
| Affine.EvalAffSound | core/enclosure/enclosure.cpp:164-167 | hence the affine interval encloses every value of the graph |
| Affine.LinearExactly | core/enclosure/enclosure.cpp:112-167 | on a graph of sums, differences, negations and multiples by constants the affine interval is exactly the set of its values, however often an input occurs |
| AffineLoops.MultiplyForms | core/affine/aff.cpp:64-75 | the loops over the coefficient tables compute the product form |
| AffineLoops.SumOfSizes | core/affine/aff.cpp:20-24 | the radius, in whatever order the symbols come |
| AffineLoops.Symbols.Sym | core/affine/aff.cpp:8-13 | a new symbol number is taken exactly when the radius is not zero |
| Lipschitz.Triangle | core/holes/holes.cpp:42-48 | the distance obeys the triangle inequality in any dimension |
| Lipschitz.ComputeWrap | core/holes/holes.cpp:30-71 | the loops compute bands, meet and refutation as specified |
| Lipschitz.NeverRefuted | core/holes/holes.cpp:54-64 | a function as flat as claimed is never refuted by its own values |
| Lipschitz.WrapSound | core/holes/holes.cpp:30-71 | in any dimension and for unbounded boxes too, the wrapper does not refute itself and its enclosure holds the hidden function's value at every point of the box |
| Lipschitz.RefutedExactly | core/holes/holes.cpp:54-64 | some function with the claimed slope goes through all probes if and only if they are not refuted and agree at one place |
| Lipschitz.ClashUnrefuted | core/holes/holes.cpp:54-64 | two probes at one place with different values are not refuted |
| Lipschitz.BandTight | core/holes/holes.cpp:36-53 | a probe's band is no wider than it must be for the ball around the box: the steepest function through the probe takes its upper end there |
| MonotoneWrap.ComputeWrap | core/holes/holes.cpp:13-28 | the loop computes the two corner values, or falls back on an empty input |
| MonotoneWrap.WrapSound | core/holes/holes.cpp:13-28 | whatever sign is declared, the enclosure holds the value of a function that is monotone either way |
| MonotoneWrap.WrapTight | core/holes/holes.cpp:13-28 | over a bounded box the wrapper holds only what lies in the physical range and between two values of the function |
| FormulaParser.Lexer.Next | extractor/formula/formula.cpp:30-43 | the cursor moves over exactly the next token |
| FormulaParser.Lexer.IdentOrRef | extractor/formula/formula.cpp:87-110 | a word is a reference, a range, a function, a cell or a name by what follows it |
| FormulaParser.Parser.ExprFrom | extractor/formula/formula.cpp:199-214 | the climbing loop reads the expression that the grammar function gives, to the same token |
| FormulaParser.Parser.PrimaryFrom | extractor/formula/formula.cpp:242-293 | the same for primaries, calls and failures |
| FormulaParser.ParseFormula | extractor/formula/formula.cpp:304-318 | the formula's tree, or none when something does not fit or is left over |
| Precedence.ShownRoundTrip | extractor/formula/formula.cpp:190-241 | a formula of numbers, cells, cells on other sheets, texts, all twelve operators, minus and percent, written with no parentheses but those that the operators' precedence needs, is parsed as the tree that it was written from |
| Precedence.NamesRead | extractor/formula/formula.cpp:256-297 | a name is read as a function if and only if that function is called so |
| Precedence.ExponentRead | extractor/formula/formula.cpp:59-72 | digits, points and an exponent with or without a sign are one number |
| Rpn.DecodeRpn | extractor/xlsb/xlsb.cpp:107-167 | the stack machine over the codes, or none when an operand or code is missing |
| Rpn.DecodedText | extractor/xlsb/xlsb.cpp:107-167 | the postfix form of every encodable expression decodes to its text |
| RpnRoundTrip.ParsesTerm | extractor/formula/formula.cpp:199-293 | wherever an expression's text stands before a stop, exactly it is parsed |
| RpnRoundTrip.PostfixRoundTrip | extractor/formula/formula.cpp:304-318 | for every expression of 16-bit numbers, cells, ranges, the five operators, minus and calls of any arity, parsing the decoded postfix form gives the expression back |
| RpnRoundTrip.NumberMeaning | extractor/xlsb/xlsb.cpp:49-64 | the function of each number, by a table of its own |
| Records.RecAsm.Feed | extractor/xlsb/xlsb.cpp:268-272 | what has been emitted depends only on all that was fed, compaction included |
| Records.Stream | extractor/xlsb/xlsb.cpp:264-301 | fed in any pieces, the records of the whole |
| Records.ReadRecords | extractor/xlsb/xlsb.cpp:68-92 | the records that the whole-buffer reader takes |
| Records.ReadersAgreeExactly | extractor/xlsb/xlsb.cpp:68-92 | both readers agree if and only if the input has no loose end, and the streamed records are always a prefix |
| Records.LoneType | extractor/xlsb/xlsb.cpp:80-88 | a one-byte input on which they differ |
| Records.WrittenRoundTrip | extractor/xlsb/xlsb.cpp:68-92 | both readers give back the records that were written, types below 2^15 and sizes below 2^28 |
| Merkle.Tree.constructor | core/merkle/merkle.cpp:26-46 | the levels are hashed in pairs up to one root, odd ends paired with themselves |
| Merkle.Tree.Proof | core/merkle/merkle.cpp:48-61 | the siblings of a leaf, level by level, or nothing for an index outside |
| Merkle.PathVerifies | core/merkle/merkle.cpp:48-68 | every leaf's path leads to the root, odd levels included |
| Merkle.RootOfHalves | core/merkle/merkle.cpp:26-46 | over two halves of 2^k leaves each the root joins the halves' roots, the left one first |
| Merkle.PathBinds | core/merkle/merkle.cpp:63-68 | with an injective hash one path leads to a root from one leaf only |
| Merkle.RootBinds | core/merkle/merkle.cpp:26-46 | with an injective hash equal roots over equally many leaves mean equal leaves |
| Merkle.RootBindsExactly | core/merkle/merkle.cpp:26-46 | with an injective hash, equal roots over n and over m leaves mean equal leaves if and only if n = m |
| Merkle.OddTwin | core/merkle/merkle.cpp:38-42 | three leaves share their root with four |
| Merkle.AuditChain.Append | core/merkle/merkle.cpp:81-87 | one linked entry more, and the log still verifies |
| Merkle.AuditChain.Verify | core/merkle/merkle.cpp:89-97 | accepts exactly the linked logs that end in the head |
| Merkle.HeadBinds | core/merkle/merkle.cpp:70-97 | with an injective entry hash, linked logs of one length and head are equal |
| Merkle.GrownHeadBinds | core/merkle/merkle.cpp:70-97 | two logs that appends have grown, neither empty, with one head are equal, their lengths too |
| Linearize.Linearized | core/ast/ast.cpp:260-265 | one slot per distinct sub-expression, operands before users, the root last |
| Linearize.RunMeaning | core/ast/ast.cpp:238-257 | in every algebra each slot's value is that of the sub-expression it stands for |
| Linearize.LinearizedMeaning | core/ast/ast.cpp:260-265 | in every algebra running the slots in order gives the tree's value |
| EvalCache.EvalCache.Get | platform/incremental.cpp:23-31 | a hit returns the entry and moves its key to the front of the recency list; a miss changes nothing |
| EvalCache.EvalCache.Put | platform/incremental.cpp:33-48 | the key goes to the front and the least recently used ones go until the limit is met |
| EvalCache.EvalCache.SetLimit | platform/incremental.cpp:71-79 | the list is cut from the back to the new limit |
| EvalCache.EvalCache.Invalidate | platform/incremental.cpp:50-56 | exactly the entries of the program go, the rest keep their order |
| EvalCache.EvalCache.InvalidateBySymbol | platform/incremental.cpp:58-64 | exactly the entries that mention the symbol go |
| EvalCache.RunFresh | platform/incremental.cpp:23-79 | after any run of calls each key is listed once and holds the entry last put under it |
| EvalCache.RunByRecency | platform/incremental.cpp:23-79 | after any run of calls the list is in the order of last use |
| EvalCache.OldestGoes | platform/incremental.cpp:33-48 | in any run an entry that a put or a lower limit drops was used before every entry that stays, and no more go than the limit asks for |
| EvalCache.KeptExactly | platform/incremental.cpp:50-64 | invalidation keeps exactly what is not stale |

## Left out

- Interval.IPowSound: with rounding its guard follows the loop's products, because a product may round to infinity on the way; without rounding Interval.IPowExactlyWhen gives the closed condition.
- Verifier.VerdictSound: one way only; an evaluation that is not faithful may still give the right verdict.
- Exactness.EnclosureExactly: graphs with holes, disjunctions or trigonometric functions are excluded, as are operations whose enclosure holds what is only approached.
- Ranges.SqrtRange: that numbers have real roots, and that exponential and logarithm undo each other, is a hypothesis (`Genuine`), since the verifier's reals come without it.
- Lipschitz.BandTight: one band at a time; the meet of several may be wider than what all functions through the probes take.
- Isotonicity.EnclosureGrows: takes the growth of the trigonometric enclosures as an assumption.
- Dimensions.InferDims: asks for a constraint or for no unknowns, since a matrix without rows has no columns in the code; 64-bit overflow and the narrowing of results to int are not modelled.
- Inflate.InflateTo: asks that no block is endless, since the code does not return from one.
- Precedence.ShownRoundTrip: calls and ranges are in RpnRoundTrip.PostfixRoundTrip instead; the reading of decimal digits as a number is a parameter.
- RpnRoundTrip.PostfixRoundTrip: calls of fixed arity are excluded, since they do not pop their argument; the reading of decimal digits as a number is a parameter.
- Preservation.VerdictOnWorkbook: asks that every number on the way is one, names are read alike by both sides, no IF has a range of several cells for its condition, no starting value of an aggregate shows through, and powers have whole exponents; the module Gaps shows what happens otherwise. A target that leads to a cycle is covered only where lowering meets the cycle, which leaves a hole.
- Affine.AffineSound: exact arithmetic, none of the intervals on the way infinite or empty, whole constant exponents; the residual is not modelled. The counter of symbols is threaded through the recursion as an argument, and the class in AffineLoops shows it as the shared counter.
- Lipschitz.WrapSound: exact arithmetic for the centre, the distances and the bands.
- Records.RecAsm: sizes and offsets are unbounded integers.
- EvalCache.RunFresh: entries are put with the keys given; the lossy fingerprint of a box, timestamps and the mutex are not modelled.
- Trigonometric range reduction, library functions and real powers: the enclosures of sine, cosine and tangent are assumed sound, and non-whole exponents have no value in the model.
- Bit-level floating point: rounding is an abstract pair of functions, with a second pair for the slack given to widths and library results.
- SHA-256: hashes are parameters; the digest of an empty tree and the genesis digest too.
- Workbook storage: sheets hold cells in one map, and formula texts are given as parsed trees; the lists of input and output cells are not kept.
- Functions of the interpreter that have no graph (COUNT, MOD, ROUND and the like) are one uninterpreted function, as their graph is a hole.
- Orders of iteration: where the code walks an ordered map and the result does not depend on the order, the model takes any order; gluing and paving take the order of names as given.
- The label and hash of a trace row, and error messages of the parser.
- Match pairs of two sections (`match_sections`) and program diffs: they would only add easy members.
- `wrapper/synth.cpp`, JSON and certificates, fingerprints, HTTP, storage and user interface: heuristic or plumbing.
