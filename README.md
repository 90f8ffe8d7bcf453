# Trefftz space-time wave solver: tent pitching and Trefftz bases, modelled in Dafny

This project models the computational core of a Trefftz discontinuous Galerkin
solver for the wave equation, as an add-on to a finite element library.
It covers six pieces.

- **Tent pitching** (`trefftz/tents/tents.cpp`). The slab is advanced vertex by
  vertex. Each step picks a ready vertex of lowest level and pitches a tent on
  it: the top is the front time plus the local step `ktilde`, capped at `dt`.
  The step then records the neighbours and their front times, raises their
  levels, and links the new tent after each neighbour's latest tent. Last, it
  recomputes the neighbours' steps and admits those whose step is large enough.
  Both overloads are modelled, the plain one and the one refined by a tent
  height function. So are the dependency table built at the end and the dof
  layout part of `SetupTents`.
- **The general polynomial plane wave (GPPW) basis** (`trefftz/trefftzgppwfe.cpp`).
  `TB` seeds one basis function per monomial of time exponent 0 or 1. It then
  fills in the higher time exponents by the recursion of the wave equation with
  the coefficient `gamma`, compresses the matrix, and caches it under a key made
  of the order and `gamma`. The element's `CalcShape`, `CalcDShape` and
  `CalcDDSpecialShape` multiply the cached matrix by the monomials, their first
  derivatives, or the wave operator applied to them, at the scaled local point.
- **`Monomial`** (`trefftz/trefftzwavefe.hpp`): the three-term recursion that
  yields the powers of `x`.
- **`MyTrefftz`** (`myTrefftz.cpp`): a prototype of the polynomial Trefftz basis.
  It enumerates the exponent tuples of bounded degree recursively, and sets each
  basis function's coefficients by seeding it at time 0 and applying the wave
  recursion.
- **The helpers of `evolvetent.cpp`**: the face vertices of a tent, the ordering
  of triangle sides, the face normal and its orientation, the anisotropic
  diameter of a tent, and the discrete L2 error.
- **`IntegrationPointFunction`** (`trefftz/specialcoefficientfunction.hpp`): a
  table of one value per element and integration point, with a checked lookup.

Modelling choices:

- Doubles are modelled as `real`.
- Mesh queries are data: vertex and edge lists, element edges, vertex elements
  and vertex facets (`TentPrep.Mesh`).
- The map from exponent tuple to position, `IndexMap2`, is a function parameter
  `im`. It is required to number the tuples in the order the `pol` loops visit
  them (`GppwBasis.IsIndexMap`).
- The tent height function `GetTentHeight` is a function parameter `gth`.
- The pitching loops carry a step budget `fuel`, because nothing in the source
  bounds their number of iterations.

## Model

| member | source | states |
|---|---|---|
| `Monomial.RecIsPower` | trefftz/trefftzwavefe.hpp:61-80 | With P0 = 1, P1(x) = x, A = 1 and B = C = 0, the k-th value of the recursion is x^k, for every k. |
| `Monomial.RecursionDegenerates` | trefftz/trefftzwavefe.hpp:67-80 | Each recursion step multiplies the previous value by x. The two-argument P1 equals P1(x) for every second argument y. |
| `Monomial.RecPowersUpTo` | trefftz/trefftzwavefe.hpp:61-65 | All n+1 values that `Monomial(n, x, values)` writes are the powers x^0 .. x^n. |
| `Monomial.Values` | trefftz/trefftzwavefe.hpp:61-65 | The value table has n+1 entries, and entry k is x^k. |
| `Tuples.EnumLength` | myTrefftz.cpp:31-33 | The tuples of length n and degree at most r number C(n+r, r), the count the index vector is reserved for. |
| `Tuples.EnumMembers` | myTrefftz.cpp:77-104 | A tuple is enumerated exactly when it has length n and degree at most r. |
| `Tuples.EnumSorted` | myTrefftz.cpp:80-87 | The enumeration is strictly increasing in lexicographic order, so it has no duplicates. |
| `Tuples.ChooseTimesFactorials` | myTrefftz.cpp:106-110 | C(n, k) * k! * (n-k)! = n!, the quotient of factorials that `BinCoeff` computes. |
| `MyTrefftz.BinCoeff` | myTrefftz.cpp:106-110 | The result is C(n, k) for 0 <= k <= n+1, which is 0 above n, and 0 for k = -1. |
| `MyTrefftz.EmitAll` | myTrefftz.cpp:77-104 | The recursive emission from an empty prefix: it yields exactly the tuples of length n and degree at most maxes, strictly lex-sorted, C(n+maxes, maxes) of them. |
| `MyTrefftz.EmitIsPrefixedEnum` | myTrefftz.cpp:80-102 | From a fixed prefix, emission yields the prefix followed by every completion within the remaining degree budget. |
| `MyTrefftz.Trefftz.constructor` | myTrefftz.cpp:11-13 | A new element has nbasis = C(D+order, order) + C(D+order-1, order-1) basis functions, each empty, and npoly = C(D+1+order, order) monomials, which is the number of (D+1)-tuples of degree at most order. The two counts are declared in the class header, myTrefftz.hpp, which is not part of this model; the cited lines are where they are used. |
| `MyTrefftz.Trefftz.MakeIndicesInner` | myTrefftz.cpp:77-104 | It appends the completions of the fixed part of `numbers`, in loop order, to the index list. The fixed part of `numbers` is left as it was. |
| `MyTrefftz.Trefftz.MakeIndices` | myTrefftz.cpp:69-75 | It appends every (D+1)-tuple of degree at most maxes, in lexicographic order. |
| `MyTrefftz.SliceCountBinomial` | myTrefftz.cpp:62 | nbasis = C(D+order, order) + C(D+order-1, order-1) counts the tuples of time exponent 0 or 1. npoly = C(D+1+order, order) counts all tuples. |
| `MyTrefftz.TimeSlices` | myTrefftz.cpp:40-63 | In loop order, the nbasis tuples of time exponent 0 or 1 come first, and the first tuple has time exponent 0. |
| `MyTrefftz.Trefftz.Recursion` | myTrefftz.cpp:46-56 | The recursive sum gives 1/(k(k-1)) times the sum over m of (i_m+1)(i_m+2) times the coefficient at the tuple lowered by 2 in time and raised by 2 in m. |
| `MyTrefftz.Trefftz.FillRow` | myTrefftz.cpp:40-65 | The index loop for basis function l changes only row l, and leaves it as the loop computes it, with the given advance after the seed. |
| `MyTrefftz.Trefftz.TrefftzBasisAsWritten` | myTrefftz.cpp:26-67 | Every row is the index loop with the advance of nbasis that the source uses. |
| `MyTrefftz.AsWrittenSkipsRecursion` | myTrefftz.cpp:59-63 | With D = 1 and order 2, basis function 2 is seeded at (0,2). It never reaches tuple (2,0), which keeps 0 though the recursion gives it 1. |
| `MyTrefftz.Trefftz.TrefftzBasis` | myTrefftz.cpp:26-67 | Every row is the index loop with the advance corrected to nbasis-1. |
| `MyTrefftz.CorrectedRow` | myTrefftz.cpp:36-66 | A corrected row is 1 at its own seed tuple and unchanged at every other tuple of time exponent 0 or 1. The recursion holds at every tuple of time exponent 2 or more. |
| `MyTrefftz.Trefftz.CalcShape` | myTrefftz.cpp:8-18 | Each of the first nbasis entries of shape grows by npoly, and no other entry changes. |
| `CsrMatrix.MatToCsrRoundTrip` | trefftz/trefftzgppwfe.cpp:506 | The compressed matrix is well formed and holds the dense matrix's entries exactly. |
| `CsrMatrix.MatToCsrRowDot` | trefftz/trefftzgppwfe.cpp:192-197 | The sum over a compressed row's stored entries equals the dense row's dot product with the vector. |
| `CsrMatrix.MatToCsrNonEmpty` | trefftz/trefftzgppwfe.cpp:509-514 | A compressed matrix always has its rows+1 row starts, so the "failed to generate" branch is never taken after a build. |
| `GppwBasis.IndexMapColumns` | trefftz/trefftzgppwfe.cpp:425 | Every tuple of degree at most ord maps to a column below npoly, and distinct tuples map to distinct columns. |
| `GppwBasis.WriteStep` | trefftz/trefftzgppwfe.cpp:430-499 | Writing the recursion value at a target establishes the wave recursion there. It keeps the recursion at every target visited earlier. |
| `GppwBasis.NewFrame` | trefftz/trefftzgppwfe.cpp:436-498 | The recursion value at a target reads only monomials of lower degree, or of equal degree and lower time exponent. |
| `GppwBasis.DeterminedAt` | trefftz/trefftzgppwfe.cpp:417-504 | Two rows that agree on the seeded monomials and both satisfy the recursion at every target agree everywhere. So the seeds determine the basis. |
| `GppwBuild.SeedOrderMembers` | trefftz/trefftzgppwfe.cpp:417-426 | The seeding loops visit exactly the monomials of time exponent 0 or 1 and degree at most ord-t. In 1-D, the y exponent is 0. |
| `GppwBuild.SeedOrderDistinct` | trefftz/trefftzgppwfe.cpp:417-426 | The seeding loops visit each such monomial once. |
| `GppwBuild.SeedOrderLength` | trefftz/trefftzgppwfe.cpp:412 | The seeding loops visit exactly nbasis monomials. |
| `GppwBuild.Seed` | trefftz/trefftzgppwfe.cpp:414-426 | Starting from the zero matrix, row b becomes the unit vector on the column of the b-th seeded monomial. |
| `GppwBuild.SeedLine` | trefftz/trefftzgppwfe.cpp:418-426 | One pass of the x loop seeds the next rows, in order. |
| `GppwBuild.SeedWrite` | trefftz/trefftzgppwfe.cpp:421-425 | One seeding write puts 1 in row basisn at the monomial's column. |
| `GppwBuild.Leading1` | trefftz/trefftzgppwfe.cpp:445-447 | In 1-D, the leading term is (x+2)(x+1)/((t+2)(t+1) gamma(0)) times the coefficient at (x+2, t). |
| `GppwBuild.Correction1` | trefftz/trefftzgppwfe.cpp:448-456 | In 1-D, one betax step subtracts gamma(x-betax, 0) times the coefficient at (betax, t+2), divided by gamma(0). |
| `GppwBuild.Coefficient1` | trefftz/trefftzgppwfe.cpp:436-456 | In 1-D, the new coefficient at (x, t+2) is the recursion value. |
| `GppwBuild.Leading2` | trefftz/trefftzgppwfe.cpp:477-481 | In 2-D, the leading terms are taken from (x+2, y, t) and (x, y+2, t). |
| `GppwBuild.Correction2` | trefftz/trefftzgppwfe.cpp:485-498 | In 2-D, one betay step subtracts gamma(x, y) times the coefficient at (betax, betay, t+2), divided by gamma(0). |
| `GppwBuild.CorrectionRow` | trefftz/trefftzgppwfe.cpp:482-499 | In 2-D, the betay loop runs to y, or to y-1 when betax = x. |
| `GppwBuild.Coefficient2` | trefftz/trefftzgppwfe.cpp:460-499 | In 2-D, the new coefficient at (x, y, t+2) is the recursion value. |
| `GppwBuild.Store` | trefftz/trefftzgppwfe.cpp:440-467 | The write through `newcoeff` changes only that entry of row b. |
| `GppwBuild.FillDiagonal` | trefftz/trefftzgppwfe.cpp:432-501 | One t pass of the ell loop establishes the recursion on its diagonal. The seeds and the other rows are unchanged. |
| `GppwBuild.FillRow` | trefftz/trefftzgppwfe.cpp:430-503 | After the ell loop, row b satisfies the recursion at every target, keeps its seeds, and is the only row changed. |
| `GppwBuild.SeedRow` | trefftz/trefftzgppwfe.cpp:417-426 | A seeded row is 1 at its own seed monomial and 0 at every other seeded one. |
| `GppwBuild.FillAll` | trefftz/trefftzgppwfe.cpp:428-504 | After the basisn loop, the matrix is a GPPW basis: row b is seeded at the b-th seed monomial and satisfies the recursion everywhere. |
| `GppwBuild.Build` | trefftz/trefftzgppwfe.cpp:412-504 | `TB`'s dense matrix is a fresh nbasis x npoly GPPW basis. |
| `GppwCache.KeyOf` | trefftz/trefftzgppwfe.cpp:405-407 | The cache key holds the order and the first ord*ord entries of gamma. |
| `GppwCache.Insert` | trefftz/trefftzgppwfe.cpp:506 | Storing a compressed basis under its key keeps the cache consistent. |
| `GppwCache.Lookup` | trefftz/trefftzgppwfe.cpp:509-517 | A built entry is the compression of a GPPW basis for the gamma it was built from. |
| `GppwCache.Compressed` | trefftz/trefftzgppwfe.cpp:412-506 | The stored matrix is the compression of a GPPW basis, and it is never empty. |
| `GppwCache.BasisShape` | trefftz/trefftzgppwfe.cpp:506 | The compression of the basis is a well-formed nbasis x npoly matrix. |
| `GppwCache.GppwBasisCache.Fill` | trefftz/trefftzgppwfe.cpp:409-507 | A missing or empty entry is replaced by the compressed basis of gamma. Every other entry is unchanged. |
| `GppwCache.GppwBasisCache.TB` | trefftz/trefftzgppwfe.cpp:401-518 | A built entry is handed out with the store unchanged. Otherwise the store gains the new entry. Either way the result is the stored matrix, well formed and never a failure. |
| `GppwShape.Local` | trefftz/trefftzgppwfe.cpp:174-175 | The local point is (p - center) * (2 / elsize), coordinate by coordinate. |
| `GppwShape.Table` | trefftz/trefftzgppwfe.cpp:178-184 | Each coordinate's slice of `mem`, after the zero padding, holds the powers of that coordinate. |
| `GppwShape.ShapeTermIsMono` | trefftz/trefftzgppwfe.cpp:186-189 | The product of table entries in the `pol` loop is the monomial at the local point. |
| `GppwShape.DTermIsDeriv` | trefftz/trefftzgppwfe.cpp:257-263 | The `pol` term of `CalcDShape` is the partial derivative of the monomial in direction d. The padded entry at index -1 makes the zero-exponent case 0. |
| `GppwShape.DDTermIsWave` | trefftz/trefftzgppwfe.cpp:335-341 | The `pol` term of `CalcDDSpecialShape` is the spatial second derivatives minus the wave speed times the time second derivative. Only the last product is scaled by the wave speed, as in the source. |
| `PolFill.FillPol2` | trefftz/trefftzgppwfe.cpp:186-189 | The i/j loops fill `pol` with the term at each exponent pair, in enumeration order. |
| `PolFill.FillPol3` | trefftz/trefftzgppwfe.cpp:217-221 | The i/j/k loops fill `pol` with the term at each exponent triple, in enumeration order. |
| `PolFill.AlongTwo` | trefftz/trefftzgppwfe.cpp:187-189 | The running index `ii` of pair (i, j) is its position in the enumeration. |
| `PolFill.AlongThree` | trefftz/trefftzgppwfe.cpp:218-221 | The running index `ii` of triple (i, j, k) is its position in the enumeration. |
| `ShapeWrite.RowSum` | trefftz/trefftzgppwfe.cpp:194-196 | The j loop sums the row's stored entries times `pol` at their columns, times the scale. |
| `ShapeWrite.WriteVector` | trefftz/trefftzgppwfe.cpp:192-197 | `shape(i)` becomes row i of the matrix applied to `pol`, for i < ndof. The rest is unchanged. |
| `ShapeWrite.WriteColumn` | trefftz/trefftzgppwfe.cpp:266-271 | Rows i*n+e of the column become row i applied to `pol`, times 2/elsize. The rest is unchanged. |
| `ShapeWrite.WriteSpecial` | trefftz/trefftzgppwfe.cpp:344-350 | Rows i*n+D of the column become the scaled row products, and the other D components of each basis function become 0. |
| `GppwFe.LocalMat` | trefftz/trefftzgppwfe.cpp:191 | The element's matrix is the cached, well-formed compression of its basis. |
| `GppwFe.DenseDots` | trefftz/trefftzgppwfe.cpp:192-197 | Applying the compressed basis to a vector gives the dense rows' dot products. |
| `GppwFe.ShapesRows` | trefftz/trefftzgppwfe.cpp:190-197 | The matrix applied to the monomials gives each basis function's value at the local point. |
| `GppwFe.GradsRows` | trefftz/trefftzgppwfe.cpp:265-271 | The matrix applied to the derivative terms, times 2/elsize, gives each basis function's gradient component. |
| `GppwFe.WavesRows` | trefftz/trefftzgppwfe.cpp:343-350 | The matrix applied to the wave terms, times (2/elsize)^2, gives each basis function's special second derivative. |
| `GppwFe.ShapePol` | trefftz/trefftzgppwfe.cpp:174-189 | `pol` holds the monomials at the local point, in enumeration order. |
| `GppwFe.DerivPol` | trefftz/trefftzgppwfe.cpp:257-263 | `pol` holds the monomials' derivatives in direction d. |
| `GppwFe.WavePol` | trefftz/trefftzgppwfe.cpp:335-341 | `pol` holds the wave operator applied to the monomials. |
| `GppwFe.CalcShape` | trefftz/trefftzgppwfe.cpp:170-235 | For D = 1, 2, `shape` holds every basis function's value at the local point. For D = 3, nothing is written. Entries past ndof are unchanged. |
| `GppwFe.GradColumn` | trefftz/trefftzgppwfe.cpp:257-272 | One d pass writes every basis function's derivative in direction d and leaves the other components alone. |
| `GppwFe.CalcDShape` | trefftz/trefftzgppwfe.cpp:239-314 | For D = 1, 2, `dshape(i, d)` is basis function i's derivative in space-time direction d, for every d <= D. For D = 3, nothing is written. |
| `GppwRule.ShapeColumn` | trefftz/trefftzgppwfe.cpp:15-40 | One integration point's column of `shape` holds the basis values there. |
| `GppwRule.CalcShapeRule` | trefftz/trefftzgppwfe.cpp:11-81 | For D = 1, 2, column m holds the basis values at point m. For D = 3, it reports the no-SIMD exception and writes nothing. |
| `GppwRule.GradPoint` | trefftz/trefftzgppwfe.cpp:89-118 | Rows i*(D+1)+d of one column hold basis function i's gradient at that point. |
| `GppwRule.CalcDShapeRule` | trefftz/trefftzgppwfe.cpp:85-164 | For D = 1, 2, every column holds the gradients at its point. For D = 3, it reports the no-SIMD exception and writes nothing. |
| `GppwRule.SpecialPoint` | trefftz/trefftzgppwfe.cpp:322-350 | At one point, the time component holds the special second derivative, and the space components are 0. |
| `GppwRule.CalcDDSpecialShapeRule` | trefftz/trefftzgppwfe.cpp:317-393 | At every point, with that point's wave speed, row i*(D+1)+D holds the special second derivative of basis function i. Rows i*(D+1)+e, e < D, are 0. Nothing else changes. |
| `TentPrep.Min` | trefftz/tents/tents.cpp:39 | The result is the smaller of the two values. |
| `TentPrep.EdgeRefIsMin` | trefftz/tents/tents.cpp:29-41 | `edge_refdt[e]` is the least len(e)/cmax(el) over the elements containing e, or 1e99 when there are none. |
| `TentPrep.EdgeRefDt` | trefftz/tents/tents.cpp:29-41 | The element loop yields that value for every edge. |
| `TentPrep.VertexRefIsMin` | trefftz/tents/tents.cpp:43-51 | `vertex_refdt[v]` is the least `edge_refdt` over the edges at v, or 1e99. |
| `TentPrep.VertexRefDt` | trefftz/tents/tents.cpp:43-51 | The edge loop yields that value for every vertex. |
| `TentPrep.Lockstep` | trefftz/tents/tents.cpp:68-86 | v2v and v2e are built in lockstep: entry j of v2e[v] is the edge that joins v to entry j of v2v[v]. |
| `TentPrep.IncComplete` | trefftz/tents/tents.cpp:68-86 | Every edge at v appears in v2e[v]. No vertex is its own neighbour. |
| `TentPrep.AdjMembers` | trefftz/tents/tents.cpp:68-86 | w is a neighbour of v exactly when some edge joins them. |
| `TentPrep.BuildTables` | trefftz/tents/tents.cpp:68-86 | The edge loop builds v2v and v2e as above. |
| `TentPrep.TablesOkFromMesh` | trefftz/tents/tents.cpp:68-86 | The tables are in range, in lockstep, and symmetric: w neighbours v exactly when v neighbours w. |
| `TentFront.ReadyOkMeans` | trefftz/tents/tents.cpp:58-63 | The ready flag of v is set exactly when v is in the ready list, and the list has no duplicates. |
| `TentFront.DeleteAt` | trefftz/tents/tents.cpp:106 | Deleting position i removes one copy of that vertex and nothing else. |
| `TentFront.DeleteKeepsReady` | trefftz/tents/tents.cpp:105-107 | Deleting the picked vertex and clearing its flag keeps the ready invariant. |
| `TentFront.AppendKeepsReady` | trefftz/tents/tents.cpp:187-191 | Appending an unflagged vertex and setting its flag keeps the ready invariant. |
| `TentFront.SelectMin` | trefftz/tents/tents.cpp:94-104 | The pick is the first ready vertex of least level below 1000, or position 0 when every level is 1000 or more. |
| `TentFront.PlainTop` | trefftz/tents/tents.cpp:116 | ttop = min(dt, tau + ktilde). It is at most dt, and at least tau for a nonnegative step. |
| `TentFront.RefinedTop` | trefftz/tents/tents.cpp:456-471 | The vertex completes exactly when tau + k > dt, and then the top is dt. Otherwise the top is at most tau + k, using 0.9k near dt. |
| `TentFront.Repick` | trefftz/tents/tents.cpp:431-444 | The step becomes the tent height when that is smaller, and also when the step is negative. |
| `TentFront.BudgetIsMin` | trefftz/tents/tents.cpp:175-182 | kt is the least tau[nb2] - tau[nb] + edge_refdt over the neighbours nb2, or 1e99. |
| `TentFront.KtLoop` | trefftz/tents/tents.cpp:175-182 | The nb2 loop computes that minimum. |
| `TentFront.AdmittedMembers` | trefftz/tents/tents.cpp:185-191 | The vertices admitted are exactly the neighbours that pass the test and were not ready, each once. |
| `TentFront.AdmittedFlags` | trefftz/tents/tents.cpp:185-191 | After admission, a vertex is flagged exactly when it was flagged before, or is a neighbour that passes the test. |
| `TentFront.RefreshPlain` | trefftz/tents/tents.cpp:170-192 | ktilde of each unfinished neighbour becomes kt. The ready list gains the admitted neighbours, and the invariant is kept. |
| `TentFront.RefreshRefined` | trefftz/tents/tents.cpp:528-565 | As in the plain refresh, with the tent height as the step. Completed vertices are never admitted again. |
| `TentGraph.LinksCount` | trefftz/tents/tents.cpp:126-132 | Tent i gains the new tent as a dependent exactly when it is the latest tent of some neighbour, once per such neighbour. |
| `TentGraph.StepFront` | trefftz/tents/tents.cpp:113-135 | A pitching step keeps the front consistent: each vertex's time and latest tent match, and its level is above that tent's. |
| `TentGraph.StepTents` | trefftz/tents/tents.cpp:113-135 | A pitching step keeps every tent on a vertex, holding its neighbours and their times, with its top at most dt. |
| `TentGraph.StepLevels` | trefftz/tents/tents.cpp:124-135 | A pitching step keeps every tent's neighbours at levels above the tent's. |
| `TentGraph.StepDeps` | trefftz/tents/tents.cpp:126-132 | A pitching step keeps every dependency pointing to a later tent that follows it: a higher level, and a recorded time equal to its top. |
| `TentGraph.ChainRises` | trefftz/tents/tents.cpp:202-210 | Along a chain of dependencies, the tent numbers increase. |
| `TentGraph.Acyclic` | trefftz/tents/tents.cpp:202-210 | The dependency graph has no cycle. |
| `TentLayout.Pos` | trefftz/tents/tents.cpp:619 | `Pos` gives -1 for an absent value, otherwise its first position. |
| `TentLayout.KeepMembers` | trefftz/tents/tents.cpp:617-620 | A facet is kept exactly when it is one of the tent's internal facets. |
| `TentLayout.KeepFacets` | trefftz/tents/tents.cpp:617-620 | The fnum loop keeps those facets, in order. |
| `TentLayout.RangesTile` | trefftz/tents/tents.cpp:600-606 | Each element's range is as long as its dof list, and each range starts where the previous one ends. |
| `TentLayout.RangesEnds` | trefftz/tents/tents.cpp:600-607 | The ranges start at the old dof count and end at the new one. |
| `TentLayout.RangesHoldDofs` | trefftz/tents/tents.cpp:603-604 | Element j's range of the tent's dofs is exactly element j's dofs. |
| `TentLayout.LaidTiles` | trefftz/tents/tents.cpp:600-607 | On a fresh tent, the ranges tile [0, nd). |
| `TentLayout.LaidHoldsDofs` | trefftz/tents/tents.cpp:600-607 | On a fresh tent, range j of the dofs holds element j's dofs. |
| `TentLayout.LaidFacets` | trefftz/tents/tents.cpp:610-623 | Row j of `elfnums` holds exactly element j's facets that are internal to the tent. |
| `TentLayout.GatherDofs` | trefftz/tents/tents.cpp:600-606 | The element loop appends the ranges, the dofs and the per-element counts. |
| `TentLayout.FacetTable` | trefftz/tents/tents.cpp:610-623 | The table creator's loop builds one kept-facet row per element. |
| `TentLayout.SetupLayout` | trefftz/tents/tents.cpp:600-623 | A tent's layout becomes ranges, dofs, nd_T, nd = the number of dofs, and elfnums. |
| `Tents.TentEdges` | trefftz/tents/tents.cpp:138-154 | In 1-D, the tent's only internal facet is the vertex itself. In 2-D, the facets are the vertex's edges. In 3-D, they are the given vertex facets. |
| `Tents.UnlaidStep` | trefftz/tents/tents.cpp:166 | Each tent covers the elements around its vertex, and has no layout until `SetupTents`. |
| `Tents.TentSlab.constructor` | trefftz/tents/tents.cpp:13 | A new slab has no tents, no dependency table and no dofs. |
| `Tents.TentSlab.Neighbours` | trefftz/tents/tents.cpp:120-133 | It records the neighbours and their current times, raises their levels to at least l+1, and appends the new tent number to each neighbour's latest tent. |
| `Tents.TentSlab.Pitch` | trefftz/tents/tents.cpp:113-193 | One tent is added. tau, latest and level are updated as in the source. Front, tent, level and dependency invariants are all kept. |
| `Tents.TentSlab.AllReady` | trefftz/tents/tents.cpp:58-63 | Initially every vertex is ready, in order, with its flag set. |
| `Tents.TentSlab.PlainStep` | trefftz/tents/tents.cpp:94-193 | One iteration of the plain loop. It takes the vertex vi at the position SelectMin picks and deletes it from the ready list. It then pitches one tent at vi up to PlainTop of its front time and budget, as Pitch states, and refreshes the neighbours' budgets and the ready list as RefreshPlain states. It keeps every invariant, and front times stay at most dt. |
| `Tents.TentSlab.PitchPlain` | trefftz/tents/tents.cpp:110-193 | For a vertex already taken off the ready list: the front, levels and latest tent move exactly as Pitch states with the PlainTop top. The budgets and the ready list change exactly as RefreshPlain states for the new front, and every invariant is kept. |
| `Tents.TentSlab.PitchTents` | trefftz/tents/tents.cpp:13-212 | Every tent stands on a vertex with its neighbours' times and reaches at most dt. Every dependency points to a later tent that follows it. The dependency table equals the tents' dependent lists. |
| `Tents.TentSlab.RefinedStep` | trefftz/tents/tents.cpp:407-567 | One iteration of the refined loop. It takes the vertex vi at the position SelectMin picks, with the budget k that Repick chooses. When the front at vi is below dt and k is at least half the reference height, it pitches one tent up to RefinedTop. The front, levels, tents, completion flags, budgets and ready list then change as Pitch and RefreshRefined state. Otherwise only vi's budget, ready entry and flag change. It keeps every invariant, and a completed vertex stays complete at time dt. |
| `Tents.TentSlab.PitchRefined` | trefftz/tents/tents.cpp:455-567 | The tent at vi reaches RefinedTop of its front time and budget, and vi becomes complete exactly when that top is dt. The front, levels and latest tent move as Pitch states. The budgets and the ready list change as RefreshRefined states for the new front and completion flags. A completed vertex stays off the ready list at time dt. |
| `Tents.TentSlab.PitchTentsRefined` | trefftz/tents/tents.cpp:319-585 | The same guarantees as `PitchTents`, for the refined overload. |
| `Tents.TentSlab.BuildDependency` | trefftz/tents/tents.cpp:202-210 | Row i of the dependency table is tent i's dependent list. The tents are unchanged. |
| `Tents.TentSlab.SetupTents` | trefftz/tents/tents.cpp:588-624 | Each tent gets its dof layout. `spacetime_dofs` is the sum of the tents' dof counts. The tents and the table are otherwise unchanged. |
| `EvolveTent.EvolveTents` | trefftz/evolvetent.cpp:48-49 | The slab is pitched with wave speed + 1, with the pitching guarantees. |
| `EvolveTent.LastTimeMeans` | trefftz/evolvetent.cpp:254-255 | Scanning the neighbours finds the time of x's last occurrence, and nothing when x is not a neighbour. |
| `EvolveTent.TentFaceVerts` | trefftz/evolvetent.cpp:245-259 | Column i holds vertex i's coordinates and, as time, the top or bottom for the anchor or that neighbour's time. |
| `EvolveTent.SwapIfGreater` | trefftz/evolvetent.cpp:395-404 | Afterwards a >= b, as the same pair or swapped, and already-ordered values are untouched. |
| `EvolveTent.SortSides` | trefftz/evolvetent.cpp:271 | The three swaps sort the sides in decreasing order, as a permutation. |
| `EvolveTent.HeronNonneg` | trefftz/evolvetent.cpp:272 | For sorted sides that satisfy the triangle inequality, the radicand of Heron's formula is nonnegative. |
| `EvolveTent.HeronSymmetric` | trefftz/evolvetent.cpp:272 | The radicand is the symmetric form 2(a²b² + b²c² + c²a²) - a⁴ - b⁴ - c⁴. |
| `EvolveTent.RawNormalOrthogonal` | trefftz/evolvetent.cpp:305-338 | The unnormalised normal is orthogonal to every face edge, in 2-D, 3-D and 4-D. |
| `EvolveTent.SgnNoZero` | trefftz/evolvetent.cpp:341-342 | The sign is ±1 and never 0, and it agrees with x. |
| `EvolveTent.Orient` | trefftz/evolvetent.cpp:341-342 | With top = 1 the time component becomes nonnegative. With top = -1 it becomes nonpositive. Otherwise the normal is unchanged. |
| `EvolveTent.TentFaceNormal` | trefftz/evolvetent.cpp:300-344 | The face normal points up for a top face and down for a bottom face. |
| `EvolveTent.TentFaceNormalOrthogonal` | trefftz/evolvetent.cpp:300-344 | The oriented normal is orthogonal to the face. |
| `EvolveTent.Trunc` | trefftz/evolvetent.cpp:419-420 | Conversion to int truncates toward zero. |
| `EvolveTent.Adiam2` | trefftz/evolvetent.cpp:421-429 | The j/k loops yield the largest squared space-time distance between the listed vertices. |
| `EvolveTent.TentAdiamAsWritten` | trefftz/evolvetent.cpp:406-430 | As written, the maximum is over the times stored in an int array. |
| `EvolveTent.AdiamTruncates` | trefftz/evolvetent.cpp:417-420 | Take a tent from 0 to 0.5 with a neighbour at distance 1. With the times truncated, every distance is at most 1, though the true largest squared distance is 1.25. |
| `EvolveTent.TentAdiam` | trefftz/evolvetent.cpp:406-430 | Corrected: the maximum is over the real times tbot, ttop and the neighbours' times. |
| `EvolveTent.Postprocess` | trefftz/evolvetent.cpp:377-393 | The loops accumulate the weighted squared differences over elements and points. |
| `EvolveTent.ErrSumNonneg` | trefftz/evolvetent.cpp:384-392 | With nonnegative weights, the accumulated error is nonnegative. |
| `EvolveTent.RowErrNonneg` | trefftz/evolvetent.cpp:387-390 | With nonnegative weights, one element's error is nonnegative. |
| `EvolveTent.RowErrZero` | trefftz/evolvetent.cpp:387-390 | One element's error is 0 when the two wavefronts agree at its points. |
| `EvolveTent.ErrSumZero` | trefftz/evolvetent.cpp:384-392 | The error is 0 when the wavefront equals the corrected one at every point used. |
| `EvolveTent.ErrSumValuesOnly` | trefftz/evolvetent.cpp:384-392 | The error depends only on the first nip columns of each element. |
| `IpFunction.Table` | trefftz/specialcoefficientfunction.hpp:41-50 | The constructor's table has one row per element and one entry per integration point, and entry i is i. |
| `IpFunction.IntegrationPointFunction.constructor` | trefftz/specialcoefficientfunction.hpp:38-52 | `values` becomes that table. |
| `IpFunction.IntegrationPointFunction.Evaluate` | trefftz/specialcoefficientfunction.hpp:54-66 | The lookup is illegal exactly when p < 0 or p >= the row's length. Then the value is 0; otherwise it is the stored value. |
| `IpFunction.EvaluateFresh` | trefftz/specialcoefficientfunction.hpp:38-66 | On a fresh table, a legal point number evaluates to itself, and any other point number is reported and evaluates to 0. |
| `IpFunction.IntegrationPointFunction.PrintTable` | trefftz/specialcoefficientfunction.hpp:68-79 | The rows written out, entry by entry, are exactly the table, which is unchanged. |

## Left out

- Output to the console and to files (`cout`, `testout`, VTK) is left out. `Evaluate`'s message is the `illegal` flag, and `PrintTable` returns what it would print.
- Floating point is modelled as exact `real`. SIMD is modelled by one point at a time.
- `sqrt` is left out, because Dafny has no real square root:
  - `EvolveTent.Postprocess`: it returns the sum before the final square root.
  - `EvolveTent.TentAdiam`: it returns the squared diameter. Taking the square root of each distance does not change which one is largest.
  - `EvolveTent.TentFaceNormal`: the normal is not divided by its length, so the orientation and orthogonality it keeps are exact.
- The face area, `TentFaceArea`, is left out, because it is square roots of products. Only the ordering of its sides and the sign of Heron's radicand are modelled.
- `GetTentHeight` belongs to the mesh geometry, and `MatToCSR` and `IndexMap2` are defined outside these files:
  - `gth` is an uninterpreted function parameter.
  - `MatToCsr` is modelled as the conventional conversion that keeps nonzeros row by row.
  - `im` is a parameter that numbers the tuples in loop order.
- `Tents.TentSlab.PitchTents`: the loop runs at most `fuel` times, because the source does not bound it. It does not state that every vertex reaches `dt`. Nothing in the source proves that.
- `Tents.TentSlab.PitchTentsRefined`: same `fuel` bound as `PitchTents`, and the same termination gap.
- `Tents.TentEdges`: the 3-D facet collection (tents.cpp:146-153) is the mesh's `vertexFacets` list. The facet-point query and the return value of `Append` it relies on are not part of this model.
- The geometry part of `SetupTents`, from tents.cpp:626 on, is left out: gradients of the tent height, face normals and the element data. So is the finite element space, whose dof numbers and element facets are given as data.
- `ParallelFor` and `RunParallelDependency` run sequentially in the model. The unsynchronised `spacetime_dofs +=` in the parallel loop is modelled as a plain sum.
- The mutex in `TB` is left out, as are the `getInstance` singleton and the string encoding of the key. The key is the order with the first ord*ord entries of gamma, as the encoding loop reads them. Two gammas whose printed values agree to `to_string`'s six digits collide in the source but not in the model.
- `GppwCache.GppwBasisCache.TB`: D = 3 is left out. The source seeds with index entries it never sets there (`index[1]`), and its recursion loop has no D = 3 branch, so there is no basis to state.
- `GppwCache.GppwBasisCache.TB`: its `basistype` argument is ignored, as in the source.
- `Tents.TentSlab.PitchTents` and `Tents.TentSlab.PitchTentsRefined` require `wavespeed != 0`. The model does not cover a zero wave speed. In the source, len/cmax is then +inf, `min` leaves every edge_refdt at 1e99 (tents.cpp:39), and every tent goes straight to dt. Reals have no infinity, so the model excludes this case. The caller at evolvetent.cpp:49 passes wavespeed + 1.
- `TentPrep.EdgeRef`, `TentPrep.EdgeRefIsMin` and `TentPrep.EdgeRefDt` require every `cmax[el]` to be nonzero. They exclude the same infinite len/cmax as above.
- `EvolveTent.EvolveTents` requires `wavespeed + 1 != 0`, the wave speed it passes on to `PitchTents`.
- `GppwShape.Local`, `GppwFe.Inner` and the members built on them require `h != 0` (`el.size != 0` in `GppwFe.Ready`). This excludes the element size 0, at which the source's 2/elsize divides by zero.
- `GppwBuild.Coefficient1` and `GppwBuild.Coefficient2` require gamma(0) to be nonzero. A zero gamma(0) divides by zero in the source.
- `MyTrefftz.Trefftz.CalcDShape` has an empty body in the source. The model's method writes nothing and carries no contract.
- `MyTrefftz.Trefftz.Recursion` computes in `real`. The source's `float` rounding and the int products it casts are not modelled.
- `EvolveTent.EvolveTents`: only the tent pitching is modelled. The per-tent solve (integration, element matrices and LAPACK) is left out.
- `EvolveTent.RowErrZero` states only one direction: agreeing values give error 0. The converse needs positive weights and nonlinear reasoning about sums of squares.
- `EvolveTent.ErrSumZero` states only one direction: agreeing values give error 0. The converse needs positive weights and nonlinear reasoning about sums of squares.

## Findings

| source | as written | input that shows it | evidently intended | confidence | as-written member | corrected member |
|---|---|---|---|---|---|---|
| myTrefftz.cpp:62 | After the time-0 seed the index advances by nbasis, then the loop adds 1, so position nbasis is skipped. | D = 1, order 2, basis function 2 (seed (0,2)): tuple (2,0) at position 5 keeps 0, while the recursion gives 1. | Advance to the first tuple of time exponent 2, so that the recursion visits all of them. | high (not executed) | `MyTrefftz.Trefftz.TrefftzBasisAsWritten`, `MyTrefftz.AsWrittenSkipsRecursion` | `MyTrefftz.Trefftz.TrefftzBasis`, `MyTrefftz.CorrectedRow` |
| trefftz/evolvetent.cpp:417-420 | The tent's times go into `Array<int> vtime`, truncating them to integers. | A tent from 0 to 0.5, one neighbour at distance 1 with time 0: every truncated distance is at most 1, while the true largest squared distance is 1.25. | Keep the times as doubles. | high (not executed) | `EvolveTent.TentAdiamAsWritten`, `EvolveTent.AdiamTruncates` | `EvolveTent.TentAdiam` |
