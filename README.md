# DirectedActflow core, modelled in Dafny

This project models three small sequential pieces of the DirectedActflow
Python scripts and proves what they guarantee.

- **`tetrad2matrix`** (`PCalgWrapper.py`, and its copy in `PCalg_wrapper.py`)
  decodes the text graph written by the Tetrad causal-search tool into an
  N x N connectivity matrix.
  - It finds the `Graph Nodes:` and `Graph Edges:` header lines.
  - It counts the node names on the line after `Graph Nodes:`.
  - It measures the edge block, which ends at the first blank line.
  - It fills a zero matrix in place. `A --> B` writes `mat[B][A] = 2` (the
    orientation is read from column to row). `A --- B` writes 1 at both
    `mat[B][A]` and `mat[A][B]`.
  - The two copies are the same code three lines apart. Only the wording of
    one docstring line differs (`PCalgWrapper.py:65`, `PCalg_wrapper.py:62`).
    The `Tetrad` module cites the first copy and `TetradFacts` the second.
- **`pseudoData` and `pseudoEmpiricalData`** generate pseudo-empirical data
  from the linear structural equation model `X = W X + E`, solved as
  `X = pinv(I - W) E`.
  - E is bootstrapped row by row from randomly chosen data columns, then
    standardised.
  - W is either given, or sampled. Sampling draws one signed coefficient per
    counted edge, scatters them at the model's nonzero positions in row-major
    order, and clears the diagonal.
  - `pseudoData` can add a task term `C T`. It returns X transposed, and T
    in task mode. `pseudoEmpiricalData` returns X untransposed.
- **`featureSelectRegression`** uses a connectivity matrix as a mask.
  - It binarises the matrix by `typ`.
  - It lists each node's predictors.
  - It regresses the node on the predictors' data and writes the
    coefficients into that node's row only.

Each piece is imperative in the source, and so is its model:

- The decoder is a `while` scan plus an in-place `for` loop over an
  `array2<int>`.
- The generators fill E row by row in an `array2<real>`, then scatter into
  and clear the diagonal of an `array2<real>` W.
- `featureSelectRegression` fills an `array2<real>` row by row.

Each method is proved equal to a specification function:

- `Tetrad.Decode` and `Tetrad.ApplyLines`
- `SemWeights.Weights`
- `SemNoise.Noise`
- `Generators.PseudoDataSpec` and `Generators.PseudoEmpiricalDataSpec`
- `FeatureSelect.FeatureMatrix`

The `...Facts` modules then prove the properties of those functions.

Randomness enters as a `Generators.Draws` value. It holds the column and
row indices, magnitudes and signs that numpy would have drawn. The ghost
predicates `NoiseDraws`, `RowDraws` and `CoefficientDraws` state which draws
are possible. Three numeric routines enter as function-valued parameters:
`stats.zscore`, `linalg.pinv` and scikit-learn's `LinearRegression`. Each is
constrained only by shape: `zscore` keeps length, `pinv` keeps a square
shape, and the regression returns one coefficient per predictor.

Behaviour of the code as written, which the model keeps:

- The edge-block scan of `tetrad2matrix` tests line 0 first. A file whose
  first line is blank therefore reads no edge at all
  (`TetradFacts.BlankFirstLineReadsNoEdge`).
- The node line is taken from the slice `tet[a:b]` with
  `b = index('Graph Edges:') - 1`. When `Graph Edges:` is line 0, Python
  reads `-1` as "up to the last line" (`TetradFacts.NodeBlock`).
- A node token numbered 0 (such as `X0`) gives index -1. numpy reads that as
  the last row or column. Indices outside `[-N, N)` raise.
- `num_edges` counts the entries equal to 1, while the scatter targets every
  nonzero entry. For a weighted model that was not declared as given, numpy
  raises unless exactly one entry equals 1. With exactly one, it broadcasts
  that single coefficient to every nonzero position
  (`SemWeightFacts.CountedEdgesMismatch`).
- The model is read column to row: the single edge 0 -> 1 of a two-node
  model is `model[1][0] = 1`, and its weight lands at `W[1][0]`. An example
  that puts it at `W[0][1]` contradicts the code
  (`SemWeightFacts.ReferenceScenario`).
- The second test of the `featureSelectRegression` loop is
  `typ == 'parents' or 'symmetric'`, which is always true. Only `parents` and
  `symmetric` reach it, so it behaves as intended
  (`FeatureFacts.ElifAgreesWithIntent`).
- An unknown `typ` leaves `M_bin` unbound, and the call raises before any
  output is built (`FeatureFacts.UnknownTypeFails`).
- In `adjacencies` mode a node that is both parent and child of y is listed
  twice. The second coefficient written, the one for the child listing, is
  the one that remains (`FeatureFacts.WhichListingWins`).

## Model

| member | source | states |
|---|---|---|
| `Tokens.RunLength` | PCalgWrapper.py:72 | the length of the longest prefix made of one character class: every character before it is in the class, the next one is not |
| `Tokens.Runs` | PCalgWrapper.py:86-93 | the runs `str.split()`, `\w*\w` and `\d*\d` return are non-empty and made only of class characters |
| `Tokens.RunsKeepEverything` | PCalgWrapper.py:72 | no run is lost or invented: the runs, concatenated, are exactly the class characters of the line in order |
| `Tokens.RunsAfterGap` | PCalgWrapper.py:89 | after a prefix without class characters, a maximal run is the first token returned |
| `Tokens.RunsOfGap` | PCalgWrapper.py:89-90 | a line without class characters yields no token |
| `Tokens.NodeIndexIsFirstDigitRun` | PCalgWrapper.py:89-94 | a node token's index is the value of its first digit run minus one, whatever follows that run |
| `Tokens.NodeIndexFailsWithoutDigit` | PCalgWrapper.py:89-90 | reading the node index fails (IndexError on `n1[0]`) exactly when the token has no digit |
| `Tokens.NodeIndexExample` | PCalgWrapper.py:90 | `X12` names node 11 |
| `Tetrad.IndexOf` | PCalgWrapper.py:69-70 | `list.index`: the position found holds the line and no earlier line does; None exactly when no line matches |
| `Tetrad.BlankFrom` | PCalgWrapper.py:78-80 | the first blank line at or after a position, or the end of the file, with every line before it non-blank |
| `Tetrad.PyIndex` | PCalgWrapper.py:100-103 | numpy's reading of a possibly negative index into an axis of length N lies in `[0, N)` |
| `Tetrad.IntZeros` | PCalgWrapper.py:82-83 | `np.zeros((N, N))` is N x N and all zero |
| `Tetrad.ApplyLines` | PCalgWrapper.py:85-103 | applying the edge lines keeps the matrix N x N; a failure names a line of the block, as a malformed line or an out-of-range node |
| `Tetrad.Header` | PCalgWrapper.py:69-74 | the header part fails only with one of its three exceptions; on success the edges start at an index q with 1 <= q <= the number of lines, and q equals the number of lines (no edge line) when `Graph Edges:` is the last line |
| `Tetrad.ScanEdgeBlock` | PCalgWrapper.py:74-80 | the `while` loop's `fi` is 0 for a blank first line; otherwise it is the first blank line at or after q, or the end |
| `Tetrad.WriteEdge` | PCalgWrapper.py:96-103 | the cell writes of one edge line done in place agree with the matrix update, and report the out-of-range index numpy raises on |
| `Tetrad.EdgeLine` | PCalgWrapper.py:86-103 | one round of the `for` loop fails exactly when the line fails to decode, with that line's error; otherwise the array holds the updated matrix |
| `Tetrad.FailureSticks` | PCalgWrapper.py:85-103 | once a line raises, the later lines do not change the outcome |
| `Tetrad.EdgeLines` | PCalgWrapper.py:85-103 | the `for` loop leaves in the array exactly the matrix the lines q .. fi-1 produce, or returns the exception the first failing line raises |
| `Tetrad.FillEdges` | PCalgWrapper.py:82-105 | allocating the zero matrix and running the loop returns a fresh array holding the decoded matrix, or the exception |
| `Tetrad.TetradToMatrix` | PCalgWrapper.py:57-105 | the decoder returns a fresh N x N array whose cells are `Decode` of the lines, and raises exactly the exception `Decode` names |
| `TetradFacts.EdgeLineEffect` | PCalg_wrapper.py:93-100 | `-->` writes 2 at (head, tail); `---` writes 1 at (head, tail) and (tail, head); other glyphs change nothing; no other cell changes |
| `TetradFacts.ApplyLinesKeepsCodes` | PCalg_wrapper.py:82-100 | applying edge lines keeps every cell in {0, 1, 2} |
| `TetradFacts.StepLineKeepsCodes` | PCalg_wrapper.py:82-100 | one edge line keeps every cell in {0, 1, 2} |
| `TetradFacts.DecodedCodes` | PCalg_wrapper.py:80-100 | every cell of the decoded matrix is 0, 1 or 2 |
| `TetradFacts.NodeBlock` | PCalg_wrapper.py:66-69 | for `Graph Nodes:` at g and `Graph Edges:` at e, the node slice `tet[g+1:e-1]` is non-empty exactly when g + 2 < e (for e >= 1), or g + 2 < len(tet) when e is 0 and Python reads the bound -1 as "up to the last line"; when non-empty it starts with the line after `Graph Nodes:` |
| `TetradFacts.HeaderOfIndices` | PCalg_wrapper.py:66-71 | once both headers are found at g and e, the header part fails exactly when the node slice is empty, that is when g + 2 >= e for e >= 1, or g + 2 >= len(tet) for e == 0 (so a `Graph Edges:` before `Graph Nodes:` always fails); otherwise it gives N from the line after `Graph Nodes:` and e + 1 as the first edge line |
| `TetradFacts.HeaderNeedsBoth` | PCalg_wrapper.py:66-67 | the header part succeeds only when both header lines are present |
| `TetradFacts.DecodeHeaderErrors` | PCalg_wrapper.py:66-69 | the decoder raises on a missing `Graph Nodes:`, on a missing `Graph Edges:`, and on an empty node slice (exactly when it is empty) |
| `TetradFacts.HeaderFields` | PCalg_wrapper.py:66-71 | on success N is the number of word tokens on the line after `Graph Nodes:`, and the edges start right after `Graph Edges:` |
| `TetradFacts.HeaderFieldsAt` | PCalg_wrapper.py:66-71 | for headers found at g and e, success means the line after `Graph Nodes:` exists, N is its number of word tokens and the edges start at e + 1 |
| `TetradFacts.DecodedShape` | PCalg_wrapper.py:69-80 | the decoded matrix is N x N, with N the number of word tokens on the line after `Graph Nodes:` |
| `TetradFacts.BlankFirstLineReadsNoEdge` | PCalg_wrapper.py:72-77 | with a blank first line no edge line is read: the decoder raises only a header exception, or returns all zeros |
| `TetradFacts.LastLineWins` | PCalg_wrapper.py:82-100 | the last edge line read leaves its own code in the cells it names, whatever earlier lines wrote |
| `TetradFacts.IndexOfPrefix` | PCalg_wrapper.py:66-67 | `list.index` depends only on the lines up to the first match |
| `TetradFacts.ApplyLinesPrefix` | PCalg_wrapper.py:82-83 | the matrix built from lines lo .. hi-1 depends only on the first hi lines |
| `TetradFacts.LinesAfterBlankIgnored` | PCalg_wrapper.py:74-77 | two files that agree up to the blank line ending the edge block decode the same, whatever follows it |
| `TetradFacts.HeaderPrefix` | PCalg_wrapper.py:66-71 | the header part depends only on the lines up to the one after the node line and up to `Graph Edges:` |
| `TetradFacts.DecodePrefix` | PCalg_wrapper.py:66-100 | two files with the same header result that agree up to the end of the edge block decode the same |
| `TetradFacts.EdgeBlockPrefix` | PCalg_wrapper.py:75-77 | where the edge block ends depends only on the lines up to that end |
| `SemNoise.Bootstrap` | pseudoData.py:59-61 | a bootstrap sample of column c has one value per drawn row, and every value is a value of that column |
| `SemNoise.Noise` | pseudoData.py:45-61 | E is num_nodes x sample_size, and row n is the bootstrap sample of the column drawn for node n |
| `SemNoise.ZScoreRows` | pseudoData.py:63 | standardisation is applied row by row and keeps every row's length |
| `SemNoise.BootstrapNoise` | pseudoEmpiricalData.py:31-47 | the noise loop fills a fresh num_nodes x sample_size array with exactly E |
| `SemNoise.NoiseRowFromOneColumn` | pseudoData.py:55-61 | the column drawn for row n lies in `[0, data.shape[1])`, and every entry of row n comes from that column |
| `SemWeights.RowNonzeros` | pseudoData.py:80 | the nonzero positions of a row, each really nonzero, in strictly increasing column order |
| `SemWeights.NonzerosUpTo` | pseudoData.py:80 | `model.nonzero()`: only nonzero positions, in strictly row-major order |
| `SemWeights.RankInRange` | pseudoData.py:80 | each nonzero position (i, j) is the entry of index Rank(i, j) in `model.nonzero()` |
| `SemWeights.BinaryCountIsNonzeros` | pseudoData.py:68-80 | for a 0/1 model, `np.sum(model == 1)` equals the number of nonzero positions |
| `SemWeights.Coefficients` | pseudoData.py:77 | coefficient k is sign k times magnitude k |
| `SemWeights.ScatterValues` | pseudoData.py:80 | numpy's assignment of E values to K positions: in order when E == K, broadcast when E == 1, and an error exactly otherwise |
| `SemWeights.ScatteredWeights` | pseudoData.py:80-82 | the scattered-then-cleared W is N x N |
| `SemWeights.ScatterInto` | pseudoData.py:80 | the in-place scatter puts value l on the l-th nonzero position and leaves every cell the model has zero at zero |
| `SemWeights.FillDiagonal` | pseudoData.py:82 | `np.fill_diagonal(W, 0)` zeroes the diagonal and changes nothing else |
| `SemWeights.ScatteredCells` | pseudoEmpiricalData.py:71-73 | an array zero on the diagonal and off the model's support, holding value l at the l-th nonzero off-diagonal position, holds ScatteredWeights |
| `SemWeights.SampleWeights` | pseudoData.py:65-82 | the `weights_given == False` branch on arrays returns a fresh array holding `Weights`, or exactly the exception `Weights` names |
| `SemWeightFacts.RankOf` | pseudoData.py:80 | nonzero positions are distinct: the k-th one has rank k |
| `SemWeightFacts.SampledSupport` | pseudoData.py:67-82 | for any model, sampled W is N x N and zero on the diagonal and wherever the model is zero |
| `SemWeightFacts.EdgeCoefficientPlacement` | pseudoData.py:68-82 | for a 0/1 model and a valid `p_neg`, sampling succeeds, draws one coefficient per nonzero position, and the k-th coefficient lands at the k-th nonzero position (off the diagonal) |
| `SemWeightFacts.WeightAt` | pseudoEmpiricalData.py:55-73 | one cell of sampled W for a 0/1 model: 0 on the diagonal and off the model, otherwise the signed coefficient of the edge's rank |
| `SemWeightFacts.SignedBetween` | pseudoData.py:71-77 | a magnitude in the sampling range times a sign of ±1 is, up to sign, in the range; with `p_neg` 0 the signed value itself lies between `min_coeff` and `max_coeff`, with `p_neg` 1 its negation does; it is nonzero when the range excludes 0 |
| `SemWeightFacts.CellBounds` | pseudoEmpiricalData.py:58-73 | for one cell: zero off the support and on the diagonal; ± a magnitude in range on each edge; nonzero exactly on the edges when the range excludes 0 |
| `SemWeightFacts.WeightBounds` | pseudoData.py:67-82 | for every cell of sampled W: zero on the diagonal and off the model, a drawn magnitude up to sign on each edge, and support equal to the off-diagonal edges when the range excludes 0 |
| `SemWeightFacts.CountedEdgesMismatch` | pseudoEmpiricalData.py:55-71 | when `np.sum(model == 1)` differs from the number of nonzero entries, sampling raises unless exactly one edge was counted; then that coefficient is on every nonzero off-diagonal cell |
| `SemWeightFacts.ReferenceScenario` | pseudoData.py:20 | the edge 0 -> 1 (`model[1][0] = 1`) with coefficient 0.3 gives `W = [[0, 0], [0.3, 0]]` |
| `Linear.Identity` | pseudoData.py:90 | `np.identity(n)` is n x n with ones exactly on the diagonal |
| `Linear.Sub` | pseudoData.py:92 | `I - W` is elementwise and keeps the shape |
| `Linear.Add` | pseudoData.py:109 | `np.dot(C, T) + E` is elementwise and keeps the shape |
| `Linear.MatMul` | pseudoData.py:92 | `np.dot` of an n x k and a k x s matrix is n x s |
| `Linear.IdentityLeft` | pseudoEmpiricalData.py:81 | multiplying by the identity leaves a matrix unchanged |
| `Generators.Solve` | pseudoData.py:92 | `np.dot(linalg.pinv(I - W), E)` is num_nodes x sample_size |
| `Generators.BuildWeights` | pseudoEmpiricalData.py:52-76 | the weight step returns `Weights`: sampled through the arrays when the weights are not given, the model itself otherwise |
| `Generators.PseudoData` | pseudoData.py:7-115 | `pseudoData` step by step returns exactly `PseudoDataSpec` of its inputs and draws |
| `Generators.PseudoEmpiricalData` | pseudoEmpiricalData.py:4-85 | `pseudoEmpiricalData` step by step returns exactly `PseudoEmpiricalDataSpec` of its inputs and draws |
| `GeneratorFacts.WeightErrors` | pseudoData.py:65-85 | the weight step raises exactly when weights are sampled and either `p_neg` is outside [0, 1] (bad probability, exactly then) or the counted coefficients cannot be assigned |
| `GeneratorFacts.PseudoDataShapes` | pseudoData.py:91-115 | `pseudoData` raises exactly when its weight step does; otherwise X is sample_size x num_nodes, W is num_nodes x num_nodes, and T is returned, as sample_size x 1, exactly in task mode |
| `GeneratorFacts.PseudoEmpiricalDataShapes` | pseudoEmpiricalData.py:80-85 | `pseudoEmpiricalData` raises exactly when its weight step does; otherwise X is num_nodes x sample_size and no T is returned |
| `GeneratorFacts.EmpiricalIsUntransposed` | pseudoEmpiricalData.py:20 | from the same draws, without a task, `pseudoEmpiricalData`'s X is `pseudoData`'s X transposed back, with the same W |
| `GeneratorFacts.WeightsGivenPassThrough` | pseudoData.py:84-85 | with `weights_given`, both generators succeed and return the model verbatim as W, diagonal included |
| `GeneratorFacts.TaskVariableChoice` | pseudoData.py:99-107 | in task mode the series is the given task variable when it is non-empty, and otherwise a bootstrap of one existing data column; T is its standardisation |
| `GeneratorFacts.NoEdgesNoMixing` | pseudoEmpiricalData.py:78-81 | with an all-zero model given as weights, and `pinv(I) = I`, X is the standardised noise itself |
| `GeneratorFacts.ZeroModelSolve` | pseudoEmpiricalData.py:80-81 | with an all-zero W and `pinv(I) = I`, `np.dot(linalg.pinv(I - W), E)` is E itself |
| `FeatureSelect.ModeOf` | featureSelectRegression.py:21-25 | exactly the strings `parents`, `adjacencies` and `symmetric` are understood, each as its own mode |
| `FeatureSelect.Binarise` | featureSelectRegression.py:21-25 | `M_bin` keeps M's shape; it is `M == 2` for `parents` and `adjacencies`, `M != 0` for `symmetric` |
| `FeatureSelect.Where` | featureSelectRegression.py:35-36 | `np.where` lists exactly the true positions of a mask, in increasing order |
| `FeatureSelect.Predictors` | featureSelectRegression.py:33-37 | every predictor index is a node of the matrix |
| `FeatureSelect.SelectColumns` | featureSelectRegression.py:39 | `D[:, ix]` has one row per sample and its k-th column is data column ix[k] |
| `FeatureSelect.ScatterRow` | featureSelectRegression.py:44 | `row[ix] = vals`: unlisted cells keep their value, and each index gets the value of its last listing |
| `FeatureSelect.FeatureMatrix` | featureSelectRegression.py:21-57 | the result fails exactly for an unknown `typ`; otherwise it is num_nodes x num_nodes |
| `FeatureSelect.WriteRow` | featureSelectRegression.py:54 | the in-place write `M_feat[y, ix] = coef` on a zero row leaves ScatterRow in row y and changes no other row |
| `FeatureSelect.FitNode` | featureSelectRegression.py:33-54 | one loop round, with the always-true second test as written, writes row y of the result and changes no other row |
| `FeatureSelect.FeatureSelectRegression` | featureSelectRegression.py:4-57 | the loop over y fills a zero num_nodes x num_nodes array so that it holds exactly `FeatureMatrix`, or the call fails on an unknown `typ` |
| `FeatureFacts.UnknownTypeFails` | featureSelectRegression.py:21-28 | the call fails exactly when `typ` is none of the three strings |
| `FeatureFacts.ElifAgreesWithIntent` | featureSelectRegression.py:46 | for every `typ` that reaches the second test, the always-true test as written and the intended `typ in (parents, symmetric)` agree |
| `FeatureFacts.PredictorsAreSelected` | featureSelectRegression.py:33-48 | j is a predictor of y exactly when M selects it: an entry 2 at (y, j) for `parents`, at (y, j) or (j, y) for `adjacencies`, a nonzero entry at (y, j) for `symmetric` |
| `FeatureFacts.MaskContainment` | featureSelectRegression.py:32-54 | a nonzero result entry (y, j) means M selects j as a predictor of y |
| `FeatureFacts.SkippedRowIsZero` | featureSelectRegression.py:42-51 | when the predictors' data has no nonzero entry, row y stays all zero |
| `FeatureFacts.NoPredictorNoRow` | featureSelectRegression.py:40-51 | a node that M selects nothing for keeps an all-zero row |
| `FeatureFacts.CoefficientPlacement` | featureSelectRegression.py:43-54 | when the regression runs, the k-th coefficient lands at the column of the k-th predictor in row y, unless that predictor is listed again later |
| `FeatureFacts.WhichListingWins` | featureSelectRegression.py:37-44 | outside `adjacencies` no predictor is listed twice; in `adjacencies` the children listings are never overwritten |

## Left out

- `PCalgRun` and `PCalg_run` build a shell command and call an external Java tool. This is I/O; they are not modelled.
- `open(fname)` and `line.rstrip('\n')` in `tetrad2matrix`: the decoder takes the file's lines, already read and stripped.
- `\w` and `\d` are restricted to ASCII letters, digits and underscore. Python's Unicode categories are not modelled.
- Python's `int` of a digit run is read with ASCII digits only. Non-ASCII decimal digits, which `\d` and `int` also accept, are not modelled.
- Only the first and third characters of the arrow glyph are read, as in the source. A glyph shorter than three characters is a malformed line (Python's IndexError).
- Floating point: every real quantity (data, weights, coefficients, `p_neg`) is an exact `real`. Rounding, NaN and infinities are not modelled.
- `stats.zscore`, `linalg.pinv` and scikit-learn's `LinearRegression` are function-valued parameters constrained by shape. Their numerical results are not modelled. The properties of X state its shape, its orientation and the order in which the terms are combined. X's values are stated in one case only: a zero model given as weights, with `pinv` assumed to map the identity to itself (`GeneratorFacts.NoEdgesNoMixing`).
- `np.dot` is the exact sum of products. Its values are used where the left factor is the identity (`Linear.IdentityLeft`, which `GeneratorFacts.NoEdgesNoMixing` relies on). Elsewhere only the shapes of its results are used.
- The random number generator: draws are an input, and the distributions (uniform magnitudes, the approximate share `p_neg` of negative signs) are not modelled. Only which draws are possible is stated.
- numpy's errors when drawing from empty data (no column, or no row for a positive sample size) appear as "no valid draws exist" rather than as an error result.
- `SemNoise.NoiseDraws`: the column count of the data is the length of its first row, so data with no rows has no columns here. For data of shape (0, k) with k >= 1 and `sample_size` 0, numpy draws a column and an empty sample and succeeds; the model admits no draws for that input when `num_nodes` >= 1.
- Generators.PseudoData: `task_variable` must be empty or of length `sample_size`, and `task_connectivity` must be num_nodes x 1. numpy broadcasting of other shapes, and the errors it raises, are not modelled.
- Generators.PseudoData: a non-empty `taskVariable` stands for the single row of a 1 x sample_size array, the shape the docstring asks for. A 1-D array of length `sample_size` makes `stats.zscore(task_variable, axis=1)` raise AxisError (`pseudoData.py:107`); that error is not modelled.
- Generators.PseudoData: the model must be square (num_nodes x num_nodes), as the docstring's "binary square matrix" says, and so must it for `Generators.PseudoEmpiricalData`. numpy also accepts an N x M model with M < N when weights are sampled; such models are not modelled.
- Generators.PseudoData: when neither `weights_given == False` nor `weights_given == True` holds for a non-boolean `weights_given`, Python raises an unbound `W`. `weights_given` is a `bool` here.
- Generators.PseudoData: `task` is a `bool` here. A value that equals neither `False` nor `True` fails both tests (`pseudoData.py:91`, `pseudoData.py:99`), and Python then returns `None`; that outcome is not modelled.
- Python's default arguments are not modelled; every argument is explicit. The defaults are `sample_size = 1000`, `weights_given = False`, `min_coeff = 0.1`, `max_coeff = 0.4`, `p_neg = 0.1`, `task = False`, `task_variable = []` and `task_connectivity = []` for `pseudoData`; `sample_size = 1000`, `weights_given = False`, `min_coeff = 0.3`, `max_coeff = 0.8` and `p_neg = 0.3` for `pseudoEmpiricalData`; and `typ = 'symmetric'` for `featureSelectRegression`.
- `tetrad2matrix` builds a float64 `np.zeros` matrix. The model uses an `array2<int>`, because the decoder only ever writes the codes 0, 1 and 2, which float64 holds exactly.
- Generators.PseudoData, Generators.PseudoEmpiricalData: `weights_given` returns the model itself as W, and later changes to the caller's array would show through W. Aliasing is not modelled, since the model is a value.
- The noise and weight arrays are modelled as `array2<real>`. Once filled, they are read out as values for the solve, which is expression-style in the source.
- Errors that scikit-learn may raise inside a fit (for example on NaN input) are not modelled. The regression is only asked to return one coefficient per predictor. An empty `M` and data `D` with no rows are modelled: the loop runs no round for the first, and for the second no predictor data is nonzero, so every row stays zero (`FeatureFacts.SkippedRowIsZero`).
- FeatureSelect.FeatureSelectRegression: `M` must be square and the data `D` must have exactly num_nodes columns, one per node of `M`. Two behaviours of other shapes are therefore not modelled. In `parents` and `symmetric` mode, the boolean mask `M_bin[y,:]` indexing `D` raises IndexError when its length differs from `D`'s width. In `adjacencies` mode, `D[:, both]` accepts a wider `D` and regresses on the columns the mask names, ignoring the others.
- FeatureSelect.FeatureMatrix: the same shape requirement on `M` and `D`, which `FeatureSelect.FeatureRow` and `FeatureSelect.FitNode` share.
- In `adjacencies` mode numpy's fancy-index assignment with a repeated index is taken to keep the last value written. numpy does not document the order.
- `plot_activations.py` (plotting with matplotlib) is not part of this model.
