# AlphaFold 3 paper algorithms: the exact core

A Dafny model of the discrete and linear-algebraic parts of
`paper_algs/paper_algorithms.py`. These are the parts of the AlphaFold 3 algorithms
that do not depend on learned weights:

- **Relative position encoding** (Algorithm 3). Each ordered pair of tokens gets three
  clipped, sentinel-coded offsets:
  - the residue offset inside a chain;
  - the token offset inside a residue;
  - the symmetry-copy offset between chains.

  Each offset is one-hot encoded. A same-entity bit sits between the token block and the
  chain block.
- **Nearest-bin selection and one-hot** (Algorithm 4). The same rule also bins the
  distances in the confidence head. The chosen bin is `argmin_k |x - bins[k]|`, and ties
  go to the lowest index.
- **Sequence-local atom attention mask** (Algorithm 7). Subset centres define query
  blocks and key blocks. A pair of atoms gets bias `0` when some centre covers both,
  and `-1e10` otherwise.
- **Atom-to-token pooling and token-to-atom broadcast** (Algorithm 5 and
  `DiffusionModule.forward`). Pooling is a masked mean over consecutive windows of `w`
  atoms. The broadcast copies token `t` to atoms `t*w .. t*w+w-1`.
- **Weighted rigid alignment** (Algorithm 28), in these steps:
  1. the weighted centroids;
  2. centring;
  3. the weighted cross-covariance;
  4. the rotation formed from the SVD factors, with the reflection fix;
  5. the final rotate-and-translate.

The modules follow the program's pieces:

| module | file | contents |
|---|---|---|
| `Wrappers` | `wrappers.dfy` | `Option` and `Result` |
| `Binning` | `binning.dfy` | nearest bin, one-hot, distance binning |
| `RelPos` | `relative_position.dfy` | relative position encoding |
| `WindowMask` | `window_mask.dfy` | attention bias of the atom transformer |
| `Pooling` | `pooling.dfy` | windows, masked mean pooling, broadcast, the inline pooling |
| `Linalg` | `linalg.dfy` | 3-vectors, 3x3 matrices, determinant |
| `RigidAlign` | `rigid_align.dfy` | weighted rigid alignment |

Numbers are Dafny `real` (exact) where the program uses float32 tensors. Tensors are
sequences, and one batch element is modelled at a time except where the batch matters:
`RigidAlign.Rotations` and `RigidAlign.AlignBatch`. The SVD is a parameter: `Align`
takes any function from the covariance matrix to a pair of factors `U`, `V`. Every
property proved about alignment therefore holds whatever factors are supplied.

Where the code cannot do what it evidently means, the model follows the intent and says
so under "Left out":
- the `one_hot` calls in the relative position encoding;
- the broadcasting in the window mask.

The inline pooling of `DiffusionModule.forward` is a genuine defect. It is modelled both
as written and as corrected; see "Findings".

## Model

| member | source | states |
|---|---|---|
| `Binning.NearestBin` | paper_algs/paper_algorithms.py:160-164 | for a non-empty bin list, returns an index in range whose bin is at least as close to `x` as every other bin, and strictly closer than every bin before it (the lowest index wins a tie, as `argmin` does) |
| `Binning.FirstNearestUnique` | paper_algs/paper_algorithms.py:162 | the lowest-index nearest bin is unique, so any index meeting that description is the one `NearestBin` returns |
| `Binning.OneHotAt` | paper_algs/paper_algorithms.py:161-163 | the vector of length `n` with a 1 exactly at position `k` and 0 everywhere else |
| `Binning.OnesOfOneHot` | paper_algs/paper_algorithms.py:161-163 | a one-hot vector holds exactly one 1 when the index is in range, and none otherwise |
| `Binning.FirstOne` | paper_algs/paper_algorithms.py:163 | the decoder of a one-hot vector: the position of its first 1, or the length when there is none |
| `Binning.OneHotAtDecodes` | paper_algs/paper_algorithms.py:163 | reading back the position of the 1 recovers the encoded index |
| `Binning.OneHot` | paper_algs/paper_algorithms.py:160-164 | `one_hot(x, bins)` has one entry per bin, every entry is 0 or 1, and entry `i` is 1 if and only if bin `i` is the lowest-index nearest bin, so there is exactly one 1 |
| `Binning.NearestIntegerBin` | paper_algs/paper_algorithms.py:137 | with bins `0..n-1`, an integer offset `d < n` is its own nearest bin |
| `Binning.OneHotIntegerBins` | paper_algs/paper_algorithms.py:137 | the nearest-bin one-hot over bins `0..n-1` equals the standard one-hot of `d` with width `n`, which is how the encoding uses `one_hot` |
| `Binning.DistanceBinIndices` | paper_algs/paper_algorithms.py:1345 | the distance bin index tensor has the distance matrix's shape, and every entry is the lowest-index nearest distance bin |
| `RelPos.Clip` | paper_algs/paper_algorithms.py:134 | `torch.clip` keeps a value inside `[lo, hi]` unchanged and maps values below or above to the nearer bound |
| `RelPos.ClippedOffset` | paper_algs/paper_algorithms.py:134 | an offset shifted by `m` and clipped lies in `[0, 2m]`: an offset in `[-m, m]` lands on `diff + m`, smaller offsets saturate at `0` and larger ones at `2m` |
| `RelPos.ClippedOffsetMirror` | paper_algs/paper_algorithms.py:134 | opposite offsets land on bins mirrored about `m`: their sum is `2m` |
| `RelPos.DRes` | paper_algs/paper_algorithms.py:132-136 | `d_res` lies in `[0, 2*r_max+1]` and equals the sentinel `2*r_max+1` exactly when the tokens are in different chains; within a chain it is `res_i - res_j + r_max` for offsets in `[-r_max, r_max]`, and `0` or `2*r_max` beyond |
| `RelPos.DToken` | paper_algs/paper_algorithms.py:129-143 | `d_token` lies in `[0, 2*r_max+1]`, equals the sentinel exactly when the tokens are not in the same residue of one chain, and so always does across chains; within a residue it is `tok_i - tok_j + r_max` for offsets in `[-r_max, r_max]`, and `0` or `2*r_max` beyond |
| `RelPos.DChain` | paper_algs/paper_algorithms.py:146-150 | `d_chain` lies in `[0, 2*s_max+1]` and equals the sentinel `2*s_max+1` exactly when the tokens are in the same chain; across chains it is `sym_i - sym_j + s_max` for offsets in `[-s_max, s_max]`, and `0` or `2*s_max` beyond |
| `RelPos.DResAntisymmetric` | paper_algs/paper_algorithms.py:132-136 | within one chain `d_res[i][j] + d_res[j][i] == 2*r_max` |
| `RelPos.DTokenAntisymmetric` | paper_algs/paper_algorithms.py:139-143 | within one residue `d_token[i][j] + d_token[j][i] == 2*r_max` |
| `RelPos.DChainAntisymmetric` | paper_algs/paper_algorithms.py:146-150 | across chains `d_chain[i][j] + d_chain[j][i] == 2*s_max` |
| `RelPos.DiagonalCentred` | paper_algs/paper_algorithms.py:128-150 | on the diagonal `d_res == d_token == r_max`, and `d_chain` is the sentinel |
| `RelPos.PairRelations` | paper_algs/paper_algorithms.py:122-130 | the same-chain, same-residue and same-entity masks are reflexive and symmetric, and a shared residue number counts only inside one chain |
| `RelPos.EncodeOffset` | paper_algs/paper_algorithms.py:137 | the one-hot of an in-range offset is the standard one-hot of that offset and holds exactly one 1 |
| `RelPos.ConcatBlocks` | paper_algs/paper_algorithms.py:153-155 | concatenating blocks of widths `2r+2`, `2r+2`, `1`, `2s+2` gives width `4r+2s+7`, and slicing at the block boundaries gives back each block |
| `RelPos.LayoutDecodes` | paper_algs/paper_algorithms.py:153-155 | the concatenation of three exact one-hots of in-range bins around the entity bit has width `4*r_max+2*s_max+7` and decodes back to those bins and that bit |
| `RelPos.PairFeature` | paper_algs/paper_algorithms.py:137-155 | a pair's feature vector has width `4*r_max+2*s_max+7`, exactly one 1 in each of the three one-hot blocks, and the same-entity bit in between; it is exactly the one-hot of `d_res`, then of `d_token`, the bit, then the one-hot of `d_chain` |
| `RelPos.PairFeatureDecodes` | paper_algs/paper_algorithms.py:137-155 | decoding a pair's feature recovers `d_res`, `d_token`, the same-entity flag and `d_chain` (the encoding loses nothing) |
| `RelPos.EncodeRow` | paper_algs/paper_algorithms.py:153-155 | row `i` of the encoding has one feature per token, each of full width, equal to the three exact one-hots and the entity bit of the pair `(i, j)` and decoding to its bins |
| `RelPos.Encode` | paper_algs/paper_algorithms.py:115-156 | the encoding is an `n x n` grid of width-`4r+2s+7` features, and entry `(i, j)` is the one-hot layout of the bins of tokens `i` and `j` and decodes back to them |
| `WindowMask.InWindowWider` | paper_algs/paper_algorithms.py:327-328 | an atom inside a centre's query window (half-width `n_queries / 2`) is inside the wider key window of the same centre |
| `WindowMask.SharedCentre` | paper_algs/paper_algorithms.py:322-331 | finds a centre whose query window holds `l` and whose key window holds `m` exactly when such a centre exists |
| `WindowMask.Bias` | paper_algs/paper_algorithms.py:327-332 | the bias is always `0` or `-1e10`, and it is `0` if and only if some centre covers the query and the key |
| `WindowMask.BiasMatrix` | paper_algs/paper_algorithms.py:322-332 | `beta_lm` is `n x n`, and each entry has the `Bias` property for its pair |
| `WindowMask.CoveredQuerySeesItself` | paper_algs/paper_algorithms.py:327-331 | when `n_keys >= n_queries`, a query some centre covers is a valid key of its own row, so the row is not fully masked |
| `WindowMask.CoveringCount` | paper_algs/paper_algorithms.py:327 | the number of centres whose window holds a position is at most the number of centres |
| `WindowMask.CoveringCountPositive` | paper_algs/paper_algorithms.py:327 | the covering count is positive if and only if some centre covers the position |
| `WindowMask.DefaultQueryBlocksPartition` | paper_algs/paper_algorithms.py:312-327 | with centres 15.5, 47.5, 79.5 and 32-atom query windows, atoms 0..95 are in exactly one query block and atoms from 96 on are in none |
| `WindowMask.DefaultRowsHaveValidKey` | paper_algs/paper_algorithms.py:312-332 | under the default configuration, every query row below 96 has a zero bias on its diagonal |
| `WindowMask.DefaultRowsFromNinetySixMasked` | paper_algs/paper_algorithms.py:316-332 | under the default configuration every entry of every query row from 96 on is `-1e10`: no default centre's query window reaches those atoms |
| `WindowMask.BlockCentres` | paper_algs/paper_algorithms.py:317 | centres continuing the default pattern, one every 32 atoms, `ceil(n_atoms / 32)` of them |
| `WindowMask.DefaultCentresAreBlockCentres` | paper_algs/paper_algorithms.py:317 | for 96 atoms the continued centres are exactly the default `[15.5, 47.5, 79.5]` |
| `WindowMask.BlockCentresCover` | paper_algs/paper_algorithms.py:317-327 | with the continued centres, atom `l` lies in the query window of centre `l / 32` |
| `WindowMask.BlockCentresRowsHaveValidKey` | paper_algs/paper_algorithms.py:317-332 | with the continued centres no query row is fully masked: every diagonal entry is `0` |
| `Pooling.Windows` | paper_algs/paper_algorithms.py:186-187 | splits a sequence into `len / w` windows of exactly `w` elements taken from it |
| `Pooling.WindowsAt` | paper_algs/paper_algorithms.py:186-187 | element `i` of window `t` is element `t * w + i` of the input, so the windows cut the sequence in order with no gap or overlap |
| `Pooling.ValidCount` | paper_algs/paper_algorithms.py:194 | the denominator counts the set mask bits: at most the window size, and zero exactly when none is set |
| `Pooling.PoolWindows` | paper_algs/paper_algorithms.py:186-196 | with the window checks satisfied, pooling yields `n_atom / w` tokens of the feature width |
| `Pooling.Pool` | paper_algs/paper_algorithms.py:180-197 | pooling succeeds exactly when `w > 0`, `w` divides the atom count and every window has a valid atom. A shape failure is reported exactly when the windows do not tile the atoms. On success it returns `n_atom / w` tokens of the feature width |
| `Pooling.PoolEntry` | paper_algs/paper_algorithms.py:186-196 | token `t` of a successful pooling is the masked mean (`MaskedMean`) of window `t`, whose masked entries are zero-filled by `MaskedSum` |
| `Pooling.AllValidPoolable` | paper_algs/paper_algorithms.py:186-189 | a mask of whole windows with every atom valid passes the window checks (`Poolable`) |
| `Pooling.MaskedSumAgree` | paper_algs/paper_algorithms.py:191-193 | the zero-filled sum depends only on the valid entries |
| `Pooling.MaskedSumConst` | paper_algs/paper_algorithms.py:191-193 | when every entry equals `x`, the zero-filled sum is `x` added once per valid entry |
| `Pooling.MaskedSumNone` | paper_algs/paper_algorithms.py:191-193 | with no valid entry the zero-filled sum is zero |
| `Pooling.MaskedSumSingle` | paper_algs/paper_algorithms.py:191-194 | with exactly one valid entry, the count is 1 and the sum is that entry |
| `Pooling.MaskedMean` | paper_algs/paper_algorithms.py:191-196 | one value per feature channel, defined only when the window has a valid atom; its meaning as the mean of the valid atoms is `Pooling.MaskedMeanIsMeanOfValid` |
| `Pooling.MaskedMeanSingle` | paper_algs/paper_algorithms.py:191-196 | with a single valid atom, the count is 1 and the masked mean is that atom's features |
| `Pooling.WindowsAgree` | paper_algs/paper_algorithms.py:186-187 | two atom sequences that agree on the valid atoms agree on the valid atoms of every window |
| `Pooling.PoolIgnoresMaskedAtoms` | paper_algs/paper_algorithms.py:191 | changing the features of masked atoms never changes the pooling result |
| `Pooling.PoolSingleValidAtom` | paper_algs/paper_algorithms.py:191-196 | a window whose only valid atom is its `i`-th pools to exactly that atom's features |
| `Pooling.Valid` | paper_algs/paper_algorithms.py:191 | the valid atoms of a window: as many as the mask count, each taken from the window |
| `Pooling.MaskedSumIsSumOfValid` | paper_algs/paper_algorithms.py:191-193 | zero-filling the masked entries and summing everything equals summing just the valid entries |
| `Pooling.MaskedMeanIsMeanOfValid` | paper_algs/paper_algorithms.py:191-196 | channel `c` of the masked mean is the ordinary mean of channel `c` over the valid atoms |
| `Pooling.PoolIsMeanOfValidAtoms` | paper_algs/paper_algorithms.py:186-196 | channel `c` of token `t` is the ordinary mean of channel `c` over the valid atoms of window `t`, of which there is at least one |
| `Pooling.Repeat` | paper_algs/paper_algorithms.py:908 | `w` copies of one token |
| `Pooling.Broadcast` | paper_algs/paper_algorithms.py:907-908 | broadcasting `n` tokens gives `n * w` atoms, and atom `l` receives token `l / w` |
| `Pooling.WindowsOfBroadcast` | paper_algs/paper_algorithms.py:908 | window `t` of the broadcast atoms is `w` copies of token `t` |
| `Pooling.PoolOfRepeatedWindows` | paper_algs/paper_algorithms.py:186-196 | if every window repeats one token, pooling returns those tokens under any mask the pooler accepts |
| `Pooling.MaskedMeanOfConst` | paper_algs/paper_algorithms.py:191-196 | the masked mean of a constant column is that constant |
| `Pooling.MaskedMeanConst` | paper_algs/paper_algorithms.py:191-196 | the masked mean of copies of one vector is that vector |
| `Pooling.MaskedMeanConstAt` | paper_algs/paper_algorithms.py:191-196 | the same, for one channel |
| `Pooling.PoolBroadcastRoundTrip` | paper_algs/paper_algorithms.py:186-196 | broadcasting tokens to atoms and pooling them back returns the tokens, whatever mask the pooler accepts |
| `Pooling.Invert` | paper_algs/paper_algorithms.py:889 | the complemented mask that the inline `masked_fill` effectively keeps |
| `Pooling.InlinePoolAsWritten` | paper_algs/paper_algorithms.py:883-894 | the inline pooling as written succeeds exactly when the atoms fill `n_tokens` windows of `w`, each with a valid atom. It returns `n_tokens` tokens of the feature width |
| `Pooling.InlinePoolEntry` | paper_algs/paper_algorithms.py:884-894 | once its checks pass, entry `(t, c)` of the inline pooling is the zero-filled sum over the complemented mask of window `t`, divided by the count of valid atoms |
| `Pooling.InlinePoolAllValidIsZero` | paper_algs/paper_algorithms.py:889-894 | with every atom valid, the inline pooling as written returns all-zero tokens |
| `Pooling.InlinePoolDisagreesWithPool` | paper_algs/paper_algorithms.py:889 | on one valid atom with feature 1, the reference pooler returns 1 and the inline pooling returns 0 |
| `Pooling.DiffusionPool` | paper_algs/paper_algorithms.py:883-894 | the inline quotient of lines 889-894 with `mw[t]` in place of `Invert(mw[t])`: it succeeds on the same inputs as the code as written and then equals `Pool`'s result |
| `Pooling.DiffusionPoolBroadcastRoundTrip` | paper_algs/paper_algorithms.py:883-910 | with the mask polarity at line 889 corrected (`DiffusionPool`), pooling the broadcast tokens returns the tokens under any accepted mask; the inline pooling as written does not (`InlinePoolAllValidIsZero`) |
| `Linalg.NegateLastColumn` | paper_algs/paper_algorithms.py:1270-1271 | `V_fixed` keeps the first two columns of `V` and negates the last |
| `Linalg.MatMulComposes` | paper_algs/paper_algorithms.py:1265 | multiplying a point by `U * V` is multiplying it by `U`, then by `V` |
| `Linalg.Det` | paper_algs/paper_algorithms.py:1268 | the determinant expansion equals the scalar triple product of the rows |
| `Linalg.DetNegateLastColumn` | paper_algs/paper_algorithms.py:1271 | negating one column negates the determinant |
| `Linalg.MatMulNegateLastColumn` | paper_algs/paper_algorithms.py:1272 | `U * V_fixed` is `U * V` with its last column negated |
| `Linalg.DetOfCorrectedProduct` | paper_algs/paper_algorithms.py:1265-1272 | `det(U * V_fixed) == -det(U * V)` |
| `RigidAlign.Centroid` | paper_algs/paper_algorithms.py:1251-1252 | the weighted centroid is the point which, scaled by the total weight, gives the weighted sum of the points |
| `RigidAlign.Centre` | paper_algs/paper_algorithms.py:1255-1256 | centring on `c` moves every point so that adding `c` back restores it |
| `RigidAlign.CovarianceShift` | paper_algs/paper_algorithms.py:1259 | translating the second point set by `s` adds the outer product of the first set's weighted sum with `s` to the covariance |
| `RigidAlign.CentredCovarianceShift` | paper_algs/paper_algorithms.py:1255-1259 | when the first set is centred (weighted sum zero), translating the second set leaves the covariance unchanged |
| `RigidAlign.AlignRotation` | paper_algs/paper_algorithms.py:1255-1272 | the rotation built from the centred covariance's factors has non-negative determinant, whatever the factors |
| `RigidAlign.Rotation` | paper_algs/paper_algorithms.py:1265-1272 | the rotation always has non-negative determinant. It is `U * V` when `det(U * V) >= 0`. Otherwise it is `U * V_fixed`, whose determinant is `-det(U * V) > 0` |
| `RigidAlign.Rotations` | paper_algs/paper_algorithms.py:1267-1272 | over a batch, every rotation has non-negative determinant; elements whose `det(U * V)` is non-negative keep `U * V`, and the others become `U * V_fixed`, whose determinant is `-det(U * V)` |
| `RigidAlign.Transform` | paper_algs/paper_algorithms.py:1275 | each image point minus the translation is the original point times the matrix |
| `RigidAlign.Align` | paper_algs/paper_algorithms.py:1250-1275 | the aligned coordinates have one point per predicted point and exactly the weighted centroid of the true coordinates, and the offset between any two aligned points is the offset between the matching predicted points times the rotation; together these fix the output of line 1275, whatever the SVD factors |
| `RigidAlign.AlignBatch` | paper_algs/paper_algorithms.py:1250-1277 | every batch element's aligned coordinates have the weighted centroid of its true coordinates, and their pairwise offsets are the predicted offsets times that element's rotation |
| `RigidAlign.WeightedSumCentre` | paper_algs/paper_algorithms.py:1251-1256 | centring on `c` lowers the weighted sum by `(sum w) * c` |
| `RigidAlign.WeightedSumTranslate` | paper_algs/paper_algorithms.py:1251-1252 | translating by `s` raises the weighted sum by `(sum w) * s` |
| `RigidAlign.WeightedSumTransform` | paper_algs/paper_algorithms.py:1275 | the weighted sum of `p * R + t` is `(sum w p) * R + (sum w) * t`, for any matrix `R` |
| `RigidAlign.CentroidOfScaled` | paper_algs/paper_algorithms.py:1251 | points whose weighted sum is `(sum w) * c` have centroid `c` |
| `RigidAlign.CentredSumZero` | paper_algs/paper_algorithms.py:1251-1256 | points centred on their weighted centroid have weighted sum zero |
| `RigidAlign.CentroidTranslate` | paper_algs/paper_algorithms.py:1251-1252 | translating a point set by `s` moves its weighted centroid by `s` |
| `RigidAlign.CentreTranslate` | paper_algs/paper_algorithms.py:1255-1256 | moving the points and the centre together does not change the centred points |
| `RigidAlign.AlignIgnoresPredictionShift` | paper_algs/paper_algorithms.py:1251-1275 | translating the prediction does not change the aligned result |
| `RigidAlign.TransformShift` | paper_algs/paper_algorithms.py:1275 | a translation larger by `s` moves every image point by `s` |
| `RigidAlign.AlignRotationTruthShift` | paper_algs/paper_algorithms.py:1252-1272 | translating the true coordinates does not change the covariance, so the rotation stays the same |
| `RigidAlign.AlignFollowsTruthShift` | paper_algs/paper_algorithms.py:1252-1275 | translating the true coordinates by `s` translates the aligned result by `s` |

## Left out

- Learned layers are not modelled: the projection `proj` of the pooler and every `Linear`, `LayerNorm`, attention and transition layer. Pooling works on already-projected features.
- Floating point: all arithmetic is exact over `real`, so float32 rounding is not modelled. Neither is the NaN the alignment produces when a weight sum is zero; that case is the precondition `Sum(ws) != 0.0`. A window without a valid atom never reaches the division: the assertions at lines 189 and 887 raise first, and the model returns `Failure(EmptyWindow)` there.
- `torch.svd` and `torch.det` are not modelled as library calls. The factors `U`, `V` come from a parameter, and the determinant is the explicit 3x3 expansion `Linalg.Det`. No orthogonality of `U` or `V` is assumed, so the alignment lemmas hold for any factors.
- `RigidAlign.Rotation`: claims only a non-negative determinant, not the determinant 1 that the comment at line 1267 promises. The rotation is `U * V`, exactly as line 1265 forms it, not the `U * Vᵀ` of the usual Kabsch construction. Whether the result is a proper rotation therefore depends on the factors, which the model does not constrain.
- Batch dimensions are dropped, except for the rotations (`RigidAlign.Rotations`) and the alignment (`RigidAlign.AlignBatch`).
- Reshaping is simplified. `view`/`rearrange` into windows is the recursive `Pooling.Windows`. The inline pooling's `view(-1, n_tokens, w, ...)` is modelled as requiring exactly `n_tokens * w` atoms.
- The `one_hot` calls at lines 137, 144 and 151 pass an integer where a bin list is expected, so `len(bins)` would fail. The model uses the evidently intended standard one-hot of width `2*r_max+2` (or `2*s_max+2`). This is the nearest-bin rule over bins `0..n-1` (`Binning.OneHotIntegerBins`).
- `WindowMask.BiasMatrix` takes the atom count `nAtoms` as a parameter. Line 323 takes `q_l.shape[0]`, which is the batch size for the `(b, n_atom, c_atom)` tensors the callers pass (lines 276 and 302). The model uses the number of atoms, which the comment at line 322 describes.
- Lines 323-329 of the window mask broadcast to shapes that do not give a `(query, centre, key)` tensor. The model states the relation that the comment at line 322 and the `any(dim=1)` over centres at 331 describe: some centre covers both atoms.
- `Binning.NearestBin` and `Binning.DistanceBinIndices` require a non-empty bin list, because `argmin` over an empty dimension raises an error.
- The atom decoder at line 912 is given `atom_feats` rather than the broadcast `atom_decoder_input`. The decoder is a learned layer and is not modelled. Only the broadcast itself (lines 907-908) is.
- The residual additions around the broadcast (line 910) and the token conditioning (line 896) are not modelled. Both are additions of learned-layer outputs.
- `torch.cdist` (line 1343) is not modelled. Distance binning starts from a given distance matrix.

## Findings

| source | as written | input that shows it | evidently intended | confidence | as-written member | corrected member |
|---|---|---|---|---|---|---|
| paper_algs/paper_algorithms.py:889 | `masked_fill(windowed_atom_mask, 0.)` zero-fills the atoms the mask marks valid, while the denominator still counts the valid atoms | one window holding one valid atom with feature `[1.0]`: the result is `[0.0]`, not `[1.0]`; with every atom valid, every token is zero | zero-fill the masked atoms (`~windowed_atom_mask`), as the pooler at line 191 does, so the result is the mean of the valid atoms | high, not executed | `Pooling.InlinePoolAsWritten` | `Pooling.DiffusionPool` |
| paper_algs/paper_algorithms.py:317 | the default subset centres are the three fixed values `[15.5, 47.5, 79.5]`, whatever the number of atoms | under the intended relation of lines 322/331, any input with at least 97 atoms: every entry of query row 96 is `-1e10`, so the row has no valid key | centres continuing every 32 atoms, `15.5 + 32 k`, so that every atom lies in a query block; the comment on line 317 calls the list incomplete | medium, not executed | `WindowMask.DefaultRowsFromNinetySixMasked` | `WindowMask.BlockCentresRowsHaveValidKey` |

The as-written half is `Pooling.InlinePoolAsWritten`. The lemmas
`Pooling.InlinePoolDisagreesWithPool` and `Pooling.InlinePoolAllValidIsZero` exhibit the
discrepancy. The corrected half is `Pooling.DiffusionPool`. It agrees with `Pooling.Pool`,
and `Pooling.DiffusionPoolBroadcastRoundTrip` proves that it inverts the broadcast.

For the subset centres, `WindowMask.DefaultRowsFromNinetySixMasked` shows the fully masked
rows under the defaults. `WindowMask.BlockCentres` continues the pattern; it equals the
defaults for 96 atoms (`WindowMask.DefaultCentresAreBlockCentres`), and with it every query
row keeps a zero on its diagonal (`WindowMask.BlockCentresRowsHaveValidKey`).
