# Verified models of a GW/BSE package

This project models the self-contained algorithms of a GPU GW/BSE package and proves what they are
for. Numbers are exact: reals where the program has floats, pairs of reals where it has complex
numbers, unbounded integers for indices (the one 32-bit index vector of the program is modelled as
such). Each `.dfy` file is one module.

| part of the program | modules |
|---|---|
| Haydock route to optical absorption: Lanczos recursion and continued fraction | `HaydockRecursion`, `HaydockKrylov`, `HaydockDimension`, `HaydockSpectrum`, `HaydockResolvent`, `HaydockMoments`, `HaydockRun` (on `Complex`, `Vectors`) |
| active-subspace selection by character, tie cluster, refusal | `ActiveSelection`, `SelectionStability`, `SelectedStates` (on `Sorting`, `Sequences`) |
| distributed choice of the lowest transitions | `SeedPick` |
| single-slot identity memo of the exact diagonal | `DiagonalMemo` |
| blocked in-place scans with clamped last blocks | `Densifier` (on `Indices`) |
| streaming writer of non-interacting transitions | `NoehWriter` |
| reference page synchroniser | `PageText`, `PageTables`, `PageSync`, `PageFixpoint`, `PageRows`, `PageAcceptance`, `PageCells`, `PageDefaults`, `PageProvisos`, `PageTexts`, `PageNewlines` |
| rank barrier through marker files, install stamp | `RankBarrier`, `RankProgress`, `RankEnding` |
| fat binary walker | `Fatbin` |
| symmetry averaging on a grid | `GridSymmetry` (on `Sums`) |
| grouping of nearly equal eigenvalues | `DegenerateGroups` |
| carrier and plane permutations | `Carriers` |

Objects and loops keep the program's form: `DiagonalMemo.DiagMemo` is a class with the program's
fields, the densifier and the long-range update overwrite an array, `symmetrize_on_grid`,
`group_degenerate`, `parse_fatbin`, `sync`, the listing writers and the spectrum are loops proved
against functions, and the ranks of the performance check are a state machine in which any rank may
take the next step.

## What the proofs found

- `haydock_recursion_block` divides by norms without a guard. A run emits numbers only, for all
  requested steps, exactly when the seed and its images under the lower powers of H are linearly
  independent (`HaydockKrylov.RunIsNumericIffIndependent`); an eigenvector as seed already fails at
  the second step (`HaydockKrylov.EigenvectorSeedFails`), and no run longer than the dimension can succeed
  (`HaydockDimension.LongRunsLoseTheirCoefficients`). A run cut off earlier has the right moments up
  to twice its length (`HaydockMoments.MomentsMatch`). Every alpha enters the spectrum, so a
  broadened spectrum holds numbers under the same condition (`HaydockRun.SpectrumIffIndependent`), and a
  run that ends at its termination gives the exact one (`HaydockRun.SpectrumIsExact`).
- The continued fraction divides by zero for some coefficients exactly when the broadening is zero
  (`HaydockSpectrum.FiniteIffBroadened`), and in one call exactly when a trailing continuant of z - T
  vanishes (`HaydockSpectrum.FiniteIffRegular`).
- No rank of the performance check waits for ever, whatever the others do
  (`RankEnding.EveryWaitCanEnd`, `RankEnding.EveryCollectionCanEnd`), every run can be brought to its end
  (`RankEnding.EveryRunCanEnd`) and every all-GPU run with a place for a stamp to the stamp
  (`RankProgress.StampCanBeReached`).
- The refusal of ambiguous boundaries does its work: on an accepted point a change of the characters
  within half their numerical floor moves no published energy by more than the multiplet tolerance
  (`SelectionStability.AcceptedIsStable`).
- Averaging over rows that are closed under composition need not be symmetric when one operation is
  listed more often than others; `GridSymmetry.RepeatedRowBreaksSymmetry` is the counterexample and
  `GridSymmetry.InvariantIffUniform` the exact condition. A group whose operations share rows on a
  degenerate grid meets it (`GridSymmetry.GroupIsUniform`).
- `group_degenerate` sorts by real part only, so complex eigenvalues can part joined values
  (`DegenerateGroups.OffAxisValueParts`). Its labels are the connected components exactly when no
  pair within the tolerance stands across a gap of the sorted order
  (`DegenerateGroups.ComponentsIffNoPairAcrossGap`), as is always the case for real ones.
- The device branch of the listing writer overflows its 32-bit integers beyond 2^31 transitions, after
  writing that many, and at once when nc nv is 2^31 or more (`NoehWriter.WriteNoeh`).
- `parse_fatbin` ends exactly when it never stands at a header with hsize + fsize = 0
  (`Fatbin.HaltsIffNeverStuck`); the magic number and twelve zero bytes are walked for ever
  (`Fatbin.EmptyHeaderNeverHalts`).
- `sync` leaves the text of an accepted page alone on a second pass exactly when the defaults shown in
  its rows right of the first pipe are clean and hold no newline (`PageTexts.FixpointIffClean`); if
  nothing in the registry holds one, exactly when they are clean (`PageTexts.RegistryFixpoint`). A clean
  default in two lines adds a line on the second pass (`PageNewlines.NewlineDefaultGrows`). Newlines put in
  elsewhere - by a default cut by a pipe after its newline, by a displaced row, by a refusal name - are
  outside the equivalence, because there a page can stay as it is (`PageNewlines.CutNewlineStays`,
  `PageNewlines.DisplacedNewlineStays`, `PageNewlines.RefusalNewlineStays`).
- A table header without a leading pipe whose first cell is "default" makes `sync` accept a page and
  refuse the result (`PageProvisos.DisplacedRowIsRefused`), and `PageFixpoint.SyncIsIdempotent` says
  exactly when. Clean defaults are required of every row right of the first pipe that the page shows,
  rows of a documented table above its generated header included.
- `doc_rows` escapes every text of a generated row but the refusal names: the row has its four columns
  exactly when no name holds an unescaped pipe (`PageRows.DocRowReadsBack`, `PageRows.PipedRefusalIsCut`).
- A page that does not end in an index error is accepted exactly when every row is of a parser key or
  retired, none repeats a row that stands, every hand-written key has a row and every documented table is
  generated from defaults and docs that match (`PageAcceptance.AcceptedIff`); each default is then shown
  on the page (`PageDefaults.HandWrittenIsShown`, `PageDefaults.DocumentedIsShown`).
- `sync` ends in an index error exactly when it reaches a key row with no more cells than the index
  of the default column in force (`PageSync.CrashIffShortRow`, with `PageProvisos.ShortRowCrashes` as
  the smallest page).

## Model

| member | source | states |
|---|---|---|
| HaydockRecursion.RecursionIsOrthonormal | src/bse/absorption_haydock.py:112-131 | For a Hermitian matvec and any number of steps with nonzero norms, all vectors are pairwise orthonormal although each step subtracts only its two predecessors |
| HaydockRecursion.RecursionTridiagonalises | src/bse/absorption_haydock.py:102-133 | The matrix of H between any two of these vectors is the tridiagonal one of the returned alphas and betas |
| HaydockRecursion.BlockRowsAreSeparate | src/bse/absorption_haydock.py:118-133 | The block scan is each polarization's own recursion: rows never mix |
| HaydockRecursion.NewVectorIsOrthogonal | src/bse/absorption_haydock.py:118-127 | One step's vector is orthogonal to every earlier one |
| HaydockDimension.Bessel | src/bse/absorption_haydock.py:112-131 | The recursion's vectors carry at most weight one on any coordinate |
| HaydockDimension.TerminatesWithinDimension | src/bse/absorption_haydock.py:112-133 | A nonzero seed terminates after some m between 1 and the dimension |
| HaydockKrylov.LiveIffIndependent | src/bse/absorption_haydock.py:112-131 | The recursion reaches vector k exactly when no H^j d with j up to k is a combination of the earlier ones |
| HaydockKrylov.RunIsNumericIffIndependent | src/bse/absorption_haydock.py:118-133 | Every alpha and beta of a run is a number exactly when the seed's powers below the number of steps are linearly independent |
| HaydockKrylov.EigenvectorSeedFails | src/bse/absorption_haydock.py:118-133 | With an eigenvector as seed the second alpha and beta are not numbers |
| HaydockKrylov.OrthogonalToPower | src/bse/absorption_haydock.py:118-127 | What is orthogonal to the first recursion vectors is orthogonal to as many powers of H on the seed |
| HaydockDimension.NumbersEndAtTermination | src/bse/absorption_haydock.py:118-133 | A recursion of m vectors emits numbers at its first m steps and at no later one |
| HaydockMoments.MomentsMatch | src/bse/absorption_haydock.py:112-133 | After m live steps the moments <d, H^k d> are the squared norm times the first entry of T^k e1, for every k below 2 m |
| HaydockMoments.TIsSymmetric | src/bse/absorption_haydock.py:118-133 | The tridiagonal matrix of the emitted coefficients is symmetric, as H between mixtures of the vectors |
| HaydockMoments.SameMatrix | src/bse/absorption_haydock.py:291-294 | That matrix is the one the continued fraction inverts |
| HaydockDimension.LongRunsLoseTheirCoefficients | src/bse/absorption_haydock.py:118-133 | From the dimension on, every emitted alpha and beta is not a number |
| HaydockResolvent.ThreeTerm | src/bse/absorption_haydock.py:118-127 | The matvec of a recursion vector, seen from any vector, is the three-term combination of the emitted coefficients |
| HaydockResolvent.ResponseResolves | src/bse/absorption_haydock.py:286-295 | The vector spelled out by the continued fraction's solution solves (z - H) v = d |
| HaydockResolvent.TerminatedFractionIsExact | src/bse/absorption_haydock.py:275-296 | When the recursion terminates, every solution of (z - H) v = d has <d, v> equal to the squared norm times the continued fraction's g, and there is one |
| HaydockSpectrum.SpectrumIsNonNegative | src/bse/absorption_haydock.py:286-295 | With positive broadening every tail has non-positive imaginary part, every denominator imaginary part at least eta, g is at most 1/eta in modulus and epsilon_2 is non-negative, for all coefficients |
| HaydockSpectrum.FiniteIffBroadened | src/bse/absorption_haydock.py:286-294 | No zero denominator for all coefficients and frequencies exactly when eta is nonzero |
| HaydockSpectrum.FiniteIffRegular | src/bse/absorption_haydock.py:291-294 | For given coefficients and any frequency and broadening, zero included, no denominator is zero exactly when no trailing continuant of z - T is |
| HaydockSpectrum.EntryIffNumbers | src/bse/absorption_haydock.py:291-295 | An entry is a number exactly when every coefficient the loop reads is one and no trailing continuant vanishes, which a broadening ensures |
| HaydockSpectrum.SolutionExists | src/bse/absorption_haydock.py:291-294 | The system (z - T) x = e1 has a solution off the real axis |
| HaydockSpectrum.FractionIsTheResolvent | src/bse/absorption_haydock.py:291-294 | g is the first component of every solution of (z - T) x = e1 |
| HaydockSpectrum.ZeroBetaDecouples | src/bse/absorption_haydock.py:291-294 | After a zero beta no later coefficient changes g |
| HaydockSpectrum.EntryScale | src/bse/absorption_haydock.py:286-295 | For every solution x of (z - T) x = e1 the entry times cells is -16 pi times the squared norm times Im x1 |
| HaydockSpectrum.AbsorptionFromHaydock | src/bse/absorption_haydock.py:275-296 | The loops fill every (frequency, polarization) entry from that polarization's coefficients alone, not-a-number ones carried through: any solution x of (z - T) x = e1 gives the entry as -16 pi / cells times the squared norm times Im x1; the zero division and the empty-coefficient index error, exactly when they happen |
| HaydockRun.SpectrumIffIndependent | src/bse/absorption_haydock.py:275-296 | With a broadening the spectrum of a run holds numbers exactly when the seed's powers below the number of steps are linearly independent |
| HaydockRun.SpectrumIsExact | src/bse/absorption_haydock.py:275-296 | A run that ends at its termination gives epsilon_2 times cells = -16 pi Im <d, v> for every solution of (z - H) v = d |
| ActiveSelection.MaskIsJoined | src/bandstructure/fh_interp.py:834-848 | The cumulative products mark exactly the ranks joined to the boundary by links without a gap |
| ActiveSelection.ClusterIsMaximalRun | src/bandstructure/fh_interp.py:821-848 | The cluster is the maximal linked run holding both boundary ranks, and it is empty exactly when the gap exceeds the tolerance |
| ActiveSelection.SelectedHasMostCharacter | src/bandstructure/fh_interp.py:797-814 | Every selected state has more character than every rejected one, lower index first among equals, and the selected values ascend |
| ActiveSelection.NonreturnedIsTheComplement | src/bandstructure/fh_interp.py:800-819 | Returned, held and rejected states partition the physical candidates and the reported minimum is attained over all states not returned |
| ActiveSelection.ClusterIsNarrow | src/bandstructure/fh_interp.py:2315-2323 | A point that is not refused has a cluster narrower than the multiplet tolerance after the inverse |
| ActiveSelection.AcceptedIsIndependentOfTies | src/bandstructure/fh_interp.py:797-850 | On an accepted point any other choice inside the tied cluster gives sorted energies within the multiplet tolerance of the published ones, entry by entry, for an arbitrary inverse |
| SelectionStability.NearSelectionIsAlternative | src/bandstructure/fh_interp.py:797-850 | Characters changed by at most half the floor select all ranks before the cluster and none behind it |
| SelectionStability.AcceptedIsStable | src/bandstructure/fh_interp.py:797-850 | On an accepted point such a change moves every published energy by at most the multiplet tolerance |
| SelectedStates.CountsAreRefused | src/bandstructure/fh_interp.py:773-795 | Each of the three count refusals and success, each if and only if its counts are out of range or in range |
| SelectedStates.PhysicalStatesAreSelected | src/bandstructure/fh_interp.py:773-819 | On the uncut lists: every selected state is a physical one, no physical one left out has more character (lower index first among equals), the values are the given ones in ascending order, and the reported minimum is attained over the physical states not returned |
| SelectedStates.RestIsIgnored | src/bandstructure/fh_interp.py:780-781 | Candidates at or beyond the physical count change nothing |
| SelectedStates.FloorIs | src/bandstructure/fh_interp.py:821-833 | The numerical floor is 64 spacings per ranked candidate times the larger of one and the largest modulus |
| SelectedStates.RefusedIffWide | src/bandstructure/fh_interp.py:2308-2324 | A point is refused if and only if its gap is not above the floor and two states of its cluster are more than 1 meV apart after the inverse |
| SelectedStates.PointIsIndependentOfTies | src/bandstructure/fh_interp.py:2308-2393 | At an accepted point any other choice inside the cluster is one of physical states and gives published energies within 1 meV, entry by entry |
| SelectedStates.PointIsStable | src/bandstructure/fh_interp.py:2308-2393 | At an accepted point characters changed by at most half the floor on the physical states, and at will on the others, move no published energy by more than 1 meV |
| ActiveSelection.PublishPath | src/bandstructure/fh_interp.py:2294-2393 | The path is refused exactly when a live q point is unsafe, and otherwise publishes the sorted, cut energies of the first nq rows; padding rows cannot refuse it |
| SeedPick.CutEveryPart | src/bse/bse_davidson_helpers.py:180-185 | Keeping the first n of every sorted shard, gathering and sorting again gives the first n of all pairs |
| SeedPick.PicksMatchReference | src/bse/bse_davidson_helpers.py:160-187 | The picks are the n lowest (score, id) pairs of the logical window, for every mesh and padding |
| SeedPick.PicksAreFirst | src/bse/bse_davidson_helpers.py:171-185 | n different live transitions are picked and none left out has a smaller (score, id) pair |
| SeedPick.PicksAreLowest | src/bse/bse_davidson_helpers.py:160-187 | In band energies: a picked transition has the lower conduction-less-valence energy of those that are finite and above the threshold, lower id first among equals, and the rest follow by id |
| SeedPick.SeedRowIsOneHot | src/bse/bse_davidson_helpers.py:162-189 | A seed row has its 1 at the one slot that owns the picked id and nowhere else, over all shards |
| SeedPick.PaddingIndexCollides | src/bse/bse_davidson_helpers.py:166-171 | The computed index of a padding slot equals a live one of the next k, which is why the mask is needed |
| SeedPick.AllIsReferenceAndPadding | src/bse/bse_davidson_helpers.py:166-183 | All shards together hold each live pair once, and padding |
| DiagonalMemo.DiagMemo.Get | src/bse/bse_davidson_helpers.py:338-348 | Returns the stored diagonal exactly when every reference still is its operand, and counts the hit or miss |
| DiagonalMemo.DiagMemo.Put | src/bse/bse_davidson_helpers.py:350-359 | Stores the references made now, or empties the slot if an operand takes no weak reference |
| DiagonalMemo.DiagMemo.Clear | src/bse/bse_davidson_helpers.py:361-364 | Empties the slot |
| DiagonalMemo.BuildExactDiagonal | src/bse/bse_davidson_helpers.py:465-485 | Result and slot of one build, with the memo skipped for a missing operand |
| DiagonalMemo.HitIsSameObjects | src/bse/bse_davidson_helpers.py:338-348 | A hit happens only for the live objects the references were made for |
| DiagonalMemo.EveryBuildIsFresh | src/bse/bse_davidson_helpers.py:308-378 | After any history of creations, deaths, builds and clears a build returns the kernel's value on its operands |
| DiagonalMemo.RepeatIsAHit | src/bse/bse_davidson_helpers.py:338-359 | Building again with the same live objects is a hit |
| DiagonalMemo.HitHasBuild | src/bse/bse_davidson_helpers.py:308-364 | A hit goes back to an earlier build with the same metadata on the same operands, and the memo was not cleared since |
| DiagonalMemo.RecycledAddressIsStale | src/bse/bse_davidson_helpers.py:308-320 | A memo that compared addresses would hand back a stale diagonal after a death and a creation |
| Densifier.TileUnits | src/runtime/tiles.py:19-24 | At least one unit, at most all, and within the tile's bytes beyond one |
| Densifier.TileIsLargest | src/runtime/tiles.py:19-24 | A larger count is past the axis or past the tile's bytes |
| Densifier.BalancedTilesFit | src/bse/bse_densify.py:255-261 | Balanced tiles stay within the cell budget and the face, and the tiles reach its end, for every extent and budget |
| Densifier.BlockHolds | src/bse/bse_densify.py:266-267 | Every position lies in the clamped block of its quotient |
| Densifier.EveryCellHasATile | src/bse/bse_densify.py:265-277 | Every cell lies in a tile of the scan |
| Densifier.Densify | src/bse/bse_densify.py:249-278 | The scan over tiles, overlapping rewrites included, leaves in every cell the interpolation of the nk values its pair has in the row, between its two centroids |
| Densifier.AddRankLR | src/bse/bse_densify.py:972-990 | Every value of every q receives sign times its term exactly once, the clamped last block included |
| Densifier.SubtractThenAdd | src/bse/bse_densify.py:972-990 | Subtracting and adding the same term restores a tile |
| Densifier.RemoveAndRestore | src/bse/bse_densify.py:972-990 | A call with sign -1 and one with +1 on the same terms leave the buffer as it was |
| NoehWriter.NoehLines | src/bse/absorption_common.py:938-972 | The triple loop lists every transition at its place, or refuses a dipole array of the wrong shape |
| NoehWriter.OneOwner | src/bse/absorption_common.py:1030-1032 | Exactly one shard owns a (c, v) entry |
| NoehWriter.CoversIffOwned | src/bse/absorption_common.py:1030-1032 | The tiles cover a window if and only if every entry of it has an owner on the mesh |
| NoehWriter.ShardSumIsTheValue | src/bse/absorption_common.py:1028-1035 | The sum over shards of the masked, clipped reads is the entry, for all mesh shapes and paddings |
| NoehWriter.WriteNoeh | src/bse/absorption_common.py:975-1019 | The blocks of 1024 decoded transitions make a complete listing for every polarization; the device branch overflows exactly when there are transitions and nc nv is at least 2^31 or there are more than 2^31 of them, with nothing written in the first case and 2^31 records in the other |
| NoehWriter.ListingIsUnique | src/bse/absorption_common.py:938-972 | Two listings of the same transitions are the same record sequence |
| NoehWriter.ListedLine | src/bse/absorption_common.py:938-972 | A line of a listing holds its 1-based indices, spin 1, the conduction and the valence energy with the valence band counted down from the top, their difference, the dipole and its squared modulus, at the place its indices give |
| NoehWriter.StreamAndLoop | src/bse/absorption_common.py:938-1019 | Without an overflow the streamed file equals the triple loop's, record for record |
| PageText.CellsOfJoin | tools/gen_input_reference.py:188 | Proper cells joined with pipes are cut into the same cells |
| PageText.JoinOfCells | tools/gen_input_reference.py:188 | Cutting a line and joining its cells gives the line back |
| PageText.RowKeyIsPrefix | tools/gen_input_reference.py:243-247 | A line is the row of a key exactly when it starts like one |
| PageText.NoteAfterHead | tools/gen_input_reference.py:189 | A head in which no note opens keeps the note that follows it |
| PageText.NoteIsFirst | tools/gen_input_reference.py:189 | The note of a cell is everything from the first white space that leads up to an opening parenthesis or a dash, and empty if there is none |
| PageText.SplitOfJoin | tools/gen_input_reference.py:221 | Joining lines that hold no newline and splitting again gives the same lines |
| PageText.JoinOfSplit | tools/gen_input_reference.py:221 | Cutting a text at newlines and joining its lines gives it back |
| PageSync.SetRow | tools/gen_input_reference.py:247-264 | The end of the loop body for a row: its refusals, the index error, and the line kept or set |
| PageSync.SyncLine | tools/gen_input_reference.py:221-264 | The loop body, branch by branch, is one step of the line machine |
| PageSync.GenerateRows | tools/gen_input_reference.py:146-171 | The appended rows and refusals of a documented table |
| PageSync.SyncLines | tools/gen_input_reference.py:192-274 | The whole pass, with its registry error, index error and refusals |
| PageSync.CrashIffShortRow | tools/gen_input_reference.py:239-252 | The page ends in an index error exactly when some key row, reached without one, has no more cells than the index of the default column in force |
| PageSync.RunAppend | tools/gen_input_reference.py:221-264 | Running over two parts is running over the first and then the second |
| PageFixpoint.PageIsRendered | tools/gen_input_reference.py:221-274 | Every page without an index error, refused or not, is its layout rendered item by item: kept lines, tables and rows stay in their order |
| PageFixpoint.RowAgain | tools/gen_input_reference.py:262-264 | A row written with a clean default reads back as that row and is written the same again |
| PageFixpoint.LineAgain | tools/gen_input_reference.py:221-264 | What one accepted line puts out is taken without a refusal and put out unchanged by a second pass |
| PageFixpoint.SyncIsIdempotent | tools/gen_input_reference.py:192-274 | An accepted page whose defaults right of the first pipe are clean is a fixpoint; it is accepted again exactly when no hand-written row is displaced; with no displaced row at all, lines, tables and rows stay in place and order |
| PageRows.KeysHaveOneRow | tools/gen_input_reference.py:247-273 | On an accepted page each key of a hand-written table has exactly one row, any other row is retired, and each documented table is generated once |
| PageRows.BlockIsComplete | tools/gen_input_reference.py:146-171 | A table is generated without a refusal exactly when defaults and docs name the same keys, well documented; it then holds all rows in the parser's order |
| PageAcceptance.AcceptedIff | tools/gen_input_reference.py:192-274 | A page without an index error is accepted if and only if every row is of a parser key or retired by the three conditions, none repeats a row that stands, every hand-written key has a row, and every documented table is generated from defaults and docs that match |
| PageAcceptance.RunRefusedIff | tools/gen_input_reference.py:221-264 | The loop refuses nothing if and only if no row repeats one that stands and every item is rightful, and it remembers exactly the keys whose rows stand |
| PageAcceptance.DocumentedIff | tools/gen_input_reference.py:153-165 | A key is documented if and only if its entry is one with a meaning and no empty refusal name |
| PageRows.RowShowsDefault | tools/gen_input_reference.py:262-264 | A set row shows the parser's default and its old note, and no other cell changed |
| PageRows.EscapedIsWhole | tools/gen_input_reference.py:141-143 | An escaped cell holds no pipe that would cut it |
| PageRows.DocRowReadsBack | tools/gen_input_reference.py:166-170 | A generated row is the row of its key, and is cut into exactly its four columns if and only if no refusal name holds an unescaped pipe |
| PageRows.NamesAreWhole | tools/gen_input_reference.py:169 | The list of quoted names is one cell exactly when every name is |
| PageRows.PipedRefusalIsCut | tools/gen_input_reference.py:166-170 | A well-formed entry whose refusal name holds a pipe adds a column |
| PageCells.CollapseParts | tools/gen_input_reference.py:141-143 | White space between two texts, whatever it is, becomes one blank |
| PageCells.EscapedPieces | tools/gen_input_reference.py:141-143 | Escaping puts a backslash before exactly the pipes that would cut the text |
| PageCells.CellTextIsText | tools/gen_input_reference.py:141-143 | A text is written as it is if and only if its white space is single inner blanks and no pipe would cut it |
| PageDefaults.SetRowShows | tools/gen_input_reference.py:174-183 | A row set to a clean default starts its cell with unset, true or false in backticks, an empty pair of quotes in backticks, or the text or number in backticks, by the kind of default |
| PageDefaults.DocRowShows | tools/gen_input_reference.py:166-183 | So does a generated row, with texts and numbers escaped, whatever its other texts are |
| PageDefaults.HeaderNamesColumns | tools/gen_input_reference.py:69 | The generated header is cut into four columns, the second called default |
| PageDefaults.PageShowsDefaults | tools/gen_input_reference.py:192-274 | On every page without an index error each row of a parser key right of the first pipe shows its clean default, in a column that a header of the page calls default, and each generated table those of its documented keys |
| PageDefaults.HandWrittenIsShown | tools/gen_input_reference.py:192-274 | On an accepted page without displaced rows every clean default of a hand-written table is shown in a row of its key |
| PageDefaults.DocumentedIsShown | tools/gen_input_reference.py:192-274 | On an accepted page every default of a documented table is shown in a row of its key |
| PageProvisos.UncleanRowGrows | tools/gen_input_reference.py:262-264 | A row written with an unescaped pipe or a note opener in its default comes out longer on the next pass |
| PageTexts.FixpointIffClean | tools/gen_input_reference.py:192-274 | The text of an accepted page comes out of a second pass unchanged exactly when the default of every row of a parser key right of the first pipe is clean and no newline is put in, on pages where only such rows, uncut by a pipe, put one in |
| PageTexts.RegistryFixpoint | tools/gen_input_reference.py:192-274 | When no default, key or refusal of the registry holds a newline: unchanged exactly when those defaults are clean, for every accepted page |
| PageTexts.NewlineRowDiffers | tools/gen_input_reference.py:221-274 | A row whose default holds a newline and no cutting pipe changes the page, whatever lines follow it |
| PageTexts.NoShift | tools/gen_input_reference.py:221-274 | No page is its own pass with lines that do not start with a pipe pushed in front |
| PageTexts.SyncTextIsIdempotent | tools/gen_input_reference.py:192-274 | The text of an accepted page with clean one-line defaults comes back unchanged, and without a refusal if no row is displaced |
| PageNewlines.NewlineDefaultGrows | tools/gen_input_reference.py:262-274 | A page whose clean default holds a newline gets another line on the second pass, for every key |
| PageNewlines.CutNewlineStays | tools/gen_input_reference.py:231-238 | A default cut by a pipe after its newline, whose second line opens the table: the page stays |
| PageNewlines.DisplacedNewlineStays | tools/gen_input_reference.py:239-264 | A displaced row with a newline in its default stays |
| PageNewlines.RefusalNewlineStays | tools/gen_input_reference.py:166-170 | A refusal name with a newline and a pipe stays |
| PageProvisos.DisplacedRowIsRefused | tools/gen_input_reference.py:239-243 | A page accepted once and refused after its own rewriting, for every key and default |
| PageProvisos.ShortRowCrashes | tools/gen_input_reference.py:239-252 | Under a header whose default column is the third, a row that ends after its key ends the page in an index error, for every registry and key |
| RankBarrier.ReachableInv | scripts/perf_check.py:1880-1890 | Every interleaving from a fresh directory keeps the invariant of ranks, files and certification |
| RankBarrier.PassedMeansAllMarked | scripts/perf_check.py:1884-1890 | A wait that returned true means every rank marked that stage |
| RankBarrier.AtMostOneStageAhead | scripts/perf_check.py:1940-2051 | A rank whose waits all succeeded is at most one stage ahead of any other |
| RankBarrier.MixedBranchesNeverPassCold | scripts/perf_check.py:1980-1999 | With a rank on the CPU branch no wait for the GPU stage succeeds |
| RankBarrier.DoneMeansWritten | scripts/perf_check.py:2049-2050 | A done marker implies that rank's result file is complete |
| RankBarrier.StampMeansEveryRankFinished | scripts/perf_check.py:2244-2321 | A stamp means every rank's result was read, without an error, from a GPU rank that ran its whole program, and the verdict is not a failure |
| RankBarrier.NoStampBeforeTheLastRank | scripts/perf_check.py:2255-2321 | No stamp while a rank has stages left |
| RankBarrier.JudgingStampsIff | scripts/perf_check.py:2281-2321 | In a reachable state judging leaves a stamp if and only if the verdict does not fail, the stamp has a place, the run is not CPU-only and every one of the n > 0 results is complete, without an error and from a GPU |
| RankProgress.StampCanBeReached | scripts/perf_check.py:1880-2321 | Every all-GPU check of at least one rank whose stamp has a place can reach the stamp, with every rank through all five barriers on waits that returned true |
| RankEnding.EveryWaitCanEnd | scripts/perf_check.py:1884-1890 | In every reachable state a waiting rank can end its wait by its own steps alone, with true if and only if every rank has marked the stage |
| RankEnding.EveryCollectionCanEnd | scripts/perf_check.py:2255-2281 | A rank 0 that collects can come to any verdict by its own steps alone, even if other ranks never end |
| RankEnding.EveryRunCanEnd | scripts/perf_check.py:1880-2281 | Every reachable state can be continued without a further exception until all ranks have ended and rank 0 has judged, with a full list of results and any verdict if it had not judged yet |
| Fatbin.HaltsIffNeverStuck | scripts/perf_check.py:1014-1033 | The walk ends exactly when no round stands at a header that claims no bytes |
| Fatbin.EmptyHeaderNeverHalts | scripts/perf_check.py:1014-1033 | A blob of the bytes 50 ED 55 BA and twelve zero bytes is never walked to its end |
| Fatbin.PositiveHeadersHalt | scripts/perf_check.py:1014-1033 | It ends on any blob whose matched headers all have hsize + fsize > 0 |
| Fatbin.ReadRound | scripts/perf_check.py:1014-1033 | One round of the outer loop goes to the round's next offset and appends what the round finds |
| Fatbin.ParseFatbin | scripts/perf_check.py:1014-1033 | The loops return what the rounds up to the end collect |
| Fatbin.WalkWritten | scripts/perf_check.py:1014-1033 | On a written blob the rounds end and collect all entries in order |
| Fatbin.RoundTrip | scripts/perf_check.py:1014-1033 | Parsing inverts a writer of any regions, entries, quiet gaps and quiet tail: each entry is named once, in order, with its architecture and kind, code 1 as PTX and code 2 as SASS |
| GridSymmetry.SymmetrizeOnGrid | src/centroid/charge_density.py:20-62 | The accumulated field is the average over the rows; the shape and count refusals and the unchanged short cut, exactly when they apply |
| GridSymmetry.InvariantIffUniform | src/centroid/charge_density.py:39-62 | Averages of all fields are symmetric exactly when every image of a point has the same images |
| GridSymmetry.DistinctClosedIsGroup | src/centroid/charge_density.py:39-62 | Pairwise different permutation rows closed under composition are a group |
| GridSymmetry.GroupIsUniform | src/centroid/charge_density.py:39-62 | The rows of a group of operations have that property, operations that act alike on the grid included |
| GridSymmetry.GroupAverage | src/centroid/charge_density.py:39-62 | For a group the average is invariant under every row, averaging again changes nothing and the total is conserved |
| GridSymmetry.AverageConservesTotal | src/centroid/charge_density.py:39-62 | Permutation rows conserve the total, group or not |
| GridSymmetry.RepeatedRowBreaksSymmetry | src/centroid/charge_density.py:39-62 | Closure with an operation listed twice is not enough |
| DegenerateGroups.GroupDegenerate | tools/td_response.py:156-166 | The sweep writes the counter of each rank |
| DegenerateGroups.ApartIsDistance | tools/td_response.py:163-164 | Two eigenvalues are parted if and only if their distance exceeds the tolerance, whatever its sign |
| DegenerateGroups.SameLabelIsJoined | tools/td_response.py:156-166 | Equal labels are joined by steps of at most the tolerance, complex eigenvalues included |
| DegenerateGroups.ComponentsIffNoPairAcrossGap | tools/td_response.py:156-166 | For complex eigenvalues the labels are the connected components of steps within the tolerance exactly when no pair within it stands across a gap of the sorted order |
| DegenerateGroups.LabelsAreComponents | tools/td_response.py:156-166 | For eigenvalues on one horizontal line, real ones in particular, the labels are always the components |
| DegenerateGroups.LabelsHaveNoGap | tools/td_response.py:156-166 | Labels run from zero to their maximum without an empty group |
| DegenerateGroups.LabelsFollowRealParts | tools/td_response.py:156-166 | A lower label means a real part that is not above |
| DegenerateGroups.OffAxisValueParts | tools/td_response.py:156-166 | Three complex values where two joined ones get different labels |
| DegenerateGroups.FitLabels | tools/td_response.py:265 | Grouped for a positive tolerance, all separate otherwise |
| DegenerateGroups.SharesAddUp | tools/td_response.py:272-274 | The amplitudes of a group's members are equal and sum to the fitted group amplitude |
| Indices.UnplacePlace | src/bse/absorption_common.py:1010-1013 | Division and remainder recover a transition's indices from its flat position |
| Carriers.PassOfRow | src/bandstructure/orbital.py:323-338 | Carrier row i runs as pass i mod n_pass on device i div n_pass |
| Carriers.RowsStayTogether | src/bandstructure/orbital.py:323-352 | Output row i depends on exactly q row i and coefficient row i |
| Carriers.InterpolateBandOperator | src/bandstructure/orbital.py:318-352 | Every component at every carrier row, zero q on padding rows, or the refusal when the carrier does not cover the path |
| Carriers.MomentsInGridOrder | src/bandstructure/orbital.py:401-471 | Row (i Ny + j) Nz + z of the moments is plane z, row i Ny + j |
| Carriers.MomentsAtFractions | src/bandstructure/orbital.py:401-471 | That row is the solve at the point with the coordinates i / Nx, j / Ny, z / Nz |
| Carriers.EveryRowIsAGridPoint | src/bandstructure/orbital.py:466-472 | Every row is a live grid point: no padding row survives |

## Left out

- Float rounding, overflow and not-a-number inputs: values are exact reals; a division by an exact zero norm or denominator gives none for not-a-number.
- The square root is any function with s >= 0 and s * s = x; the matvec any Hermitian map, sharding constraints ignored.
- ActiveSelection.PublishPath: takes the Newton inverse as one arbitrary elementwise map; its residuals, the interior-margin diagnostics and the eigenvector columns are not modelled, nor is the path of `h_transform` without an active subspace.
- SeedPick.PicksMatchReference: the random tail rows of the seed and the final placement are not modelled.
- DiagonalMemo.EveryBuildIsFresh: operands are immutable, and the kernel is one function of metadata and contents.
- Densifier.Densify: the inverse transform, image padding and forward transform of one pair are one abstract map; the argument checks before the scan are not modelled.
- Densifier.AddRankLR: the contraction behind a term is a parameter, one value of the right size per q.
- NoehWriter.WriteNoeh: files are record sequences; header lines, number formatting, rank-0 transactions and file errors are not modelled, and only the device branch's integers have 32 bits.
- PageSync.SyncLines: takes the parsed defaults and docs as given; the reading of the parsers by syntax tree and the float formatting of a default are not modelled (a number is the text printed for it).
- PageSync.GenerateRows: lists stray docs entries in the docs' order where the program sorts them, and refusals of missing generated tables in registry order.
- PageFixpoint.SyncIsIdempotent: section headings must start with "#", as those of the registry do.
- PageTexts.FixpointIffClean: the same headings; not decided where a newline is put in by a displaced row, by a key or refusal of a generated table, or by a default that a pipe cuts, in each of which a page can be a fixpoint.
- PageText.Strip: white space is the fixed list of characters that `str.strip` removes.
- RankBarrier.ReachableInv: marker and result writes are single steps except that a result file is seen half-written; `mark` that creates its file and then raises, timing, and probes are not modelled, and a time-out may happen whenever a scan has found nothing.
- RankBarrier.StampMeansEveryRankFinished: judging is an arbitrary verdict, the stamp's place two booleans (device kind and runtime line), and an existing stamp of an earlier run is not part of the state.
- Fatbin.ParseFatbin: requires a walk that ends, because the loop itself does not end otherwise.
- GridSymmetry.SymmetrizeOnGrid: the symmetry service's rows are given; an empty list with translations is the not-a-number outcome.
- DegenerateGroups.GroupDegenerate: the order within equal real parts is any order the sort may return.
- DegenerateGroups.SharesAddUp: the least-squares solution is given.
- Carriers.InterpolateBandOperator: the node Fourier sum and rotation of one row are one abstract map; shape checks of the other operands are not modelled.
- The erf-based transform, FFTs, eigensolvers, Faddeeva integrals, HDF5 and text plumbing, deck parsing and command-line drivers: outside this model.
