# CSX: a verified model of the compressed sparse matrix kernels

CSX stores a sparse matrix by its substructures. The encoder looks for runs of
elements along rows, columns, both diagonals and in blocks, replaces them by
patterns, and prints the result as a byte stream `ctl` with the values beside it.
Multiplying means decoding that stream. This project models that path and the
parallel code around it in Dafny, over exact numbers, and proves that each step
keeps what the matrix means.

The meaning of a matrix is the list of its cells: (row, column, value) entries in
the order in which they are stored, compared as multisets where the order may
change. A pattern stands for its cells by walking its own iteration order and
mapping every place back (`Orders`, `Matrix`).

## How the modules fit together

| area | modules | main results |
|---|---|---|
| Iteration orders, transforms | `Orders`, `Matrix`, `Sorting`, `Reorder`, `SpmMatrix`, `Windows` | reverse maps invert, a transform keeps all cells and can be undone, a window leaves its parent as it was |
| Pattern encoder | `RowCodec`, `RowShape`, `RowFull`, `BlockColumns`, `BlockFull`, `RowEncoder`, `MatrixCodec`, `Encoding`, `EncodedFull` | rows round-trip, every sequence of encodings keeps the meaning, decode undoes encode, no run or block that is to be encoded is left single |
| Choice of patterns | `DrleStats`, `StatsCount`, `RowStatistics`, `Drle`, `Shrinking` | statistics are exact for every dimension, the manager makes the one greedy run, every type it picks leaves fewer elements |
| Printer and kernel | `Ctl`, `CsxPrinter`, `PrintedUnits`, `CsxKernel`, `Spmv` | the bytes are the one list of units that the rows are cut into; the kernel run over them gives A x and consumes every byte and value |
| Loading | `Load`, `SymLoad` | parts cover the input, row ranges have no gap; from a list of elements to A x |
| Symmetric CSX | `SymMatrix`, `SymSteps`, `CsxSymKernel`, `SymCsx`, `CsxThreads`, `SymPipeline`, `SymParallel` | cut, encode, merge, print, multiply, reduce: from the list of a symmetric matrix to A x in every interleaving of the threads |
| Reduction maps, barriers | `SymMap`, `Barriers`, `SymSpmv`, `Swapping` | the maps are a partition, phases are free of races, every interleaving multiplies and finds the vectors it expects, no run gets stuck |
| Conjugate gradient | `CgAlgebra`, `SymOperator`, `ParallelCg`, `CgInit`, `CsxCg` | parallel runs equal the sequential method, residuals are orthogonal and directions conjugate, the start over printed parts |
| Blocked formats, pages | `CsrMatrix`, `Bcsr`, `Vbl`, `Interleave` | BCSR and VBL agree with CSR, page partition conserves its sum |

`Seqs` and `Products` hold facts about sequences and about products with the
multiplication kept out of the solver's sight.

Code that updates things step by step is a method here: classes for the builder,
the matrix, windows, the encoder and the printer; arrays for vectors, counters and
blocks. Each such method is proved against a function, and the properties are
lemmas about that function or invariants that the methods keep. Parallel code is
a list of steps per thread for the machine of `Barriers`, which runs them in any
interleaving; for the symmetric CSX kernel those steps are the writes that the
verified kernel itself makes.

Two products fail on some inputs, and it is proved exactly when.

- VBL: `Vbl.EmptyRowBreaks` is a matrix with an empty row for which the product is
  wrong. `Vbl.RightExactly`: the product is right for all values and all x exactly
  when the elements behind each empty row are all in one column. (The arrays of the
  builder are taken as long enough; lib/spm/vbl/spm_vbl.c:156 asserts that.)
- Symmetric CSX: a part whose last row has only its diagonal element ends before that
  row, so the kernel leaves the row out. `SymPipeline.DiagonalLastWrong` is such a
  matrix. `SymPipeline.AlwaysRight`: y becomes A x whatever it held before exactly when
  the last row of every part has an element below the diagonal.

A third condition is about decoding one type while patterns of others stay:
`Encoding.DecodeValid` says exactly when the result is again a matrix that every
encoding keeps.

Run `dafny verify dfyconfig.toml` in this directory to check everything.

## Model

| member | source | states |
|---|---|---|
| Orders.RMapInvertsMap | csx/spm.cc:75-180 | For each of the 20 orders and every cell inside the matrix, the reverse map takes the mapped place back to the cell, and the mapped place is a place of that order. |
| Orders.MapInjective | csx/spm.cc:75-180 | Two cells of the matrix never get the same place in an order. |
| Orders.MapRowBound | csx/spm.cc:472-498 | Mapped rows of every cell lie in 1..nrows + ncols - 1 and mapped columns are at least 1, so the row pointers that a transform allocates suffice. |
| Orders.StepLandsOnUnitCell | csx/spm.cc:75-180 | For every order, anchor and k: walking k steps of delta in the order and mapping back lands on the cell that the multiplication routine of that type touches at step k (k % r and k / r for blocks). |
| Orders.AlignedPlace | csx/drle.cc:642-757 | A place of a block order whose column is a multiple of the block dimension is the top left corner of a block of the matrix. |
| Orders.OfCodeInverts | csx/spm_bits.h:30-57 | The type number of every order leads back to the order. |
| Sorting.SortAscends | csx/spm.cc:464-470 | Sorting a list whose members are pairwise comparable leaves it ascending, for any transitive order. |
| Sorting.SortPerm | csx/spm.cc:464-470 | Sorting keeps the members and how often each occurs. |
| Reorder.TransformKeepsCells | csx/spm.cc:472-498 | For every pair of orders, a transform leaves a well-formed matrix well formed and keeps exactly its cells with their values, patterns included. |
| Reorder.TransformUndo | csx/spm.cc:472-498 | Transforming to any order and back restores the rows, and so elements and row pointers, exactly. |
| SpmMatrix.Builder.AllocElem | csx/spm.cc:763-778 | The new element goes to the end of the open row and to the end of the element array; nothing else moves. |
| SpmMatrix.Builder.NewRow | csx/spm.cc:785-794 | The open row is closed and as many rows are opened as asked; elements stay. |
| SpmMatrix.Builder.Finalize | csx/spm.cc:796-823 | The arrays are exactly the rows built, without the open row if it is empty. |
| SpmMatrix.Spm.SetElems | csx/spm.h:598-634 | Elements in row order become the rows they name: empty rows inside are kept, rows behind the last element are not made. |
| SpmMatrix.Spm.MovedPoints | csx/spm.cc:472-498 | The traversal gives every element of the matrix once, in order, mapped to its place in the other order. |
| SpmMatrix.Spm.Transform | csx/spm.cc:472-498 | The matrix in place becomes the specified reordering of its old rows, in the new order. |
| SpmMatrix.BuildLength | csx/spm.h:598-634 | Rows built from ordered elements end with the row of the last element. |
| RowEncoder.DeltaEncode | csx/drle.cc:40-58 | The differences of neighbours, the first against 0, for every non-empty list. |
| RowEncoder.RLEncode | csx/drle.cc:60-87 | The maximal runs of equal values in order. |
| RowCodec.TilesAt | csx/drle.cc:60-87 | Each run holds exactly its stretch of the differences, and neighbouring runs have different values. |
| RowEncoder.DoEncodeLinear | csx/drle.cc:554-639 | The loop over runs, with its moving cursor, absorbed element and size cap, appends exactly the specified encoding of the row; what that never leaves single is `RowFull.EncodedLinearFull`. |
| RowEncoder.DoEncodeBlock | csx/drle.cc:642-757 | The same for block types: skipping to an aligned column, whole blocks, leftovers; with splitting on it is the splitting variant. |
| RowEncoder.PushSplit | csx/drle.cc:759-864 | Splitting a long block into the allowed widths appends exactly the specified pieces and singles. |
| RowEncoder.DoEncode | csx/drle.cc:554-864 | Dispatch between the three encoders; the output is the specified encoding behind what was there. |
| RowEncoder.DoDecode | csx/drle.cc:866-884 | A pattern becomes its single elements, step by step, in order. |
| RowEncoder.EncodeRow | csx/drle.cc:886-913 | A row that already holds patterns: each stretch of singles between them is encoded, patterns stay. |
| RowEncoder.DecodeRow | csx/drle.cc:915-928 | Patterns of the given type are opened, everything else stays. |
| RowCodec.EncodedRoundTrip | csx/drle.cc:554-884 | For every strictly increasing list of columns, values, type and deltas: opening the output of whichever of the three encoders runs gives back exactly the columns and values, in order. |
| RowCodec.LinearRunsOk | csx/drle.cc:554-639 | After every run of the linear encoder, what was written and what is still pending opens to the columns consumed so far. |
| RowCodec.BlockRunsOk | csx/drle.cc:642-757 | The same after every run of the block encoder, and the element it may take back is a single one. |
| RowCodec.ExpandSplitBlocks | csx/drle.cc:759-864 | Blocks split by any list of widths open to all the consecutive elements they were made of. |
| RowShape.EncodedGood | csx/drle.cc:554-864 | Every pattern the encoders make has a size between min_limit and max_limit; a block starts at a multiple of its dimension, has a size that is a multiple of it and, when splitting, one of the given widths. |
| RowFull.EncodedLinearFull | csx/drle.cc:586-639 | A linear order, at least 3 as the least size: no min_limit single elements with one step that is to be encoded are left in a stretch; a pattern takes all of its run, the element before it included, unless it has the largest size. |
| BlockColumns.RunHasBlocks | csx/drle.cc:668-696 | The start and the number of blocks that the code computes for a run of delta 1 are those of whole aligned blocks side by side with none beside them, stated on the columns alone. |
| BlockColumns.BlocksHaveRun | csx/drle.cc:668-696 | Whenever two or more whole aligned blocks stand side by side, some run has exactly their start and number. |
| BlockFull.EqualMade | csx/drle.cc:698-741 | Without splitting, w >= 2 whole blocks side by side, w a listed width, are cut from the front into blocks of the largest allowed width, as many as fit. |
| BlockFull.EqualOnly | csx/drle.cc:698-741 | And every block in the output is one of those. |
| BlockFull.SplitMade | csx/drle.cc:806-841 | With splitting, in w >= 2 whole blocks side by side no block column is left single where a listed block still fits. |
| BlockFull.SplitOnly | csx/drle.cc:806-841 | Every block in the output has a listed width and lies in such a stretch, and no wider listed block fits where it stands. |
| BlockFull.EncodedNoBlockLeft | csx/drle.cc:759-864 | With splitting, no single elements of the output fill a listed block of two block columns or more that starts on a boundary. |
| MatrixCodec.EncodedRowExpand | csx/drle.cc:886-913 | Encoding a row with patterns of other types present does not change what the row opens to. |
| MatrixCodec.EncodedRowFrom | csx/drle.cc:886-913 | Every element of an encoded row was in the row or is a pattern made of its single elements. |
| EncodedFull.EncodedRowNone | csx/drle.cc:886-913 | A whole row, whatever patterns it had, leaves nothing single that the settings promise to encode: no run of min_limit listed steps, no listed block when splitting. |
| EncodedFull.EqualMadeInRow | csx/drle.cc:886-913 | Without splitting, every stretch of a row between patterns gets the equal blocks of its whole blocks. |
| EncodedFull.EncodeLeavesNone | csx/drle.cc:338-376 | The same for the whole matrix after it was brought to the order, encoded and brought back. |
| MatrixCodec.TightOpens | csx/csx.cc:244-247 | A row opens to strictly increasing columns exactly when each element ends before the next begins. |
| Encoding.EncodedRowsCells | csx/drle.cc:338-376 | Encoding all rows of a matrix keeps the cells and their order. |
| Encoding.EncodedRowsValid | csx/drle.cc:338-376 | The encoded matrix is again valid: sorted, patterns inside the matrix, no element inside the span of a pattern of the current order. |
| Encoding.TransformValid | csx/spm.cc:472-498 | Validity, with the rule that ends of patterns lie before the next anchor, holds after a transform to any order. |
| Encoding.EncodeKeepsMeaning | csx/drle.cc:338-376 | Encoding to any type, whatever patterns of other types are present, leaves the matrix valid with exactly the same cells and values. |
| Encoding.EncodeManyKeepsMeaning | csx/drle.cc:416-461 | So does every sequence of encodings. |
| Encoding.DecodedRowsGood | csx/drle.cc:378-414 | Decoding a type keeps all cells in order. |
| Encoding.DecodeKeepsMeaning | csx/drle.cc:378-414 | Transform, decode, transform back: the same cells and values. |
| Encoding.DecodeValid | csx/drle.cc:378-414 | The decoded matrix is again a valid one, which every encoding keeps, exactly when no element of an opened pattern is inside the span of a pattern that stays. |
| Encoding.DecodeUndoesEncode | csx/drle.cc:338-414 | When no pattern of the type was there before, encoding and then decoding it restores the element list and row pointers exactly. |
| DrleStats.UpdateStats | csx/drle.cc:1098-1138 | The loop over runs adds exactly the specified linear or block statistics of a stretch. |
| DrleStats.UpdateStatsBlock | csx/drle.cc:1140-1190 | The same for block types, start alignment included. |
| DrleStats.NeverOvercounts | csx/drle.cc:1098-1190 | Over any stretch the recorded non-zeros grow by at most the number of its elements, and every entry keeps nnz in step with its pattern count. |
| StatsCount.StretchExact | csx/drle.cc:1098-1190 | For every dimension, a stretch adds exactly: for a linear type the elements of each recorded run of that step, with the one before it when no recorded run holds it, in the least number of patterns; for a block type w * align elements and one pattern for every place where w >= 2 whole blocks stand side by side. |
| StatsCount.LongRunCounts | csx/drle.cc:1098-1138 | Every maximal run of n >= max(2, min_limit) equal steps d adds at least n elements and a pattern to dimension d. |
| StatsCount.RunWithColumnBefore | csx/drle.cc:1115-1131 | One step less is enough behind steps that are too few to be recorded: then n + 1 elements are added. |
| StatsCount.BlocksCount | csx/drle.cc:1140-1190 | Every stretch of w >= 2 whole aligned blocks adds at least w * align elements and a pattern to dimension w. |
| StatsCount.SharesDetermine | csx/drle.cc:1098-1190 | What every dimension holds determines the whole list of statistics. |
| DrleStats.CorrectBlockStats | csx/drle.cc:930-1021 | The four loops compute the specified correction, stage by stage. |
| DrleStats.CorrectedOk | csx/drle.cc:930-1021 | Corrected block statistics keep nnz = dim * align * npatterns, never more non-zeros in total, and only dimensions with dim * align at most max_limit. |
| StatsCount.CorrectedExact | csx/drle.cc:930-1021 | For every dimension, corrected statistics hold exactly what cutting gives: every stretch is first cut to the size limit; then each entry is cut to the largest dimension that fits it and holds enough of the non-zeros after the first step, with what is left over kept when it is two block columns or more, and dropped when there is no such dimension. |
| StatsCount.PassesIs | csx/drle.cc:930-1021 | A dimension passes exactly when its elements are at least min_perc of the non-zeros. |
| RowStatistics.MatrixCounts | csx/drle.cc:152-171 | Over a whole matrix the statistics record at most as many non-zeros as there are unencoded elements. |
| RowStatistics.MatrixExact | csx/drle.cc:152-171 | For every dimension, the statistics of a matrix are the sum of what each stretch of single elements adds, the last one of every row included. |
| RowStatistics.LongRunRecorded | csx/drle.cc:152-171 | A linear type: a maximal run of n >= max(2, min_limit) equal steps d in any stretch of any row gives dimension d at least n elements and a pattern. |
| RowStatistics.BlocksRecorded | csx/drle.cc:152-171 | A block type: w >= 2 whole blocks side by side in any stretch of any row give dimension w at least their elements and a pattern. |
| RowStatistics.CountsDetermine | csx/drle.cc:152-171 | There is only one list of statistics with these sums. |
| Drle.SelectedIs | csx/drle.cc:222-243 | An entry is kept exactly when it holds at least min_perc of the non-zeros, its dimension fits a pattern id and, for one-dimensional blocks, is at least min_limit. |
| Drle.TypeStatsOk | csx/drle.cc:173-243 | The statistics kept for a type after thresholds: bounded by the unencoded elements, entries sound, every kept dimension between 1 and 9999 and, when splitting, within the size limit. |
| Drle.DrleManager.GenerateStats | csx/drle.cc:152-171 | The traversal, which flushes a stretch at every pattern and at the end of every row, gives for every dimension exactly the sum over the stretches. |
| Drle.DrleManager.GenAllStats | csx/drle.cc:173-243 | Statistics and deltas of every type that is not ignored; the matrix, transformed to each type in turn, ends as it began. |
| Drle.DrleManager.ChooseType | csx/drle.cc:292-312 | The chosen type has a positive score that no other reaches, ties going to the earlier one; types without score become ignored; none is chosen exactly when all scores are 0. |
| Drle.DrleManager.AddIgnore | csx/drle.cc:263-266 | Exactly that type becomes ignored. |
| Drle.DrleManager.IgnoreAll | csx/drle.cc:268-271 | Every type becomes ignored. |
| Drle.DrleManager.RemoveIgnore | csx/drle.cc:273-284 | The type is no longer ignored, unless it is one that the settings exclude. |
| Drle.DrleManager.Encode | csx/drle.cc:338-376 | The matrix in place becomes the specified encoding, back in its own order, and the type is ignored from then on. |
| Drle.DrleManager.Decode | csx/drle.cc:378-414 | The matrix in place becomes the specified decoding. |
| Drle.DrleManager.EncodeAll | csx/drle.cc:416-461 | The greedy run, and no other: each encoding is the first type of highest gain, in the statistics of what the encodings before it left, among the types not ignored so far, with exactly the dimensions recorded there; at the end no type that is left gains anything. At most 20 of the 22 slots of the sequence are used, and the matrix becomes that sequence of encodings. |
| Drle.DrleManager.EncodeSerial | csx/drle.cc:524-539 | The given types in order, each with exactly the deltas it had or was listed with so far, in ascending order: the matrix becomes that sequence of encodings. A type 0 stands for the first type with the highest score in the statistics, and for no encoding when no type has a gain. |
| Drle.DrleManager.EncodeGiven | csx/drle.cc:529-538 | One entry of the list: the deltas of its type become exactly those before and those listed, other types keep theirs, and the type is encoded with them. |
| Drle.OneGreedyRun | csx/drle.cc:416-461 | The matrix and the types to consider determine the whole greedy run. |
| Drle.OneSerial | csx/drle.cc:524-539 | A list of types and deltas determines the encodings. |
| Shrinking.GainPaysExactly | csx/drle.cc:314-376 | A type with a positive score, encoded with the dimensions its statistics keep, leaves strictly fewer elements to store, except blocks of one row or column with a size limit of 1, where the number stays. |
| Shrinking.GreedyShrinks | csx/drle.cc:416-461 | So every round of the greedy run makes the matrix smaller (max_limit at least 2): the elements at the end and the rounds together are at most the elements at the beginning. |
| Drle.TwentyTypes | csx/spm_bits.h:59-85 | There are 20 types to encode to. |
| Ctl.LERoundTrip | csx/ctl_ll.h:93-121 | A number that fits w bytes is read back from the w bytes it was written as. |
| Ctl.PutAllAt | csx/csx.cc:407-424 | Delta i of a unit is found at i times the width behind the aligned start. |
| Ctl.DeltaBytesFit | csx/delta.h:32-46 | The width chosen for the widest delta holds it, and is the least of 1, 2 and 4 that does. |
| Ctl.PutUlShortest | csx/ctl_ll.h:77-91 | The variable-length form has no byte too many: with one less the number would not fit. |
| Ctl.EmitPrefix | csx/csx.cc:366-465 | Writing more units never changes the bytes of the earlier ones. |
| Ctl.UnitAt | csx/csx.cc:366-465 | Where the bytes of unit k lie in the stream, and that they are head, column and aligned deltas of that unit. |
| Ctl.FirstPlace | csx/csx.cc:244-247 | A unit has as many places as its size says and begins at its anchor. |
| CsxPrinter.DeltaEncodeFrom | csx/csx.cc:64-76 | Differences of neighbours, the first against the last column. |
| CsxPrinter.DeltaPlacesAre | csx/csx.cc:366-432 | A decoder that follows the deltas of a stretch visits exactly its columns. |
| CsxPrinter.PatternUnitPlaces | csx/csx.cc:434-465 | The unit printed for a pattern visits exactly the cells of the pattern, for every type. |
| CsxPrinter.WidestStepIs | csx/csx.cc:380-388 | The maximum that the printer takes is the widest step between neighbours; the first difference does not count. |
| CsxPrinter.StretchIdNarrowest | csx/csx.cc:380-389 | The id of a stretch stands for the narrowest of the widths 1, 2 and 4 that every step between its columns fits. |
| CsxPrinter.OneNarrowest | csx/csx.cc:380-389 | There is only one such id. |
| PrintedUnits.HeadsAre | csx/csx.cc:249-281 | The units of some elements spell them in order; a unit of single elements has 1 to 255 of them, and fewer than 255 only before a pattern or at the end. |
| PrintedUnits.OneCut | csx/csx.cc:249-281 | There is only one list of units like that. |
| PrintedUnits.RowHeadsAre | csx/csx.cc:249-348 | The same for a row that is cut where the rows of a symmetric part begin. |
| CsxPrinter.CsxManager.GetFlag | csx/csx.cc:87-105 | Every id that is known keeps its flag, a new one gets the next free flag; all flags stay different. |
| CsxPrinter.CsxManager.DaPutUl | csx/ctl_ll.h:77-91 | The loop appends the number in groups of 7 bits, least significant first. |
| CsxPrinter.CsxManager.UpdateNewRow | csx/csx.cc:351-364 | Sets the new-row bit, and for skipped rows the jump bit and the jump, and clears the counters. |
| CsxPrinter.CsxManager.AddXs | csx/csx.cc:366-432 | Writes one unit whose places are exactly the waiting columns, of their number and of the id of the narrowest width that fits them, and leaves x at the last of them. |
| CsxPrinter.CsxManager.AddPattern | csx/csx.cc:434-465 | Writes one unit of the id and size of the pattern whose places are its cells, and leaves x where its decoder will be; the column jump is never negative. |
| CsxPrinter.CsxManager.DoElems | csx/csx.cc:249-281 | Prints a stretch of a row: the ids and sizes of the new units are those of the units it is cut into; places and values are those of the stretch in order. |
| CsxPrinter.CsxManager.DoRow | csx/csx.cc:249-281 | Prints one row: its cells in order, its values in the same order. |
| CsxPrinter.CsxManager.DoSymRow | csx/csx.cc:288-348 | The same, cut where the rows of the part begin, so that no unit lies on both sides. |
| CsxPrinter.CsxManager.PrintRow | csx/csx.cc:144-242 | An empty row only adds to the next row jump; leading empty rows count too. |
| CsxPrinter.CsxManager.MakeCsx | csx/csx.cc:144-242 | The bytes are the units that the rows are cut into, they visit the cells of the matrix in the order of the values, flags are known to the dispatch table, row jumps are announced exactly when some unit skips a row, and there is a matrix exactly when the ids the rows take are at most 64. |
| Spmv.FewPatternsFit | csx/csx.cc:87-105 | With at most 61 kinds of patterns and columns up to 2^32 the ids always fit, as delta units take three. |
| CsxKernel.UlGet | csx/ctl_ll.h:134-160 | The loop reads back the number that was written, and stops right behind it. |
| CsxKernel.FixedGet | csx/ctl_ll.h:93-121 | A fixed-width read gives the number written there. |
| CsxKernel.VertCase | csx/mult_templates/vert_tmpl.c:1-15 | After the loop y holds exactly the products of the cells of the unit in addition. |
| CsxKernel.DiagCase | csx/mult_templates/diag_tmpl.c:1-15 | The same for a diagonal. |
| CsxKernel.RdiagCase | csx/mult_templates/rdiag_tmpl.c:1-16 | The same for a reverse diagonal, whose columns run down. |
| CsxKernel.HorizCase | csx/mult_templates/horiz_tmpl.c:1-17 | The sum returned is that of the cells of the unit, and x is left at its last element. |
| CsxKernel.DeltaCase | csx/mult_templates/delta_tmpl.c:1-17 | The same for byte, 16-bit and 32-bit deltas behind alignment bytes, and ctl is left behind them. |
| CsxKernel.BlockRowCase | csx/mult_templates/block_row_tmpl.c:1-18 | A block column by column adds exactly the products of its cells. |
| CsxKernel.BlockColCase | csx/mult_templates/block_col_tmpl.c:1-20 | A block row by row adds exactly the products of its cells. |
| CsxKernel.NewRowHook | csx/jit.cc:206-255 | Reads the row jump with the code that was generated for matrices with and without jumps, and stops behind it. |
| CsxKernel.NextX | csx/jit.cc:257-300 | The next column, from a jump or from a full index. |
| CsxKernel.UnitCase | csx/jit.cc:257-400 | Dispatch on the pattern id runs the routine of the unit that was written. |
| CsxKernel.Step | csx/mult_templates/csx_spmv_tmpl.c:64-86 | One turn of the interpreter consumes exactly one unit, and keeps: y with the running sum holds the products of the cells visited so far. |
| CsxKernel.Multiply | csx/mult_templates/csx_spmv_tmpl.c:55-90 | Over any matrix that was printed: y on the rows of the part is the product, y elsewhere is untouched, and exactly ctl_size bytes and nnz values are consumed. |
| Spmv.EncodeMatrix | csx/spmv.cc:418-555 | With given deltas the matrix becomes the encoding to the listed types in order, each with the deltas listed for it so far; without, the greedy run over the listed types. Either keeps the cells and makes only patterns that can be printed. |
| Spmv.OneEncoding | csx/spmv.cc:418-555 | Types, deltas and matrix determine the encoded matrix. |
| Spmv.PrintMatrix | csx/spmv.cc:418-555 | The encoded matrix is printed exactly when its ids fit the flag byte. |
| Spmv.PrepareAndMultiply | csx/spmv.cc:418-555 | Encode, print and multiply: the matrix becomes the one encoding that the types and deltas determine; y holds the product of the matrix as it was loaded on the rows of the part and is unchanged elsewhere, in varint and full-index mode, exactly when the ids of that encoding fit. |
| Load.SetElems | csx/spm.h:598-634 | A part takes elements until its limit is reached and a new row begins; its rows are exactly those of the stretch it took. |
| Load.LoadMt | csx/spm.cc:270-295 | The parts are consecutive stretches that cover the input, their rows follow without gap, each takes its share of what is left, the last one all. |
| Load.PartIsStretch | csx/spm.cc:270-295 | A part holds exactly its stretch of elements, renumbered, with no empty row at the end. |
| Load.PartSize | csx/spm.h:598-634 | A part with a positive limit holds fewer than limit plus the elements of its last row. |
| Load.EmptyPart | csx/spm.h:598-634 | A part is empty exactly when nothing was left for it. |
| Load.PartValid | csx/spm.cc:270-295 | Every part is a matrix that the encoder accepts. |
| Load.PartProductIs | csx/spm.cc:270-295 | Row j of the product of a part is that row of the product of the whole matrix. |
| Load.MultiplyParts | csx/spmv.cc:557-694 | Every part is encoded as the types and deltas determine, printed and multiplied. A part whose ids fit has its rows of the product in y, one whose ids do not leaves its rows as they were; success means exactly that all fit. |
| Load.LoadAndMultiply | csx/spmv.cc:557-694 | From the list of elements to A x. The parts are those that the division of the list into shares gives. When every part got an element, each is encoded as the types, deltas and its own number of elements determine and has its rows of the product in y if its ids fit, and its old rows if not; otherwise y is untouched. Success means that every part got an element and all ids fit; then y is the product on all rows up to the last element. |
| SymLoad.SetElems | csx/spm.h:636-680 | A part of a symmetric input: elements below the diagonal, the diagonal values, nothing from above; it stops at the first place where its share is reached and the next row is right behind. |
| SymLoad.LoadMt | csx/spm.cc:903-931 | The parts cover the input and all rows without gap, every diagonal element is in one part. |
| SymLoad.NextSymPart | csx/spm.cc:903-931 | Behind a part everything is in later rows, the next part begins with the row right behind, and the last part ends with row n. |
| SymLoad.LastSymPart | csx/spm.cc:903-931 | The last part takes everything that is left. |
| SymLoad.RowsAgree | csx/spm.h:636-680 | A part has as many rows below the diagonal as diagonal values exactly when its last row has an element below the diagonal (or it is empty); a part ended by an element always has, unless it is a single row with only its diagonal. |
| SymLoad.DiagonalLastBreaks | csx/spm.h:636-680 | An input of three rows whose last row is only its diagonal: loaded as one part it has two rows and a diagonal of three. What becomes of y is in the next row. |
| SymPipeline.DiagonalLastWrong | csx/spmv.cc:557-694 | For that list, as one part, and every x, there is a y before the round for which y after it is not the product. |
| SymMatrix.SpmSym.DivideMatrix | csx/spm.cc:933-991 | The two halves are exactly the elements left of the rows of the part and the others. |
| SymMatrix.SpmSym.MergeMatrix | csx/spm.cc:993-1046 | Row by row the first half in front of the second, in the dimensions of the part. |
| SymMatrix.HalfValid | csx/spm.cc:933-991 | Each half is a matrix that the encoder accepts and holds its elements in order. |
| SymMatrix.DividedCells | csx/spm.cc:933-991 | The cells of both halves together are those of the part. |
| SymMatrix.MergedCells | csx/spm.cc:993-1046 | Merging keeps the cells of both halves, even when they were encoded on their own. |
| SymMatrix.MergeGood | csx/spm.cc:993-1046 | After merging encoded halves every row is well formed and no pattern crosses the cut. |
| SymCsx.EncodePart | csx/spmv.cc:418-555 | Cut, encode each half on its own as the types, deltas and its own number of elements determine, merge: the same cells, nothing across the cut, everything printable. |
| SymCsx.OnePartEncoding | csx/spmv.cc:418-555 | There is only one such merged part. |
| SymCsx.MakeCsxSym | csx/csx.cc:107-142 | The printed lower triangle with its diagonal, exactly when the ids fit. |
| SymCsx.PreparePart | csx/spmv.cc:418-555 | From a loaded part to a printed one: encoded half by half, it holds the same cells, and is printed exactly when the ids fit. |
| CsxSymKernel.VertSymCase | csx/mult_templates/vert_sym_tmpl.c:1-24 | Every cell of the unit is added in its row, and its mirror image to y or to the temporary vector, whichever the column belongs to. |
| CsxSymKernel.DiagSymCase | csx/mult_templates/diag_sym_tmpl.c:1-23 | The same for a diagonal. |
| CsxSymKernel.RdiagSymCase | csx/mult_templates/rdiag_sym_tmpl.c:1-24 | The same for a reverse diagonal. |
| CsxSymKernel.HorizSymCase | csx/mult_templates/horiz_sym_tmpl.c:1-25 | The same for a stretch of a row, whose own sum stays in the register. |
| CsxSymKernel.DeltaSymCase | csx/mult_templates/delta_sym_tmpl.c:1-31 | The same for columns given by deltas; x and ctl are left behind the unit. |
| CsxSymKernel.BlockRowSymCase | csx/mult_templates/block_row_sym_tmpl.c:1-34 | The same for a block column by column. |
| CsxSymKernel.BlockColSymCase | csx/mult_templates/block_col_sym_tmpl.c:1-34 | The same for a block row by row. |
| CsxSymKernel.DiagonalRows | csx/jit.cc:206-255 | The diagonal is applied once to each of the rows that the row pointer moves past. |
| CsxSymKernel.SymNewRow | csx/mult_templates/csx_sym_spmv_tmpl.c:77-84 | A new row: the running sum goes to its row, then the diagonal of every row passed, whatever the jump. |
| CsxSymKernel.SymStep | csx/mult_templates/csx_sym_spmv_tmpl.c:74-94 | One turn consumes exactly one unit and keeps the sums, with the switch of the target vector at the first own column. |
| CsxSymKernel.MultiplySym | csx/mult_templates/csx_sym_spmv_tmpl.c:52-102 | Rows of the part: diagonal, own cells and mirror images. Earlier rows: mirror images added to the temporary vector, also when that is y itself. Rows behind stay, as do the other places of both vectors, and all bytes and values are consumed. The writes, as a list of steps, do the same from any memory and touch only what belongs to the thread. |
| SymSteps.KeepDirect | csx/mult_templates/vert_sym_tmpl.c:1-24 | One write into the row of some cells keeps the balance both of the vectors and of the steps, from every memory. |
| SymSteps.KeepMirror | csx/mult_templates/vert_sym_tmpl.c:1-24 | The same for a write of mirror images, to y or to the temporary vector. |
| SymSteps.Performed | csx/mult_templates/csx_sym_spmv_tmpl.c:52-102 | When all cells are visited and the diagonal is applied, the steps multiply the part from every memory and stay within what is their own. |
| SymCsx.InitialMap | csx/spmv.cc:249-290 | A pair of thread and column is marked exactly when the part of the thread has an element in a column left of its rows; counts are exact. |
| SymCsx.MakeMap | csx/spmv.cc:222-388 | The maps list exactly the marked pairs, columns being 1-based and positions 0-based. |
| SymCsx.ZeroAll | lib/spm/vector.c:134-142 | Zeroing by all maps zeroes every cell that some part will touch. |
| SymCsx.AddAll | lib/spm/vector.c:190-200 | Adding by all maps adds every listed cell to y once. |
| SymCsx.GatherMaps | csx/spmv.cc:288-388 | What all maps add to a position is the sum over the threads that touch it. |
| SymCsx.SymRound | lib/spm/spmv_loops_sym_mt.c:43-60 | Zero by map, multiply all parts, add by map: whatever the temporary vectors held, every row up to the last element of its part is diagonal plus everything the parts contribute; a row behind it has what it had plus what the other parts contribute. |
| SymCsx.RightIsProduct | lib/spm/spm_crs_sym_mt.c:328-371 | Such a row is the row of (L + D + L^T) x that the row format computes. |
| SymPipeline.SymmetricProduct | csx/spm.cc:903-931 | For symmetric input, row p of A x is diagonal, lower triangle and its mirror image. |
| SymPipeline.RightRow | csx/spmv.cc:557-694 | The diagonal and what all parts contribute to a row make that row of the product of the input list. |
| SymPipeline.AlwaysRight | csx/spmv.cc:557-694 | The multiplication gives A x whatever y held before exactly when the last row of every part has an element below the diagonal. |
| SymPipeline.MultiplySymmetric | csx/spmv.cc:557-694 | Cut, encode half by half as the types and deltas determine, merge, print all parts, make the maps, one round, exactly when the ids of every encoded part fit; otherwise y and the temporary vectors are untouched. Each row that its part reaches becomes that row of A x, a row behind the last element of its part lacks its diagonal and keeps what it had. |
| SymPipeline.LoadAndMultiplySymmetric | csx/spmv.cc:557-694 | From the list of a symmetric matrix to y. The parts are those that the division into shares gives. It multiplies exactly when every part has an element below the diagonal and all ids fit, otherwise nothing is written; the rows of y come out as above, and y is A x when the last row of every part has an element below the diagonal. What was made of the parts is what the interleavings below are about. |
| SymMap.SplitRows | lib/spm/spm_crs_sym_mt.c:59-75 | The rows are divided without gap or overlap, and each thread takes rows just until it has its share of what is left. |
| SymMap.MakeMap | lib/spm/spm_crs_sym_mt.c:88-279 | The maps are the lists of remote pairs in consecutive stretches of columns. |
| SymMap.TakeColumns | lib/spm/spm_crs_sym_mt.c:197-202 | The greedy scan never runs off the end and stops at the first column that gives the thread its share. |
| SymMap.FinalMap | lib/spm/spm_crs_sym_mt.c:183-260 | Every map lists the marked pairs of its columns, each map takes its share, the last one the rest. |
| SymMap.Covered | lib/spm/spm_crs_sym_mt.c:183-260 | Every remote pair of thread and column is in some map. |
| SymMap.MapMembers | lib/spm/spm_crs_sym_mt.c:183-260 | A map lists each of its pairs once, and exactly the remote pairs of its own columns. |
| SymMap.Disjoint | lib/spm/spm_crs_sym_mt.c:183-260 | No two maps share a position. |
| SymMap.NeverFirst | lib/spm/spm_crs_sym_mt.c:139-154 | Thread 0 is never listed. |
| Barriers.Isolated | lib/spm/spmv_loops_sym_mt.c:43-60 | In a race-free phase a cell that a thread writes ends as that thread alone would leave it. |
| Barriers.EveryRun | lib/spm/spmv_loops_sym_mt.c:43-60 | Every reachable state of every interleaving is part way through one phase, with every cell as the threads running one after another would have it. |
| Barriers.FinishedRun | lib/spm/spmv_loops_sym_mt.c:43-60 | Every finished run has the memory of running the phases thread after thread. |
| Barriers.NeverStuck | lib/spm/spmv_loops_sym_mt.c:43-60 | Until all threads are finished, one of them or the barrier can go on. |
| Barriers.RunsEnd | lib/spm/spmv_loops_sym_mt.c:43-60 | No run is longer than there are instructions. |
| Barriers.CanFinish | lib/spm/spmv_loops_sym_mt.c:43-60 | Every run can be continued until all threads are finished. |
| SymSpmv.MultiplyPart | lib/spm/spm_crs_sym_mt.c:328-371 | The two loops over a row leave own rows and remote columns with exactly their sums, also when y is the temporary vector (thread 0). |
| SymSpmv.InitFromMap | lib/spm/vector.c:134-142 | Exactly the listed cells become zero. |
| SymSpmv.AddFromMap | lib/spm/vector.c:190-200 | Every place of the vector grows by exactly its listed cells. |
| SymSpmv.ZeroRaceFree | lib/spm/spmv_loops_sym_mt.c:43-60 | While temporaries are zeroed, no two threads touch the same cell. |
| SymSpmv.MulRaceFree | lib/spm/spmv_loops_sym_mt.c:43-60 | While the parts are multiplied, no thread touches what another one writes. |
| SymSpmv.AddRaceFree | lib/spm/spmv_loops_sym_mt.c:43-60 | While temporaries are added, no two threads touch the same place of y. |
| SymSpmv.RoundMultiplies | lib/spm/spmv_loops_sym_mt.c:43-60 | One round from any memory multiplies by L + D + L^T; stale temporaries do not matter. |
| SymSpmv.EveryRunMultiplies | lib/spm/spmv_loops_sym_mt.c:43-60 | Every finished run of all rounds, in any interleaving, each round written for the vectors it works on, has multiplied that many times. |
| SymSpmv.RoundsCanFinish | lib/spm/spmv_loops_sym_mt.c:43-60 | No run of these rounds gets stuck: it can be continued to a finished one with that result. |
| CsxThreads.StepsFree | lib/spm/spmv_loops_sym_mt.c:43-60 | The writes that the CSX kernel makes for the threads are free of races. |
| CsxThreads.EveryCsxRound | lib/spm/spmv_loops_sym_mt.c:43-60 | Every finished run of a round over printed parts, in any interleaving and from any memory, leaves every row as a round of the parts one after another does. |
| CsxThreads.EveryCsxRunMultiplies | lib/spm/spmv_loops_sym_mt.c:43-60 | All rounds over printed parts that reach their last rows, in any interleaving, each round written for the vectors it works on: x is multiplied that many times. |
| CsxThreads.CsxRoundsCanFinish | lib/spm/spmv_loops_sym_mt.c:43-60 | No run of these rounds gets stuck. |
| CsxThreads.PartsCompute | lib/spm/spm_crs_sym_mt.c:328-371 | Parts that hold a matrix of the row format compute the product of the row format. |
| Swapping.SwapRun | lib/spm/spmv_loops_sym_mt.c:68-74 | The three assignments of the exchange leave x and y exchanged and nothing else changed. |
| Swapping.FirstFree | lib/spm/spmv_loops_sym_mt.c:104-122 | While the main thread exchanges the references, which is in the first phase of the next round, nobody else touches them. |
| Swapping.EveryRefsUsed | lib/spm/spmv_loops_sym_mt.c:104-122 | In every reachable state of every interleaving, between the first and the last barrier of round r, x refers to vector r % 2 and y to the other one. |
| Swapping.EverySwappingRun | lib/spm/spmv_loops_sym_mt.c:77-125 | Every finished run of the loop with its exchanges, where a step that found other references would store any wrong value, leaves the vectors as the rounds written for fixed vectors do, with x and y exchanged once a round. |
| SymParallel.PerformsOther | csx/mult_templates/csx_sym_spmv_tmpl.c:52-102 | The writes of a kernel that multiplies from vector 0 to 1 multiply from 1 to 0 when the vectors are exchanged in them. |
| SymParallel.MadeComputes | csx/spmv.cc:557-694 | The parts that were made of a list compute the product of the matrix of that list, when the last row of each has an element below the diagonal. |
| SymParallel.EveryRoundOfInput | lib/spm/spmv_loops_sym_mt.c:43-60 | Every finished run of one round over what was made of a list, in any interleaving and from any memory: rows that their parts reach are those of A x, the others lack the diagonal and keep what they had. |
| SymParallel.EveryRunOfInput | lib/spm/spmv_loops_sym_mt.c:77-125 | From the list to every interleaving: after any finished run of the loop with its exchanges, x refers to A applied once a round to what it referred to at the start, when the last row of every part has an element below the diagonal. |
| SymParallel.RunsOfInputCanFinish | lib/spm/spmv_loops_sym_mt.c:77-125 | Every run of it can be continued to a finished one with that result. |
| SymParallel.EveryCrsSwapRun | lib/spm/spmv_loops_sym_mt.c:77-125 | The same loop over the row format: every finished run with its exchanges has multiplied once a round. |
| CgAlgebra.Residual | cg/cg.cc:223-260 | After any number of iterations r = b - A x, for every linear A. |
| CgAlgebra.AllOrthogonal | cg/cg.cc:223-260 | For symmetric A and non-zero divisors, every residual is orthogonal to all earlier residuals and directions, and every direction is conjugate to all earlier ones. |
| ParallelCg.SlicesPartition | cg/main.cc:268-269 | The slices i n / ncpus divide 0..n without gap or overlap. |
| ParallelCg.TailStep | cg/cg.cc:234-259 | Dot products in slices, the sums of the main thread and the updates in slices make one sequential iteration. |
| ParallelCg.IterationStep | cg/cg.cc:223-260 | One iteration of all threads is one step of the sequential method. |
| ParallelCg.IterationCode | cg/cg.cc:119-135 | Main and side threads pass the same eight barriers in an iteration, each with its own work between them. |
| ParallelCg.EveryRunIsCg | cg/cg.cc:223-260 | Every finished run, in any interleaving, leaves the x, r, p of the sequential method. |
| ParallelCg.RunsCanFinish | cg/cg.cc:223-260 | No run gets stuck. |
| ParallelCg.EveryRunIsOrthogonal | cg/cg.cc:223-260 | Whatever the interleaving: r = b - A x, and orthogonality and conjugacy against all earlier iterations. |
| ParallelCg.SymIterationStep | cg/cg.cc:304-344 | With a symmetric matrix in thread-wise temporaries, which are added and zeroed in one phase, an iteration is one sequential step and leaves the temporaries zero. |
| ParallelCg.SymIterationCode | cg/cg.cc:166-185 | Main and side threads pass the same nine barriers. |
| ParallelCg.EveryRunIsSymCg | cg/cg.cc:304-344 | Every finished run of the symmetric variant leaves the x, r, p of the sequential method. |
| ParallelCg.SymRunsCanFinish | cg/cg.cc:304-344 | No run of the symmetric variant gets stuck. |
| ParallelCg.EverySymRunIsOrthogonal | cg/cg.cc:304-344 | Residual, orthogonality and conjugacy for every run of the symmetric variant. |
| SymOperator.OperatorLinear | lib/spm/spm_crs_sym_mt.c:328-371 | The product with a stored symmetric matrix is linear. |
| SymOperator.OperatorSymmetric | lib/spm/spm_crs_sym_mt.c:328-371 | ... and symmetric: (A u) v = u (A v). |
| CgInit.InitializeCg | cg/cg.cc:47-68 | Multiplying part after part into r and adding up leaves x = 0.01, r = p = b - A x, for any product whose rows the parts give. |
| CsxCg.InitializeCsxCg | cg/cg.cc:47-68 | The same with the CSX kernel on the printed parts of a loaded matrix: r = p = b - A x for the matrix of the list. |
| CgInit.InitializeSymCg | cg/cg.cc:70-92 | The same for a symmetric matrix in the row format, with r also as the temporary vector of every part. |
| CsxCg.InitializeCsxSymCg | cg/cg.cc:70-92 | The same with the symmetric CSX kernel on printed parts. |
| CsxCg.MultiplyIntoZero | cg/cg.cc:84-85 | A printed part multiplied with y and the temporary vector being one zeroed vector leaves its whole contribution, wherever its rows begin. |
| CsxCg.ListLinear | cg/cg.cc:223-260 | The product with the matrix of a list is linear, as the iteration needs. |
| CgInit.MultiplyAlone | cg/cg.cc:84-85 | A part multiplied with y and the temporary vector being one vector leaves its whole contribution. |
| CgInit.Add | lib/spm/vector.c:155-167 | Element by element. |
| CgInit.Sub | lib/spm/vector.c:202-211 | Element by element, b minus t. |
| Windows.ThereAndBack | csx/spm.cc:661-736 | A window transformed to any order and back has its rows again, up to empty rows at the end. |
| Windows.Window.GetWindow | csx/spm.cc:661-686 | A window on rows of its parent, sharing its elements, cut at the end of the matrix. |
| Windows.Window.Transform | csx/spm.cc:472-498 | Permutes the elements of the window inside the buffer of the parent; elements outside stay. |
| Windows.PutWindow | csx/spm.cc:722-736 | Writes the row pointers of the window back; those behind it stay. |
| Windows.Inspect | csx/drle.cc:173-243 | Get a window, transform it, transform it back, put it: the parent is exactly as before, though the row pointers of the window may have shrunk in between. |
| Interleave.GatherPage | lib/spm/numa_util.c:34-52 | Takes parts until a page is full: the share of each node is the sum of what its parts gave; part by part what is left. |
| Interleave.AssignPage | lib/spm/numa_util.c:54-67 | The page goes to the first part of the node that gave most of it, of equal ones the first node. |
| Interleave.FixPart | lib/spm/numa_util.c:29-69 | One part: a part of whole pages changes nothing; otherwise the page that it shares is taken from the parts it is made of and given to the node that gave most. The sum stays, and everything up to the part consists of whole pages. |
| Interleave.FixInterleaving | lib/spm/numa_util.c:20-70 | The result is that of fixing each part but the last in turn. The sum of the parts stays, and in front of every non-empty part there is a whole number of pages. |
| Bcsr.RowIsDense | lib/spm/bcsr/spm_bcsr.c:122-171 | A row of the product is the sum over all columns, absent elements counting as 0. |
| Bcsr.Cache.AddElem | lib/spm/bcsr/blocks.c:260-298 | A block that is met first is cleared and listed; the value goes to its place, everything else stays. |
| Bcsr.Cache.Sort | lib/spm/bcsr/blocks.c:238-246 | The listed blocks in ascending order, the same ones. |
| Bcsr.Cache.Clear | lib/spm/bcsr/blocks.c:247-258 | No block is listed any more. |
| Bcsr.ScanCsr | lib/spm/bcsr/spm_bcsr.c:122-171 | Counts exactly the blocks that have an element. |
| Bcsr.FillBcsr | lib/spm/bcsr/spm_bcsr.c:173-233 | Fills exactly the arrays that the scan sized: blocks ascending in each block row, every value at its place, pointers exact. |
| Bcsr.InitCrs | lib/spm/bcsr/spm_bcsr.c:80-120 | For every r, c and matrix the result stands for the matrix. |
| Bcsr.Multiply | lib/spm/bcsr/mult/generic.c:13-42 | For every r and c, on padded vectors: the first nrows places grow by the product of the row format, the others stay. |
| Vbl.InitCrs | lib/spm/vbl/spm_vbl.c:90-164 | For a matrix without empty rows: the runs are the columns, each row begins with a run of its own, a run is at most 255 long and otherwise ends before the next one of its row begins, and no array is overrun. |
| Vbl.AllRunsApart | lib/spm/vbl/spm_vbl.c:107-157 | For every matrix: of two neighbouring runs of a row the first is 255 long or does not touch the second. |
| Vbl.RunsAreColumns | lib/spm/vbl/spm_vbl.c:90-164 | For every matrix: the runs that the builder makes are its columns exactly when no row is empty. |
| Vbl.RightExactly | lib/spm/vbl/spm_vbl.c:58-164 | For every matrix: what the builder makes of it multiplies rightly for all values and all x exactly when the elements behind each empty row are all in one column. |
| Vbl.EmptyFirstValid | lib/spm/vbl/spm_vbl.c:90-164 | The matrix of the next row is a valid one, with an empty row. |
| Vbl.EmptyRowBreaks | lib/spm/vbl/spm_vbl.c:58-164 | A matrix whose first row is empty, for which builder and product give 4 where the row format gives 3. |
| Vbl.Multiply | lib/spm/vbl/spm_vbl.c:58-88 | The product equals that of the row format. |

## Left out

- CsxKernel.Multiply: needs a part with at least one element, because the generated loop runs a unit before it tests for the end of the stream.
- Load.MultiplyParts: needs an element in every part for the same reason; `Load.LoadAndMultiply` checks it and says when it holds.
- SymPipeline.MultiplySymmetric: needs an element below the diagonal in every part, as the kernel runs at least one unit; `SymPipeline.LoadAndMultiplySymmetric` checks it and says when it holds.
- CsxPrinter.CsxManager.MakeCsx: gives no matrix when more than 64 ids are needed; csx/csx.cc asserts there.
- Vbl.InitCrs: needs a matrix without empty rows; what happens otherwise is in `Vbl.RightExactly` and `Vbl.EmptyRowBreaks`.
- SymCsx.SymRound: runs the parts of a phase one after another; any interleaving of the same writes is in `CsxThreads`.
- RowFull.EncodedLinearFull: says nothing for a least size below 3 (the library uses 4) and for the NUMA build, where the element before a run is never taken back.
- Shrinking.GreedyShrinks: needs a size limit of at least 2; `Shrinking.GainPaysExactly` says what happens with 1.
- Drle.DrleManager.EncodeSerial: deltas must be positive, and must fit a unit when the matrix is to be printed.
- ParallelCg.EveryRunIsSymCg: the matrix is in the row format; a CSX round computes the same product (`CsxThreads.EveryCsxRunMultiplies`), and the start over CSX parts is in `CsxCg`.
- Swapping.EverySwappingRun: a step with the wrong references is a wrong value in its cell; that it would be in another vector is not modelled, as `Swapping.EveryRefsUsed` shows that no step meets them.
- Floating point: products are over real numbers, so rounding is not modelled, and a division by zero gives 0.
- Machine integers: indices, sizes and jumps are unbounded; the limits that the printer needs (255 elements a unit, pattern parameters below 10000, column steps below 2^32) are stated where they matter.
- Sampling of statistics: choosing windows, sort splits and the correction by a factor are not modelled; windows themselves are.
- The encode tree (`MakeEncodeTree`) and `HandleStats`, which the normal path does not call.
- Code generation: templates, LLVM and Clang are left out; the generated hooks are modelled as decoder code that knows whether there are row jumps and full column indices.
- Files, options, printing, timers, affinity, counters and NUMA system calls; the pages of an interleaved allocation are modelled, their placement is not.
- The NUMA variants of loading, maps and multiplication.
- The splitters of lib/spm/spm_crs_mt.c and of the parallel BCSR and VBL formats: a division of the rows is assumed where one is needed.
- The unrolled BCSR kernels and the one-dimensional block templates, which repeat the general ones; the padding counter of a block; the iterator of csx/csr.h.
- Sorting is insertion sort, and the library's maps and sets are sets and ascending lists; their order of equal keys is not modelled because keys are distinct.
- Memory management: patterns are values, so who frees or clones them is not modelled; the buffer that a transform works in is a sequence.
- Bytes that alignment leaves undefined are zero here; the start of `ctl` is taken as aligned.
- Reads one past the end of an array, of which the result is not used, are not made: the bound is tested first.
