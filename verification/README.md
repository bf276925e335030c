# Fuel kernels: index arithmetic, proved

A Dafny model of the parts of Fuel where a fast form rearranges a simple definition, and of
three smaller parts that keep state, cluster or parse. Elements are integers, tolerances are
reals. Rounding is not modelled.

How the pieces fit together:

* **Coordinates.** `Radix`, `Sums`, `Tables`, `Layouts`, `AxisViews`: mixed-radix digits, finite
  sums (flattening, swapping, collapsing), row-major positions, and layouts as dimensions,
  strides and a start. `StridedIndices` is the odometer, `StridedCopy` every path of the copy.
* **Schedules.** `Schedule` runs parallel tasks under any interleaving of their stores; loops that
  hand out whole items pick them in any order.
* **Matrix products.** `Gemm` is the contract c = a @ b. `MatMul` has the batch strides and the two
  batch folds, `KernelProduct` the product over a broadcast kernel, `GroupedQuery` shared heads and
  `RepeatedHeads` what they share.
* **Convolution.** One definition per rank (`ConvSpec`, `Conv1dSpec`) and seven kernels proved
  against it: `FuelConv` (direct, im2col + gemm), `Conv2dPointwise`, `Im2Col` with `Conv2d`,
  `Conv2dTiled`, `Conv1d`, `Conv1dIm2Col`. `ConvTranspose1d` and `Conv1dAdjoint` go backwards.
* **Indexed kernels.** `EdgeSums`, `Indexing`, `Scattering`: gather, select, scatter and add walk
  the same edges; `Alignment` is when one shape may be indexed with positions of another, `Stops`
  loops that stop at their first failure. `ReduceSum` and `ReduceIndex` reduce along fibres,
  `BroadcastOffsets` and `BroadcastMap` walk broadcast operands.
* **Fixtures.** `Consensus`, `Medians` and `Fixtures`: greedy clusters, medians, validation.
* **Byte storage.** `ByteStorage`: handles on counted buffers, copied on write.
* **Use paths.** `UsePaths` and `UseTrees`: brace expansion against a tree and its printer.

Read-only slices are sequences; buffers that the code fills in place are arrays or, where every
cell is written once in order, sequences that grow. Where the code would panic or leave a buffer,
the model returns an error, so that contracts can say exactly when. Integers are unbounded; the
three places where machine width decides the outcome (a stride read as unsigned and an index stored
as `u32` in `ReduceIndex`, a length of `usize` values in `Conv1dSpec.LOutOfMachine`) say so.

## Where the code falls short of what it says

The conditions are proved below, with inputs that fail.

* The batch folds of the matrix product are guarded by batch strides alone. They are exact if and
  only if, besides, the left row stride is `k` (rows), or `m` is 1 and the right column stride is
  `k` (columns), trivial sizes aside: `MatMul.RowFoldIff`, `MatMul.ColFoldIff`, and for layouts
  `MatMul.MatMulIff`; `MatMul.InexactFold` has the data for every such pair of layouts,
  `MatMul.RowFoldReadsElsewhere` and `MatMul.ColFoldReadsElsewhere` two small ones.
* `Gather`, `Scatter` and `IndexAdd` compare no shapes. Their flat arithmetic is right if and only if
  the shapes are aligned (gather), aligned before the axis and equal after it (scatter and add, but
  for adds to the first row alone): `Indexing.GatherIff`, `Scattering.ScatterIff`, `Scattering.AddIff`,
  with `Indexing.GatherReadsElsewhere`, `Scattering.ScatterFails`, `Scattering.AddWritesElsewhere`.
* The im2col convolutions pack a non-contiguous kernel at 0 and read it at its old start:
  `Conv2d.Conv2dIm2ColGemm`, `Conv1dIm2Col.Conv1dDyn`, with `Conv2d.SlicedKernelFails` and
  `Conv1dIm2Col.SlicedKernelFails1`.
* `ReduceIndex` divides by the stride of the reduced axis, which `unsqueeze` sets to 0 with the
  remark that any value would be correct: `ReduceIndex.ReduceIndexF`,
  `ReduceIndex.UnsqueezedAxisFails`.
* A batch with an axis of size zero counts as one entry in the checks of the grouped product. Operands
  as long as one entry, or empty matrices, pass them and lead to a division by zero; any other
  operands are refused: `GroupedQuery.MatMulGrouped`, `GroupedQuery.ZeroAxisFails`.
* The length of a transposed convolution is computed through a product and a difference that a
  checked build can stop at although the length fits: `Conv1dSpec.LOutOfMachine`, with
  `Conv1dSpec.LOutStops` and `Conv1dSpec.LOutOverflows`.
* Greedy clustering is said to find the largest cluster. It does when agreement is transitive, it
  can miss it otherwise (`Consensus.LargestCanBeMissed`), and `Consensus.LargestIff` says exactly when
  it finds it.

## Model

| member | source | states |
|---|---|---|
| `FuelConv.Conv2dDirect` | fuel-conv/src/lib.rs:147-211 | for every accepted descriptor, groups, strides, paddings and optional bias, the output holds the convolution at every pixel (what that is, from the descriptor alone: `FuelConv.ConvMeans`) |
| `FuelConv.DirectPixel` | fuel-conv/src/lib.rs:179-200 | skipping padded rows and columns computes the full nested sum over the zero-padded input |
| `FuelConv.Im2col` | fuel-conv/src/lib.rs:244-296 | the scratch buffer becomes the patch matrix: row (channel, ky, kx), column (oh, ow), zero where the padding is (from the descriptor alone: `FuelConv.PatchesMean`) |
| `FuelConv.PatchDotIsConv` | fuel-conv/src/lib.rs:298-378 | one row of group weights times one column of patches, a flat sum over K, is the nested sum over channel and kernel window |
| `FuelConv.Conv2dViaGemm` | fuel-conv/src/lib.rs:319-378 | for every gemm with c = a @ b the output is the same convolution, bias included: the same array as `Conv2dDirect` leaves, by `ConvSpec.ConvUnique` |
| `FuelConv.AddBias` | fuel-conv/src/lib.rs:364-377 | adding the bias row by row turns the plain convolution into the biased one |
| `FuelConv.FirstDefect` | fuel-conv/src/lib.rs:92-115 | the first of the seven defects is reported, in their order, and a descriptor without any is accepted; divisibility is a product, a kernel fits if its last row and column do |
| `FuelConv.OutputsAreWindows` | fuel-conv/src/lib.rs:76-81 | the output has exactly as many rows, and columns, as there are places of the kernel in the padded input: the last one fits and one more would not, by its own stride, padding and kernel size |
| `FuelConv.PatchMeans` | fuel-conv/src/lib.rs:179-200 | tap (ky, kx) of pixel (oh, ow) is the input at row oh * stride.0 + ky - padding.0 and column ow * stride.1 + kx - padding.1, or zero off it |
| `FuelConv.ConvMeans` | fuel-conv/src/lib.rs:139-211 | what the kernels leave: of the number of windows, at row-major [batch, c_out, h_out, w_out], bias plus the sum over the channels of the group and the kernel window of input at that row and column times weight |
| `FuelConv.PatchesMean` | fuel-conv/src/lib.rs:213-296 | what `im2col` leaves: at row-major [batch * groups, c_in / groups * k_h * k_w, h_out * w_out] the input at that row and column |
| `FuelConv.RowStrideMovesRows` | fuel-conv/src/lib.rs:62-81 | stride (2, 1) over three rows: two rows out, the second from the third |
| `Gemm.RunGemm` | fuel-conv/src/lib.rs:298-318 | the contract every plugged-in gemm is assumed to meet: the block becomes a @ b, nothing else changes |
| `ConvSpec.ConvUnique` | fuel-conv/src/lib.rs:139-146 | two buffers that both hold the convolution of the same operands are equal, so any two kernels proved against it agree |
| `ConvSpec.OutPosIsRavel` | fuel-conv/src/lib.rs:117-120 | outputs are stored row-major over [batch, channels, height, width], the channels of a group in a row |
| `Layouts.IsContiguous` | fuel-ir/src/shape.rs:383-395 | the check answers yes exactly for row-major strides, whatever the strides of axes of size zero or one |
| `Layouts.ContiguousOffset` | fuel-ir/src/layout.rs:128-142 | a layout the check accepts stores element i at start + i |
| `Layouts.ContiguousOnlyIf` | fuel-ir/src/shape.rs:383-395 | a non-empty layout that stores its elements one after another is never refused |
| `Layouts.RowMajorIff` | fuel-ir/src/shape.rs:383-395 | without recursion: every axis of more than one position has as its stride the number of elements of the axes after it |
| `StridedIndices.StridedIndex.constructor` | fuel-ir/src/strided_index.rs:24-45 | a new odometer stands at the first element, or at the end when the shape has none |
| `StridedIndices.StridedIndex.Next` | fuel-ir/src/strided_index.rs:47-82 | call number i returns the offset of element i in row-major order, and none once all have been visited |
| `StridedIndices.Advance` | fuel-ir/src/strided_index.rs:53-78 | the carry loop moves to the coordinates of the next position and to its offset, or finds there is none |
| `StridedIndices.CollectOffsets` | fuel-ir/src/strided_index.rs:47-82 | draining the odometer enumerates coordinates applied to strides, every element once, in row-major order |
| `StridedCopy.ComputeStridedOffset` | fuel-cpu-backend/src/ops.rs:873-886 | the divmod loop returns the strided offset of row-major element i |
| `StridedCopy.StridedBlocks` | fuel-ir/src/layout.rs:372-402 | the longest run of trailing axes that is stored packed, and its length |
| `StridedCopy.BlockRun` | fuel-ir/src/layout.rs:372-402 | each block of the enumeration is one run of consecutive offsets from its start |
| `StridedCopy.CopyBlocks` | fuel-cpu-backend/src/ops.rs:981-993 | the sequential block path copies every element that fits and cuts the last block at the end of the destination |
| `StridedCopy.CopyBlocksParallel` | fuel-cpu-backend/src/ops.rs:953-980 | whole blocks in any order plus the partial trailing block copy exactly the elements that fit |
| `StridedCopy.CopyElementsParallel` | fuel-cpu-backend/src/ops.rs:910-918 | elements in any order, each at its own computed offset, copy exactly the elements that fit |
| `StridedCopy.CopyStridedSrc` | fuel-cpu-backend/src/ops.rs:888-996 | on every path element i lands at dst_offset + i, truncated at the end of the destination, and no other cell changes; a single block that starts outside its buffer cannot be sliced, and nothing else fails |
| `MatMul.SkipWalks` | fuel-cpu-backend/src/ops.rs:1412-1434 | for every layout `ab_skip` accepts, step * skip is the true strided offset of batch entry step |
| `MatMul.RefusedNeverWalks` | fuel-cpu-backend/src/ops.rs:1412-1434 | conversely, with one or two batch axes and at least one entry, a batch that some single stride walks is never refused |
| `MatMul.RowFoldIff` | fuel-cpu-backend/src/ops.rs:1483-1486 | under its guard every result the fold into rows may leave is the batched product, for all data within bounds, if and only if b <= 1, or a size is zero, or the left row stride is k |
| `MatMul.ColFoldIff` | fuel-cpu-backend/src/ops.rs:1487-1488 | under its guard every result the fold into columns may leave is the batched product, for all data within bounds, if and only if b <= 1, or a size is zero, or m = 1 and the right column stride is k |
| `MatMul.LastCellUntouched` | fuel-cpu-backend/src/ops.rs:1487-1488 | no store of the column fold of two rows or more is to the last cell of the output |
| `MatMul.GemmStrided` | fuel-cpu-backend/src/ops.rs:1538-1562 | the strided product stores every dot product at row * dst_rs + column and touches nothing else |
| `MatMul.GemmChunk` | fuel-cpu-backend/src/ops.rs:1492-1532 | one chunk of the batch-parallel path holds the product of its entry |
| `MatMul.MatMulF` | fuel-cpu-backend/src/ops.rs:1441-1566 | refuses exactly the layouts `ab_skip` refuses; leaves a buffer exactly when a slice at a start or at a batch entry, or the fold it takes, does; otherwise leaves the batched product, or the gemm of the folded shape, which is the batched product of the strided operands when the fold is exact; an exact fold of operands with elements never fails; sequential, folded and batch-parallel paths |
| `MatMul.MatMulIff` | fuel-cpu-backend/src/ops.rs:1441-1566 | over any two layouts `ab_skip` accepts, the result is the batched product for all data within bounds if and only if no fold is taken or the fold taken is exact |
| `MatMul.InexactFold` | fuel-cpu-backend/src/ops.rs:1483-1488 | for every pair of layouts outside that condition, data within bounds on which nothing the kernel may leave is the batched product |
| `MatMul.MatMulMeans` | fuel-cpu-backend/src/ops.rs:1441-1566 | what the batched product is: at (s, i, j) the sum of products of element (i, p) of matrix s of the one operand and (p, j) of the other, each found by its coordinates and strides |
| `MatMul.RowFoldReadsElsewhere` | fuel-cpu-backend/src/ops.rs:1483-1486 | two 1x1 entries one apart with rows five apart: the entries are 1 and 2, the kernel returns [1, 7] |
| `MatMul.ColFoldReadsElsewhere` | fuel-cpu-backend/src/ops.rs:1487-1488 | the same on the right, with columns five apart |
| `Schedule.RunInterleaved` | fuel-cpu-backend/src/conv2d.rs:170-251 | stores of disjoint, faithful, covering tasks leave the specified buffer under every interleaving, store by store |
| `Conv2dTiled.ToNhwc` | fuel-cpu-backend/src/conv2d.rs:126-141 | the channels-last copy holds every input element at its [b, h, w, c] place |
| `Conv2dTiled.FlattenKernel` | fuel-cpu-backend/src/conv2d.rs:143-158 | the flattened kernel holds every tap at row c_out, column (kh, kw, c_in) |
| `Conv2dTiled.BuildCol` | fuel-cpu-backend/src/conv2d.rs:188-220 | the tile of patches: tap by output pixel, zero where the padding is |
| `Conv2dTiled.TileDotIsConv` | fuel-cpu-backend/src/conv2d.rs:222-231 | one flattened kernel row times one tile column, channels innermost, is the nested convolution sum |
| `Conv2dTiled.TasksDisjoint` | fuel-cpu-backend/src/conv2d.rs:233-251 | no two (batch, tile) tasks ever store to the same cell |
| `Conv2dTiled.TasksCover` | fuel-cpu-backend/src/conv2d.rs:168-181 | together the tiles, the short last one included, reach every output cell |
| `Conv2dTiled.Conv2dTiled` | fuel-cpu-backend/src/conv2d.rs:110-254 | for every stride, padding and dilation and every interleaving of the tile tasks, the result is the convolution; fails exactly when an operand starts outside its buffer (what the convolution is, from the parameters and layouts alone: `Conv2dShapes.ConvMeans`) |
| `Conv2dShapes.OutputsAreWindows` | fuel-ir/src/conv.rs:149-156 | the output has exactly as many rows, and columns, as there are places of the dilated kernel in the padded input |
| `Conv2dShapes.PatchMeans` | fuel-cpu-backend/src/ops.rs:1141-1198 | tap (ky, kx) of pixel (oy, ox) is the input at row oy * stride + ky * dilation - padding, column likewise, read through its layout, or zero off it |
| `Conv2dShapes.ConvMeans` | fuel-cpu-backend/src/conv2d.rs:13-37 | what every algorithm leaves: of the number of windows, at row-major [b, c_out, out_h, out_w], the sum over channel and kernel window of input at that row and column times kernel |
| `Conv2dShapes.ValidIff` | fuel-ir/src/conv.rs:149-156 | the parameters assumed valid are those with a stride and a first window that fits |
| `Conv2dPointwise.ReshapeKernel` | fuel-cpu-backend/src/conv2d.rs:58-71 | borrowed or copied, the kernel matrix is [c_out, c_in] |
| `Conv2dPointwise.PointwiseDot` | fuel-cpu-backend/src/conv2d.rs:89-91 | the matrix product over channels is the convolution of a 1x1 kernel |
| `Conv2dPointwise.Conv2d1x1` | fuel-cpu-backend/src/conv2d.rs:42-105 | on the parameters that select it, for every interleaving of the batch tasks, the result is the convolution; fails exactly when an operand starts outside its buffer |
| `Im2ColKernel.ParamsNoPad` | fuel-cpu-backend/src/ops.rs:1133-1139 | without padding, every tap of every output position lies in the input: the unchecked branch never leaves it |
| `Im2ColKernel.Im2Col` | fuel-cpu-backend/src/ops.rs:1141-1198 | one row of patches per output pixel, zero where the padding is |
| `KernelProduct.ColTimesKernel` | fuel-cpu-backend/src/conv2d.rs:286-300 | patch rows times the kernel, transposed and broadcast by its layout alone: the fold the product takes here is always exact, and only a kernel that starts outside its buffer fails |
| `Conv2d.RowDotIsConv` | fuel-cpu-backend/src/conv2d.rs:280-300 | one patch row against one packed kernel row is one output pixel |
| `Conv2d.ToChannelsFirst` | fuel-cpu-backend/src/conv2d.rs:301-305 | the strided copy turns [b, h, w, c] into [b, c, h, w] |
| `Conv2d.PackKernel` | fuel-cpu-backend/src/conv2d.rs:293-295 | copying a strided kernel packs it from index 0, unless it is one block that starts outside its buffer |
| `Conv2d.Conv2dIm2ColGemm` | fuel-cpu-backend/src/conv2d.rs:266-307 | the convolution, if and only if both operands start inside their buffers and the kernel, if it is not contiguous, starts at 0 (or nothing is read): a packed copy is read at the start of the old buffer |
| `Conv2d.SlicedKernelFails` | fuel-cpu-backend/src/conv2d.rs:292-300 | a kernel cut out of a larger one that is outside that condition |
| `Conv2d.Conv2D` | fuel-cpu-backend/src/conv2d.rs:13-37 | whichever algorithm is picked the result is the same convolution; it fails exactly when an operand starts outside its buffer, or the im2col branch is taken and does |
| `Conv1d.TapsSumUp` | fuel-cpu-backend/src/ops.rs:1030-1061 | adding tap by tap sums the whole window over the zero-padded input |
| `Conv1d.Conv1D` | fuel-cpu-backend/src/ops.rs:1000-1064 | for every interleaving of the channel tasks of a tap the result is the one-dimensional convolution of the strided operands; fails exactly when an operand starts outside its buffer |
| `Conv1dSpec.Conv1dUnique` | fuel-cpu-backend/src/ops.rs:1000-1064 | two buffers that hold the convolution of the same operands are equal: `Conv1D` and `Conv1dDyn` agree |
| `Conv1dSpec.OutputsAreWindows` | fuel-ir/src/conv.rs:39-42 | the output length is the number of places of the dilated kernel in the padded input |
| `Conv1dSpec.ConvMeans` | fuel-cpu-backend/src/ops.rs:1000-1064 | what both kernels leave: of the number of windows, at row-major [b, c_out, l_out], the sum over channel and tap of input at l * stride + t * dilation - padding times kernel |
| `Conv1dAccumulate.ToChannelsLast` | fuel-cpu-backend/src/ops.rs:1019-1028 | the channels-last copy both kernels read holds every input element |
| `Conv1dAccumulate.AddTurn` | fuel-cpu-backend/src/ops.rs:1051-1058 | an addition by one channel moves that channel one turn on and leaves every cell of every other channel alone: tasks never share a cell |
| `ConvTranspose1d.TurnsSumUp` | fuel-cpu-backend/src/ops.rs:1267-1298 | adding position by position through every tap sums, per input channel, all that reaches a cell |
| `ConvTranspose1d.ConvTranspose1D` | fuel-cpu-backend/src/ops.rs:1230-1301 | for every interleaving of the channel tasks of a tap every cell holds the sum of what reaches it, for any stride, zero included; fails exactly when an operand starts outside its buffer |
| `Conv1dSpec.TransposedLength` | fuel-ir/src/conv.rs:79-86 | with its padding put back, the output reaches as far as the last position through the last tap, and the output padding further |
| `Conv1dSpec.TransposedMeans` | fuel-cpu-backend/src/ops.rs:1230-1301 | what the transposed kernel leaves: at row-major [b, c_out, l_out], per input channel, the sum over the pairs of tap and position that meet at o, l * stride + t * dilation - padding = o |
| `Conv1dSpec.LengthsMatch` | fuel-ir/src/conv.rs:39-92 | the transposed output length is the original input length for exactly one output padding: what the last window left over; on the way to it the difference of the first two terms is negative exactly when the unpadded input is shorter than the window and that remainder |
| `Conv1dSpec.LOutOfMachine` | fuel-ir/src/conv.rs:79-86 | a length that fits a word is what the machine computes: always in a build that wraps, and in a checked build if and only if 2 * padding <= (l_in - 1) * stride and that product fits a word |
| `Conv1dSpec.LOutStops` | fuel-ir/src/conv.rs:79-86 | one element, a kernel of three and a padding of one: length one, and a checked build stops |
| `Conv1dSpec.LOutOverflows` | fuel-ir/src/conv.rs:79-86 | three elements, a stride of half a word and a padding of a quarter: the length fits, the product does not |
| `Conv1dAdjoint.Adjoint` | fuel-cpu-backend/src/ops.rs:1000-1301 | <conv1d(x, k), y> = <x, conv_transpose1d(y, k)> for all strided x, y and k, strides, paddings and dilations with matching lengths |
| `Conv1dAdjoint.AdjointBuffers` | fuel-cpu-backend/src/ops.rs:1000-1301 | the same as an equality of inner products of flat buffers |
| `Conv1dIm2Col.Im2Col1D` | fuel-cpu-backend/src/ops.rs:1066-1123 | one row of patches per output position, zero where the padding is |
| `Conv1dIm2Col.RowDotIsConv1` | fuel-cpu-backend/src/dyn_impl.rs:959-1009 | one patch row against one packed kernel row is one output |
| `Conv1dIm2Col.Conv1dDyn` | fuel-cpu-backend/src/dyn_impl.rs:951-1014 | patches, one product over a broadcast kernel and a transposing copy give the convolution, if and only if both operands start inside their buffers and the kernel, if it is not contiguous, starts at 0 (or nothing is read) |
| `Conv1dIm2Col.SlicedKernelFails1` | fuel-cpu-backend/src/dyn_impl.rs:951-1014 | a kernel cut out of a larger one that is outside that condition |
| `Indexing.EdgeReplacesCoordinate` | fuel-cpu-backend/src/ops.rs:577-608 | between shapes aligned off the axis, for one index per cell or per row, the flat index arithmetic replaces the coordinate on the axis by the index and keeps all others; the sentinel goes nowhere |
| `Indexing.RowEdgeReplacesCoordinate` | fuel-cpu-backend/src/ops.rs:642-671 | the same for the rows of `IndexSelect` and `IndexAdd`, in the shape with the axis resized |
| `Alignment.AlignedIff` | fuel-cpu-backend/src/ops.rs:579-607 | two shapes give every coordinate of the first the same row-major position if and only if the first is nowhere longer, and as long as the second on every axis after one that it moves along |
| `Indexing.GatherIff` | fuel-cpu-backend/src/ops.rs:577-608 | no shape is checked: for indices that all name a cell, each cell has a place in the source and its flat index is that place, if and only if the shapes are aligned before the axis and after it |
| `Indexing.GatherReadsElsewhere` | fuel-cpu-backend/src/ops.rs:577-608 | indices of shape [1, 2, 2] over a source of shape [1, 2, 3]: cell (0, 1, 0) belongs to position 3 and reads position 2 |
| `Indexing.Gather` | fuel-cpu-backend/src/ops.rs:567-617 | for every pair of shapes each cell holds what its flat index points at, zero for the sentinel; the error is that of the first cell whose index is off the axis or whose read leaves the buffer; between aligned shapes no read does, and an invalid index is reported exactly when there is one |
| `Indexing.LinedStops` | fuel-cpu-backend/src/ops.rs:590-607 | between aligned shapes only an index off the axis stops the loops |
| `Indexing.IndexSelect` | fuel-cpu-backend/src/ops.rs:625-675 | every row holds the row its index names, zeros for the sentinel (what that means in coordinates is `Indexing.RowEdgeReplacesCoordinate`); indices are examined, and can fail, exactly when something precedes the axis |
| `Scattering.Scatter` | fuel-cpu-backend/src/ops.rs:714-775 | for every three shapes the turns are taken in row-major order, up to the first that has no index or value to read, an index off the axis or a target off the buffer, which is reported; nothing is written when an operand is not contiguous, and never a cell outside the destination tensor |
| `Scattering.ScatterFollowsGather` | fuel-cpu-backend/src/ops.rs:741-772 | with shapes aligned before the axis and equal after it, turn e is cell e of the source, goes where `Gather` reads, and only an invalid index stops it |
| `Scattering.ScatterIff` | fuel-cpu-backend/src/ops.rs:741-772 | for indices that all name a cell, there is one turn for each index and each goes to its place in the destination, if and only if the shapes are aligned before the axis and equal after it |
| `Scattering.ScatterOverruns` | fuel-cpu-backend/src/ops.rs:741-772 | into any destination longer after the axis than the indices the scatter never completes, whatever the indices |
| `Scattering.ScatterFails` | fuel-cpu-backend/src/ops.rs:741-772 | two good indices of shape [1, 2] over a destination of shape [1, 3] |
| `Scattering.AddedSum` | fuel-cpu-backend/src/ops.rs:690-694 | scatter-add: each cell gains the sum of what its edges bring |
| `Scattering.SetLast` | fuel-cpu-backend/src/ops.rs:684-688 | scatter-set: each cell holds what the last of its edges brings, or what it held |
| `Scattering.AppliedElsewhere` | fuel-cpu-backend/src/ops.rs:714-775 | cells that no edge reaches, those outside the tensor included, keep their value |
| `Scattering.IndexAdd` | fuel-cpu-backend/src/ops.rs:782-846 | for every two shapes and number of indices a packed copy of the destination plus, at each cell, the sum of what the edges bring, or the error of the first index that is off the axis or whose rows are not all there; before that, of a destination that cannot be sliced or a source that is not contiguous |
| `Scattering.ValuesInPlace` | fuel-cpu-backend/src/ops.rs:799-843 | with an index for each row of the axis the edges carry the source, element by element |
| `Scattering.AddIff` | fuel-cpu-backend/src/ops.rs:799-843 | for indices that all name a row, each cell of the source has a place in the destination and its edge goes there, if and only if the shapes are aligned off the axis, and equal after it unless nothing precedes the axis and every index is 0 |
| `Scattering.AddAnyIff` | fuel-cpu-backend/src/ops.rs:799-843 | for every cell and every index on the axis the flat target is the place of the index among the other coordinates, if and only if the source, resized on the axis, is aligned with the destination |
| `Scattering.AddStops` | fuel-cpu-backend/src/ops.rs:799-843 | under that condition, with an index for each row, only an index off the axis stops the loop, and it is reported exactly when there is one |
| `Scattering.AddEdgeReplacesCoordinate` | fuel-cpu-backend/src/ops.rs:799-843 | and the edges replace the coordinate on the axis by the index |
| `Scattering.AddWritesElsewhere` | fuel-cpu-backend/src/ops.rs:799-816 | a source of shape [1, 2] added into [2, 3] at index 1: its first cell belongs to position 3 and goes to position 2 |
| `Scattering.OrderFree` | fuel-cpu-backend/src/ops.rs:799-843 | index by index over the axis, or row-major over the source: the same sum |
| `EdgeSums.EdgesAdjoint` | fuel-cpu-backend/src/ops.rs:567-846 | reading along edges and adding along them are adjoint, for any edges |
| `Scattering.ScatterIsAdjointOfGather` | fuel-cpu-backend/src/ops.rs:567-775 | <gather(x), y> = <x, scatter_add(0, y)>, sentinels and repeated indices included, wherever the edges go |
| `Scattering.IndexAddIsAdjointOfSelect` | fuel-cpu-backend/src/ops.rs:625-846 | <index_select(x), y> = <x, index_add(0, y)>, with strided indices on the one side and a slice on the other |
| `ReduceSum.DeletesCoordinate` | fuel-cpu-backend/src/ops.rs:238-242 | one divmod turn removes exactly the coordinate of one axis, provided the axes after it have their sizes |
| `ReduceSum.DestinationOf` | fuel-cpu-backend/src/ops.rs:236-242 | the ascending loop sends an element to its coordinates without the reduced ones |
| `ReduceSum.FibreOf` | fuel-cpu-backend/src/ops.rs:198-261 | an element goes to an output if and only if it agrees with it on every axis that is not reduced |
| `ReduceSum.SliceIsFibre` | fuel-cpu-backend/src/ops.rs:208-234 | over the last axes the fibre of an output is a slice |
| `ReduceSum.FoldImpl` | fuel-cpu-backend/src/ops.rs:198-261 | the last-dims fast path, the contiguous loop and the strided loop all return the sums over the fibres |
| `ReduceSum.ReduceSumDyn` | fuel-cpu-backend/src/dyn_impl.rs:783-805 | axes in any order: every output is the sum over its fibre |
| `ReduceSum.GrandTotal` | fuel-cpu-backend/src/dyn_impl.rs:783-805 | the total of the outputs is the total of the inputs |
| `ReduceSum.RepeatedAxisMisplaces` | fuel-ir/src/shape.rs:585-606 | why repeated axes are refused beforehand: the second turn would send an element to the wrong output |
| `ReduceIndex.Scan` | fuel-cpu-backend/src/ops.rs:132-140 | the inner loop finds the smallest or the largest value and the first index that attains it |
| `ReduceIndex.StrideFibre` | fuel-cpu-backend/src/ops.rs:124-135 | in a contiguous tensor a fibre is an arithmetic progression from the computed start |
| `ReduceIndex.NarrowedFibre` | fuel-cpu-backend/src/ops.rs:145-159 | in a strided tensor a fibre is an arithmetic progression from where the narrowed layout points |
| `ReduceIndex.ReduceIndexF` | fuel-cpu-backend/src/ops.rs:89-190 | all three traversals return, for each fibre, the smallest or the largest value or the first index that attains it (by coordinates: `ReduceIndex.ReductionMeans`); empty tensors are refused; the division by the stride fails exactly for a contiguous tensor whose reduced axis has stride 0, the unsigned stride exactly for a negative one |
| `ReduceIndex.ReductionMeans` | fuel-cpu-backend/src/ops.rs:89-190 | at the coordinates with the axis set to 0 stands the least value (the greatest for a maximum) along the line through them, or the first place of it as a `u32` |
| `ReduceIndex.UnsqueezedAxisFails` | fuel-ir/src/layout.rs:237-265 | a size-one axis as `unsqueeze` makes it is such a tensor, although any stride is said to be correct there |
| `ReduceIndex.FirstExtremumUnique` | fuel-cpu-backend/src/ops.rs:89-165 | value and index are unique, so the traversals agree |
| `BroadcastOffsets.OffsetsB` | fuel-ir/src/layout.rs:405-451 | reports the run between the first and the last axis with a stride if those axes are packed, and none otherwise; the run is repeated as said: offset of element (a, b, c) is start + b; an empty run without element repetition is always contiguous |
| `BroadcastOffsets.RunComplete` | fuel-ir/src/layout.rs:405-451 | none is reported only if there is none: zero strides, a packed run, zero strides, wherever they are cut, are recognised |
| `BroadcastOffsets.SandwichIsBroadcast` | fuel-ir/src/layout.rs:405-451 | zero strides around a packed run mean exactly that repetition |
| `BroadcastMap.NextCounters` | fuel-cpu-backend/src/utils.rs:196-214 | the two running counters stay the digits of the position |
| `BroadcastMap.BinaryMap` | fuel-cpu-backend/src/utils.rs:180-257 | every path equals zipping the two enumerations, and every unchecked read is in bounds |
| `BroadcastMap.ChunkedVec` | fuel-cpu-backend/src/utils.rs:282-301 | vector calls chunk by chunk over a non-empty run equal the zip |
| `BroadcastMap.RowsInPlace` | fuel-cpu-backend/src/utils.rs:302-315 | the left x len x right loops in place equal the zip |
| `BroadcastMap.BinaryMapVec` | fuel-cpu-backend/src/utils.rs:260-369 | every path equals the zip, the chunk step is never zero, and it fails exactly when one operand is contiguous, the other is not, and slicing the run of the other leaves its buffer, which takes a tensor without elements |
| `BroadcastMap.UnaryMap` | fuel-cpu-backend/src/utils.rs:371-404 | block by block or element by element, the operation applied in row-major order |
| `Consensus.MaxRelErr` | fuel-correctness-fixtures/src/capture.rs:384-403 | the error is below epsilon if and only if the outputs have one length, are finite, and agree element by element |
| `Consensus.RelErrIff` | fuel-correctness-fixtures/src/capture.rs:384-403 | an error within a bound, without a quotient: the difference is at most the bound times the larger of the two magnitudes and the floor |
| `Consensus.ComputePairwiseConsensus` | fuel-correctness-fixtures/src/capture.rs:348-382 | a sorted, duplicate-free clique that no further output can join: that of the first start with the longest cluster |
| `Consensus.BestIsMaximal` | fuel-correctness-fixtures/src/capture.rs:365-381 | the cluster is a clique, has no duplicates, and everybody outside disagrees with a member |
| `Consensus.LargestWhenTransitive` | fuel-correctness-fixtures/src/capture.rs:331-338 | when agreement is transitive no clique is larger |
| `Consensus.TiesGoToLowest` | fuel-correctness-fixtures/src/capture.rs:331-338 | when agreement is transitive no clique of that size has a member before its first |
| `Consensus.LargestIff` | fuel-correctness-fixtures/src/capture.rs:331-338 | the result is a largest cluster if and only if some largest cluster has a member i such that everybody outside disagrees with i or with a member that comes earlier |
| `Consensus.LargestCanBeMissed` | fuel-correctness-fixtures/src/capture.rs:331-338 | without transitivity the largest cluster can be missed: four of six outputs agree and a cluster of three is returned |
| `Fixtures.FixtureFromConsensus` | fuel-correctness-fixtures/src/capture.rs:467-514 | too few peers, no strict majority, or a fixture whose elements are the lower medians of the cluster |
| `Fixtures.ElementwiseMedian` | fuel-correctness-fixtures/src/capture.rs:516-544 | each element is the lower median of its column (by counting: `Medians.MedianIff`), or some element of a column that is not all numbers; nothing for different lengths |
| `Medians.MedianIff` | fuel-correctness-fixtures/src/capture.rs:516-544 | a value is the lower median if and only if, of n values, at most (n - 1) / 2 lie below it and more than that at or below it |
| `Fixtures.ValidateIff` | fuel-correctness-fixtures/src/lib.rs:259-314 | an output passes if and only if it has the length and, wherever a number is expected, a number off by at most the absolute bound, or by at most the relative bound times the larger of the two and the floor |
| `Fixtures.FirstDrift` | fuel-correctness-fixtures/src/lib.rs:285-314 | the drift reported is the first, and of the right kind |
| `Fixtures.MembersValidate` | fuel-correctness-fixtures/src/capture.rs:467-544 | every member of a cluster validates against the fixture built from it, for every admissible band |
| `Fixtures.BandIff` | fuel-correctness-fixtures/src/lib.rs:285-314 | a band admits every member of every majority cluster if and only if its relative bound is at least 0.001, and its absolute bound at least 0.001 / 2^126 or its relative bound at least 2 |
| `Fixtures.UsualBand` | fuel-correctness-fixtures/src/capture.rs:467-544 | in particular every band of at least 1e-3 relative and 1e-6 absolute |
| `ByteStorage.Buffer.constructor` | fuel-cpu-backend/src/byte_storage.rs:60-69 | a fresh allocation with the given bytes and one holder |
| `ByteStorage.Handles.constructor` | fuel-cpu-backend/src/byte_storage.rs:39-42 | no handles, nothing to read |
| `ByteStorage.Handles.FromBytes` | fuel-cpu-backend/src/byte_storage.rs:60-69 | a new handle reads the given bytes; all others read on as before |
| `ByteStorage.Handles.Clone` | fuel-cpu-backend/src/byte_storage.rs:32-42 | one more holder of the same buffer, no copy; the clone reads the same bytes |
| `ByteStorage.Handles.Drop` | fuel-cpu-backend/src/byte_storage.rs:39-42 | one holder less; all others read on as before |
| `ByteStorage.Handles.IsUniquelyOwned` | fuel-cpu-backend/src/byte_storage.rs:163-168 | true exactly when no other handle is on the buffer |
| `ByteStorage.Handles.MakeMut` | fuel-cpu-backend/src/byte_storage.rs:116-127 | nobody reads anything else; the handle is alone on its buffer, the old one if it was alone before, a fresh one otherwise |
| `ByteStorage.Handles.Write` | fuel-cpu-backend/src/byte_storage.rs:116-127 | the store shows through the writing handle only; a unique owner keeps its buffer |
| `ByteStorage.Handles.AsSliceMut` | fuel-cpu-backend/src/byte_storage.rs:129-161 | refused, before anything is copied, exactly when a positive size does not divide the length or the alignment exceeds 64; otherwise a private view of len / size elements, or for a type without size whatever the cast answers |
| `ByteStorage.Run` | fuel-cpu-backend/src/byte_storage.rs:32-169 | over every sequence of operations the handles read as if each had private bytes, and counts equal the number of holders |
| `ByteStorage.UntouchedKeeps` | fuel-cpu-backend/src/byte_storage.rs:32-38 | whatever a run does through other handles, a handle that is not written or dropped keeps its bytes |
| `GroupedQuery.Decompose` | fuel-aocl-cpu-backend/src/binding_table.rs:283-289 | the divmod loop finds the coordinates of batch entry b |
| `GroupedQuery.SlotOf` | fuel-aocl-cpu-backend/src/binding_table.rs:282-298 | decompose, divide, recompose: an entry of the right operand that is in range |
| `GroupedQuery.SharedInRange` | fuel-aocl-cpu-backend/src/binding_table.rs:221-237 | every n_rep is positive and the divided coordinates are in range of the right operand on every axis |
| `GroupedQuery.AxisOkIff` | fuel-aocl-cpu-backend/src/binding_table.rs:224-236 | an axis pair is accepted if and only if the left size is the right size times some number that is at least one |
| `GroupedQuery.CompatibleIff` | fuel-aocl-cpu-backend/src/binding_table.rs:215-237 | batch shapes are accepted if and only if they have one rank and are so on every axis |
| `GroupedQuery.SharedHeads` | fuel-aocl-cpu-backend/src/binding_table.rs:197-200 | eight heads share one, or two; not three |
| `GroupedQuery.MatMulGrouped` | fuel-aocl-cpu-backend/src/binding_table.rs:201-320 | each output slice is the product of its left slice and the right slice it shares, and the slices make up the output; shapes are refused exactly when some left axis is not one or more copies of the right one, and all other errors and the division by a zero axis are stated exactly |
| `GroupedQuery.ZeroAxisFails` | fuel-aocl-cpu-backend/src/binding_table.rs:239-298 | a batch of shape [0] with operands as long as one entry divides by zero |
| `RepeatedHeads.RepeatAxisAt` | fuel-aocl-cpu-backend/src/binding_table.rs:197-200 | laying each entry of an axis down r times in a row puts copy t of entry c at c * r + t on that axis |
| `RepeatedHeads.GroupedIsRepeated` | fuel-aocl-cpu-backend/src/binding_table.rs:197-200 | an output is the grouped product if and only if it is the plain batched product against the right operand with each entry of each batch axis laid down n_rep times in a row |
| `UsePaths.SplitTop` | scripts/structure_report.py:346-355 | the loop over depth and start returns the non-empty pieces between the commas outside braces |
| `UsePaths.SpacesAre` | scripts/structure_report.py:360-360 | blanks are the twenty-nine code points Python calls space |
| `UsePaths.StripPathText` | scripts/structure_report.py:360-360 | text in path characters and blanks loses its blanks and nothing else |
| `UsePaths.PiecesAre` | scripts/structure_report.py:346-355 | on every text: the piece up to the first comma at depth zero, then the pieces of what follows |
| `UsePaths.CloseInIs` | scripts/structure_report.py:363-369 | on every text: a group ends at the first place where as many braces are closed as opened, and nowhere if there is none |
| `UsePaths.UnclosedGroup` | scripts/structure_report.py:361-371 | a group that is never closed runs to the end of the text and loses its last character |
| `UsePaths.FewerBraces` | scripts/structure_report.py:358-371 | every recursive call has fewer opening braces, so the recursion ends on every text |
| `UsePaths.Expand` | scripts/structure_report.py:358-371 | on every text, balanced or not, the scan, the split and the recursion return the expansion |
| `UsePaths.ExpandedHasNoOpen` | scripts/structure_report.py:358-371 | on every text no result has an opening brace left |
| `UseTrees.SplitJoined` | scripts/structure_report.py:346-355 | splitting the text of a group gives back its alternatives, in order, empty ones dropped |
| `UseTrees.GroupSpan` | scripts/structure_report.py:361-370 | the scan ends at the closing brace of the first group |
| `UseTrees.ExpandPrinted` | scripts/structure_report.py:358-371 | for every use tree and every spacing of its text, the expansion is exactly its leaf paths in order |
| `UseTrees.ExpandSpaced` | scripts/structure_report.py:358-371 | `{b, c}` expands to `b` and `c` |
| `UseTrees.LeavesArePlain` | scripts/structure_report.py:358-371 | leaf paths have no brace, comma or space |

## Left out

- Fixtures.ElementwiseMedian: of a column with a NaN or an infinity only that the result is one of its elements; that newer sorts may panic on an inconsistent order is not modelled.
- ByteStorage.Handles.AsSliceMut: what the cast answers for a type without size is a parameter.
- StridedCopy.CopyStridedSrc: a build without debug assertions; one with them stops at a negative stride (`stride_unsigned`, fuel-ir/src/layout.rs:108-120) unless there is a single block, and so do the kernels that read unsigned strides.
- Indexing.IndexSelect: an index vector with a negative stride is read as a wrapping build reads it; that a checked build stops there is not modelled.
- ReduceSum.ReduceSumDyn: axes are assumed distinct, which `Dims::to_indexes` (fuel-ir/src/shape.rs:585-606) enforces; `ReduceSum.RepeatedAxisMisplaces` shows why.
- Fixtures.BandIff: over the reals; which of the witnesses are representable as `f32` is not considered.
- GroupedQuery.MatMulGrouped: sizes are unbounded, so saturating products and the wrap-around of the batch count are not modelled; lengths are in elements.
- Floating-point rounding, NaN payloads and transcendental functions.
- Vendor products (MKL, Accelerate, AOCL) and SIMD loops: only the contract c = a @ b and the scalar meaning of a vector call.
- Pooling, up-sampling, ConvTranspose2D, Col2Im1D, element-wise activation and dtype dispatch: they would add members of the kinds already here.
- `unary_map_vec`: the blocks of `BroadcastMap.UnaryMap` handed over as slices.
- Closures with state passed to the maps: operations are functions.
- Capture files, JSON, hashing and generated inputs of the fixture tool; dtypes other than `f32` in validation.
- The other reports of `structure_report.py`.
