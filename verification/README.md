# LLMOpt: a verified model of the research compiler's capture, format and kernel code

The repository captures PyTorch graphs, moves them and their weights between Python and OCaml in two
binary formats, rebinds and renames captured graphs, quantizes weights, probes hand-arranged Metal
kernels for them and replays traces against the server that results. This project models that code in
Dafny and proves what it is for. `dafny verify dfyconfig.toml` checks everything.

Code that changes state step by step is modelled by classes and loops, each proved equal to a function
of its inputs or of the old state; the laws are then lemmas about those functions. Expressions and
recursion are functions. Numbers that the source keeps in floating point are `real`.

| part | modules |
|---|---|
| graph files | `Bytes`, `Utf8` (RFC 3629), `FxGraph` (data, writers and readers as functions), `FxGraphLaws`, `FxGraphFormat` (one file byte for byte), `FxGraphIo` (the writer and the cursor reader as classes) |
| tensor archives | `TensorArchive`, `ArchiveLaws`, `ArchiveFormat` (acceptance, offsets, one header byte for byte), `ArchiveIo` (layout loop, streaming writer over a file table) |
| Q4_0 kernels | `Sums`, `LaneCover`, `Q4Model`, `Q4Kernels` (lane loops), `Q4Dispatch` (SIMD groups, whole grids, the CPU reference) |
| EXL3 conversion | `Walsh`, `Fwht` (in-place butterfly), `Rotation`; `Nibbles`, `Exl3`, `Exl3Kernel` (trellis encoder and window reader) |
| capture session | `CaptureFx`, `CaptureLaws`, `CaptureSession` (class `Session`), `SessionLaws` |
| rebinding and renaming | `GraphNames` (straight-line graph semantics), `FxSerial` (serialized form), `FxSerialFormat` (one manifest as data), `FxInputs`, `TargetGraph`, `TargetBuild`, `TargetLaws`, `TargetFormat` (names and nodes written out), `TargetOutputs`, `TracedTarget` (traced models), `TracedExample` (a built one of two layers) |
| functional cache | `FunctionalCache` (classes `Cache`, `EmptyCache`), `CacheTrace` |
| trace runner | `TraceRunner` (state machine), `TraceLaws`, `TraceReplay` (coroutine loop, class `Runner`), `TraceRequests` (what the requests say) |
| searches and arithmetic | `PromptLookup`, `Speculative`, `Int4Pack`, `Int4Weight`, `CostModel`, `CostOrder` |

Findings: places where a promise does not hold of the code for every input, or where more holds than is
promised. Each is proved with its exact condition.

- The kernels that visit `blocks >> 1`, `>> 2` or `>> 3` groups drop the blocks that are left over; they
  compute the whole dot product for all data exactly when their group divides the block count, whatever the
  decoding of scales, unless that makes every scale zero (`Q4Model.KernelExactness`). The layer probe's
  baseline is one of them; its guarded kernels are exact for every count.
- The 256 circular windows of an encoded tile are the states that were scored exactly when the last three
  choices of the last two sweeps agree (`Exl3Kernel.RingCloses`); without that only the windows from the
  fourth on are. There are tiles whose run leaves the ring open (`Exl3Kernel.RingStaysOpen`).
- `capture_from_fx` loses a tensor exactly when two identities get the same static key
  (`CaptureLaws.CaptureIsFaithful`), as two static placeholders with one module path under different roots
  do (`CaptureLaws.CollidingKeysMislead`).
- The inputs a captured node lists miss references inside slices, which its arguments keep
  (`FxInputs.NodeRefsMissSlices`).
- A cache input and its output share a name in the target graph. A name denotes its latest definition (this
  is what the planner's environment does, lib/fx_plan.ml:67-70 and 424-433), so the renaming keeps the
  dataflow exactly when no node reads the input after the output is defined
  (`GraphNames.RenamingKeepsDataflow`). `FunctionalCache.update` arranges that: for every traced graph the
  names `target_graph` gives are safe exactly when no value that keeps its name captures a read
  (`TracedTarget.TracedNamesAreSafe`), so every value is kept and every state leaves under its own name
  (`TracedTarget.TracedBuildKeepsValues`, `TracedTarget.TracedStateKeepsItsName`).
- `target_graph` names the outputs correctly exactly when the shared states are the last layer's and the one
  before it (`TargetOutputs.OutputsAreOrderedExactly`); its coverage check fails exactly when an output is
  repeated (`TargetLaws.CoveredExactly`).
- A prefill cache replaces where a decode cache appends, so a layer holds everything passed to `update`
  exactly when its prefill updates before the last were empty (`FunctionalCache.GenerationConcatenates`).
- Packing an unpacked W4 group again is not always the identity. `Int4Pack.StableExactly` has the condition, on
  the group's largest magnitude, `eps` and the rounding of scales; half precision stores a seventh of float32
  epsilon as zero, so a group whose largest weight is epsilon is quantized to 7 and unpacked to zeros
  (`Int4Pack.EpsilonGroupMoves`, `Int4Pack.EpsilonGroup`).
- The two n-gram searches draft for the same inputs, but only the Python one answers when the first length it
  tries is negative; the serving search then indexes past the tokens (`PromptLookup.SearchesAgree`).
- The projection cost model is bound by memory for every legal shape. For n divisible by 16 it proposes the
  widest tile first exactly up to 1920, where that tile's grid has less than 16 workgroups and counts as using
  the whole bandwidth, and again above 3456, for every k (`CostOrder.WidestFirstExactly`).
- An illegal projection shape is reported only when 4 divides n; otherwise the prediction is an empty list
  (`CostOrder.IllegalShapes`).

## Model

| member | source | states |
|---|---|---|
| Utf8.DecodesExactlyEncodings | python/llmopt_backend/fx_graph.py:75-79 | Strict UTF-8 as in section 3 of RFC 3629: a byte string decodes to a text exactly when it is that text's encoding. |
| FxGraphLaws.ManifestCut | python/llmopt_backend/fx_graph.py:355-387 | The file of a well-formed manifest decodes to it; every strict prefix of the file is rejected as truncated and every extension as having trailing bytes. |
| FxGraphLaws.DecodesExactlyEncodings | python/llmopt_backend/fx_graph.py:355-387 | A byte string decodes to a manifest exactly when the manifest is well formed (depth at most 64, finite doubles, 64-bit integers) and the bytes are its encoding: encoder and decoder are inverses both ways. What fits and what is written are fixed by `FxGraphFormat`. |
| FxGraphLaws.EncodingIsInjective | python/llmopt_backend/fx_graph.py:355-387 | Two well-formed manifests with the same file are the same up to dtype spelling. |
| FxGraphLaws.ArgumentCut | python/llmopt_backend/fx_graph.py:146-247 | Reading is prefix-exact on every argument tree: it yields the tree and stops at its last byte, and reports truncation on any proper prefix. |
| FxGraphLaws.ArgumentBack | python/llmopt_backend/fx_graph.py:205-247 | Whatever the argument reader accepts within the depth limit re-encodes to exactly the bytes it consumed. |
| FxGraphLaws.NodeCut | python/llmopt_backend/fx_graph.py:258-352 | Reading is prefix-exact on every node. |
| FxGraphLaws.NodeBack | python/llmopt_backend/fx_graph.py:309-352 | An accepted node re-encodes to exactly the bytes it was read from. |
| FxGraphFormat.FiniteExactly | python/llmopt_backend/fx_graph.py:171-175 | A double is written, and read, exactly when its bit pattern without the sign is below that of infinity; otherwise reading reports a non-finite number. |
| FxGraphFormat.DepthExactly | python/llmopt_backend/fx_graph.py:146-148 | Lists inside each other are written exactly up to 64 levels below the outermost. |
| FxGraphFormat.WholeFile | python/llmopt_backend/fx_graph.py:355-387 | One manifest with every kind of argument, binding and shape, for each of the 18 dtypes, against the literal bytes of its file: letters, versions, counts, tags, field order and byte order; it is written as that file and the file is read as it. |
| FxGraphFormat.WrongHeader | python/llmopt_backend/fx_graph.py:373-384 | The first of the letters, the version and the manifest version that is wrong decides the error. |
| FxGraphFormat.WrongTags | python/llmopt_backend/fx_graph.py:205-247 | Unknown argument, binding and shape tags, booleans other than 0 and 1, and nesting that is too deep each have their own error. |
| FxGraphFormat.WrongDtype | python/llmopt_backend/fx_graph.py:309-317 | A node with a dtype tag outside the table is rejected for that, whatever its name, op and target. |
| FxGraphIo.EncodeManifestBytes | python/llmopt_backend/fx_graph.py:355-370 | The writer, driven recursively over its list of parts, produces the encoding, or an error exactly for manifests that do not fit the format. |
| FxGraphIo.DecodeManifestBytes | python/llmopt_backend/fx_graph.py:373-387 | The cursor reader gives the decoding or its error, and builds no more argument nodes than there are bytes, whatever counts the data claims. |
| FxGraphIo.Writer.Argument | python/llmopt_backend/fx_graph.py:146-202 | Writing an argument appends exactly its encoding to what was written, and fails exactly when the argument does not fit at that depth. |
| FxGraphIo.Reader.Argument | python/llmopt_backend/fx_graph.py:205-247 | Reading an argument returns what the format says and moves the cursor forward over it, never back or past the end. |
| FxGraphIo.Reader.Raw | python/llmopt_backend/fx_graph.py:89-98 | Takes the next bytes and advances, or fails and leaves the cursor. |
| TensorArchive.LayoutGeometry | python/llmopt_backend/tensor_archive.py:78-114 | Every accepted set of specs is laid out in name order in 256-aligned, pairwise disjoint extents that follow each other with gaps under 256 bytes, right after a header that ends where the data starts. |
| TensorArchive.Header | python/llmopt_backend/tensor_archive.py:99-114 | The header with its padding is exactly as long as the data offset it announces. |
| ArchiveFormat.LayoutAccepts | python/llmopt_backend/tensor_archive.py:61-114 | Tensors are accepted, in whatever order they come, exactly when there are some but no more than 32 bits count, each has a tag below 18, an encodable non-empty name without NUL, at most 255 dimensions that fit 64 bits and a positive length that does, names differ, and the last payload starts below 2^64. |
| ArchiveFormat.OffsetExactly | python/llmopt_backend/tensor_archive.py:91-97 | Payload i in name order starts at the index size, rounded up to 256, plus the rounded lengths of the payloads before it. |
| ArchiveFormat.LessExactly | python/llmopt_backend/tensor_archive.py:79 | Names are ordered by the first code point in which they differ; a name comes before its extensions. |
| ArchiveFormat.WholeHeader | python/llmopt_backend/tensor_archive.py:99-114 | The header of one tensor, for each of the 18 dtypes, byte for byte. |
| ArchiveFormat.Complaints | python/llmopt_backend/tensor_archive.py:61-87 | Which error a tensor that fits causes when one of its fields is spoilt, and what no tensors and a repeated name do. |
| ArchiveLaws.EntryRoundTrip | bench/convert_gguf_exl3.py:29-37 | Reading a packed index entry gives the spec back, offset and length included, and stops at its last byte. |
| ArchiveLaws.ReadersRecoverLayout | python/llmopt_backend/tensor_archive.py:185-204 | On any file that starts with a laid-out header both independent readers succeed: one yields exactly the placed specs, the other their names, dtypes and shapes. |
| ArchiveLaws.InventoryContents | python/llmopt_backend/tensor_archive.py:185-204 | The inventory holds each spec's dtype and shape under its name, and nothing else. |
| ArchiveLaws.InventoryAccepts | python/llmopt_backend/tensor_archive.py:185-204 | The inventory reader accepts exactly the files that start with a packed index of valid specs: right letters and version, no flags, no reserved bits, different names, aligned offsets behind the header, and an index that ends before it. |
| ArchiveIo.LayoutArchive | python/llmopt_backend/tensor_archive.py:78-114 | The loop that validates, advances the cursor and packs the index gives the specified layout or its error; the two internal overflow checks are unreachable. |
| ArchiveIo.WritePayloads | python/llmopt_backend/tensor_archive.py:126-170 | All or nothing for any chunk streams: success puts the whole image at the destination, and the summary counts the header, the streamed bytes and the rest as padding; a short, long or raising stream leaves the destination as it was; no temporary file remains either way. |
| ArchiveIo.StreamPayload | python/llmopt_backend/tensor_archive.py:143-154 | One tensor's chunks are written at its offset, and any stream whose total length is not the declared one is rejected. |
| ArchiveIo.ImageLength | python/llmopt_backend/tensor_archive.py:162-170 | Index, padding and data bytes add up to the length of the file. |
| ArchiveIo.ImageContents | python/llmopt_backend/tensor_archive.py:141-155 | Each extent of the written file holds the concatenated chunks of its tensor. |
| ArchiveIo.ChunkingIsIrrelevant | python/llmopt_backend/tensor_archive.py:141-155 | The file depends only on the concatenation of each tensor's chunks. |
| LaneCover.LanesCover | bench/metal_q4_opt_probe.swift:283-355 | For lanes that take 1, 2 or 4 byte positions a step, the sum over the 32 lane accumulators is the sum over every position of every visited block, each counted once. |
| Q4Model.KernelComputesDot | bench/metal_q4_opt_probe.swift:61-124 | The blocks a kernel visits make up the whole column product when it is guarded or its step divides the block count; so all five arrangements agree there. |
| Q4Model.KernelExactness | bench/metal_gemma4_layer_probe.swift:73-74 | For every decoding of scales, a kernel computes the full column product for every matrix of n by k exactly when it is guarded, its step divides the block count, or all scales decode to zero. |
| Q4Model.ShapesOfKernels | bench/metal_q4_opt_probe.swift:61-124 | The shapes each of the seven kernels is good for, in numbers: k a multiple of 64, 128 or 256, n of 8 or 16, the layer probe's guarded kernel for all. |
| Q4Model.ColumnDotIs | bench/metal_q4_opt_probe.swift:61-116 | The column product written out over the weight bytes and activations: 18 bytes a block, two of them the scale, low halves with the first 16 activations, high halves with the others, each less 8. |
| Q4Kernels.ByteLane | bench/metal_q4_opt_probe.swift:61-116 | The one-byte lane loop, with the offset in each weight or factored out, accumulates exactly the lane's terms. |
| Q4Kernels.PairLane | bench/metal_q4_opt_probe.swift:283-347 | The 16-bit lane loop with the eight subtracted once accumulates the same terms. |
| Q4Kernels.QuadLane | bench/metal_q4_opt_probe.swift:404-477 | The two-halfword lane loop does too, with or without the guard on the tail. |
| Q4Dispatch.Dispatch | bench/metal_gemma4_layer_probe.swift:528-549 | After a whole dispatch every output element holds its own column's product, written out over the weight bytes and the activations, for every column count for which the kernel stays inside the matrix and every k its steps divide. |
| Q4Dispatch.ReadsStayInside | bench/metal_q4_opt_probe.swift:36-48 | The tiles that start inside the matrix read no column outside it exactly when the kernel clamps or its tile divides the column count. |
| Q4Dispatch.SimdGroup | bench/metal_gemma4_layer_probe.swift:254-334 | One SIMD group writes its tile's columns and no other element; the clamped row pointers stay inside the matrix. |
| Q4Dispatch.OwnerIsUnique | bench/metal_gemma4_layer_probe.swift:345-370 | In the gated kernels every output element belongs to exactly one SIMD group. |
| Q4Dispatch.ElementsAreApart | bench/metal_gemma4_layer_probe.swift:345-447 | Different elements of the product have different places of the flat buffer, all inside it. |
| Q4Dispatch.GatedDispatch | bench/metal_gemma4_layer_probe.swift:336-447 | When at least m times the column groups are launched, element (row, col), at `row * n + col` of the flat buffer, is the activation of the gate weights' column product times the up weights' column product, both with the activations from `row * k` on. |
| Q4Dispatch.ProbeRow | bench/metal_gemma4_layer_probe.swift:528-549 | The threadgroups the probe launches for one row write every column of it, and a guarded kernel computes activation(gate column) times up column for each. |
| Q4Dispatch.CpuReference | bench/metal_q4_opt_probe.swift:643-654 | The host loop over the probe's constant data computes the same column product. |
| Walsh.TransformIsSylvester | bench/convert_gguf_exl3.py:17-26 | The recursive transform is the product with the Sylvester matrix, for every power of two. |
| Walsh.TransformTwice | bench/convert_gguf_exl3.py:17-26 | Applied twice it multiplies by the length (128 in the source). |
| Walsh.TransformEnergy | bench/convert_gguf_exl3.py:17-26 | It multiplies the sum of squares by the length. |
| Fwht.ButterflyPasses | bench/convert_gguf_exl3.py:20-25 | The in-place doubling passes transform every run of the array on its own. |
| Fwht.PassDoublesBlocks | bench/convert_gguf_exl3.py:20-25 | One butterfly pass turns transformed runs of half the length into transformed runs. |
| Fwht.TransformRows | bench/convert_gguf_exl3.py:17-26 | The whole loop with its final factor leaves the scaled transform of each run in the array. |
| Rotation.FlatRotation | bench/convert_gguf_exl3.py:17-26 | Transforming the flat buffer of a matrix is transforming each row. |
| Rotation.RotateAxis0 | bench/convert_gguf_exl3.py:17-26 | The axis-0 form transforms the columns. |
| Rotation.RowEntry | bench/convert_gguf_exl3.py:17-26 | Entry i of block b of a rotated row is the factor times row i of the Sylvester matrix times that block. |
| Rotation.ColumnEntry | bench/convert_gguf_exl3.py:17-26 | The same down every column when axis 0 is rotated. |
| Rotation.RotationUndone | bench/convert_gguf_exl3.py:105-106 | Rotating along axis 0 and then axis 1 is undone by axis 1 and then axis 0 when the factor squared times the length is one. |
| Rotation.RotateRowEnergy | bench/convert_gguf_exl3.py:17-26 | With that factor a rotation keeps the energy of every row. |
| Exl3.PositionIsBijective | bench/exl3_quantize.metal:3-6 | The position of a tile's cell is a bijection between 16 by 16 cells and 256 positions. |
| Exl3.RunIsUnique | bench/exl3_quantize.metal:17-34 | The rule "least nibble that minimises the two-step cost" determines the whole run of choices. |
| Exl3.TwoStepErrorIs | bench/exl3_quantize.metal:19-28 | The cost of a choice with a look-ahead is the squared distance of what the two 16-bit windows decode to from the target here and at the next position, the first one after the last. |
| Exl3.StateIsWindow | bench/exl3_quantize.metal:20-33 | After at least four choices the 16-bit state is the window of the last four. |
| Exl3.WindowOfPacked | lib/metal_exl3_codegen.ml:33-41 | The decoder's shifts on two neighbouring words yield the four choices that end at a position of the ring. |
| Exl3Kernel.FillTarget | bench/exl3_quantize.metal:11-15 | The lanes gather entry (i, j) of the row-major matrix, `input[i * n + j]`, to its cell's position, for every cell of the tile. |
| Exl3Kernel.SourceIsRowMajor | bench/exl3_quantize.metal:11-15 | Entry (i, j) of the matrix is read by the tile of i / 16 and j / 16 at cell (i mod 16, j mod 16). |
| Exl3Kernel.Choose | bench/exl3_quantize.metal:19-32 | The SIMD minimum over lanes and look-ahead picks the best nibble, the least one on ties. |
| Exl3Kernel.Encode | bench/exl3_quantize.metal:17-38 | Three sweeps emit 32 words that are exactly the 256 choices of the last sweep, in order, of the run the rule determines. |
| Exl3Kernel.EncodingIsUnique | bench/exl3_quantize.metal:17-38 | The words of a tile are determined by the target and the codebook. |
| Exl3Kernel.QuantizeTile | bench/exl3_quantize.metal:7-39 | A tile's words are the last sweep of the run on that tile's own matrix entries; they go to its own 32 places of the output and nothing else changes. |
| Exl3Kernel.QuantizeMatrix | bench/exl3_quantize.metal:7-39 | After the whole dispatch every tile's 32 words are the encoding of that tile's entries of the matrix. |
| Exl3Kernel.DecoderSeesScoredState | bench/exl3_quantize.metal:18-36 | From position 3 on the decoder reads the state whose error was scored. |
| Exl3Kernel.RingCloses | bench/exl3_quantize.metal:17-38 | All 256 windows are the scored states exactly when the last three choices of the last two sweeps agree. |
| Exl3Kernel.RingStaysOpen | bench/exl3_quantize.metal:17-38 | The encoder's run on one tile and codebook ends its last sweep on other choices than the one before, so a window it packs is not the scored state. |
| CaptureFx.CaptureFromFx | python/llmopt_backend/__init__.py:457-529 | The two loops give the specified capture, or the error for the first static node that holds no tensor. |
| CaptureLaws.CaptureIsFaithful | python/llmopt_backend/__init__.py:467-486 | Every static node is bound to a stored tensor of its own identity exactly when the first nodes of different identities have different keys. |
| CaptureLaws.BindingsAreStored | python/llmopt_backend/__init__.py:467-504 | In any case exactly the static nodes are bound to the store, each under a key it has. |
| CaptureLaws.CollidingKeysMislead | python/llmopt_backend/__init__.py:480-485 | Two static placeholders of one key with different tensors: the store keeps the second tensor, and the first node reads it. |
| CaptureLaws.StaticExactly | python/llmopt_backend/__init__.py:457-486 | A node is static exactly when it is an attribute that is a tensor, or a static placeholder whose own example input is one. |
| CaptureLaws.StaticNodeKey | python/llmopt_backend/__init__.py:467-486 | A static node is bound to the static key of the first node whose tensor has the same identity. |
| CaptureFx.PutKeepsOrder | python/llmopt_backend/__init__.py:480-485 | Storing under a key that is there keeps its place in the dictionary, a new one comes last. |
| CaptureLaws.CapturedNode | python/llmopt_backend/__init__.py:487-529 | A captured node is the original in every field but the binding: to the store exactly when static, else runtime exactly for placeholders, else computed; the version is 2. |
| CaptureLaws.CapturedOutputs | python/llmopt_backend/__init__.py:487-529 | The outputs are what the last output node refers to, and none without one. |
| CaptureLaws.CaptureFails | python/llmopt_backend/__init__.py:467-486 | Capture fails exactly when some static value is not a tensor, and names the first node that has one. |
| CaptureLaws.StoreHolds | python/llmopt_backend/__init__.py:467-486 | The store holds under each key the very tensor of the last node at which a new identity got that key, and no other key. |
| CaptureSession.Session.SealArchive | python/llmopt_backend/__init__.py:127-136 | Sealing refuses an existing archive, else writes the tensors and indexes them both ways. |
| CaptureSession.Session.CanonicalKeys | python/llmopt_backend/__init__.py:138-155 | Gives the sealed key of every tensor, or the error of the first unknown one in dictionary order. |
| CaptureSession.RebindGraph | python/llmopt_backend/__init__.py:157-176 | Replaces the key of every tensor-store node, or names the first key that has no tensor. |
| CaptureSession.Session.BindGraph | python/llmopt_backend/__init__.py:178-196 | The whole new state and outcome of a bind are those of the specification. |
| SessionLaws.BindKeeps | python/llmopt_backend/__init__.py:127-196 | After every call a sealed session's maps are the index of the archive on disk, and no existing file or sealed map was changed. |
| SessionLaws.SealedOnce | python/llmopt_backend/__init__.py:127-196 | Over whole runs the store is sealed at most once and its maps, archive and links never change after. |
| SessionLaws.AcceptedGraphKeepsItsTensors | python/llmopt_backend/__init__.py:157-196 | An accepted graph is the captured one but for binding keys, and each leads in its own linked archive to a tensor of the captured identity. |
| SessionLaws.AcceptedGraphKeepsTheRest | python/llmopt_backend/__init__.py:157-196 | An accepted graph keeps its outputs and version; the returned dictionary holds one tensor of every captured identity, the last one captured, under a key at which the linked archive stores that identity, and nothing else. |
| SessionLaws.LastKeyIsSealed | python/llmopt_backend/__init__.py:133-136 | An identity is sealed under the key of the last tensor that has it. |
| SessionLaws.AcceptedForever | python/llmopt_backend/__init__.py:178-196 | That stays so at every later point of the run. |
| SessionLaws.FilesOfRun | python/llmopt_backend/__init__.py:127-196 | At every point of every run the files are those it started with, the archive once it is sealed, and one link for every accepted graph; nothing else, and every new file is a copy of the archive. |
| SessionLaws.SealedAcceptsExactly | python/llmopt_backend/__init__.py:138-196 | A sealed session accepts a graph exactly when all its storage is sealed, its bindings have tensors and its path is free. |
| SessionLaws.FirstIsAcceptedExactly | python/llmopt_backend/__init__.py:127-196 | The first graph with tensors is accepted exactly when the archive is new and can be written, its bindings have tensors and its path is free. |
| SessionLaws.CanonicalError | python/llmopt_backend/__init__.py:140-153 | The first unknown storage decides the error: changed if its key is sealed, not present otherwise. |
| SessionLaws.BindRejects | python/llmopt_backend/__init__.py:127-196 | What a rejected graph is told, case by case, and that the session is then as before. |
| SessionLaws.CapturedThenBound | python/llmopt_backend/__init__.py:178-196 | Capture followed by an accepted bind lets every static node read its own tensor exactly when the capture's keys are distinct. |
| GraphNames.RenamingKeepsDataflow | bench/build_gemma4_engine.py:195-202 | Renaming keeps every operand's definition exactly when no node reads a value after another one of the same new name. |
| GraphNames.RenamingKeepsValues | bench/build_gemma4_engine.py:195-202 | Then every node computes what it did, for any meaning of the operations, when no other string is renamed. |
| GraphNames.OperandsAre | lib/fx.ml:27-34 | Every place a reference can stand in is read, in order; other texts are not. |
| GraphNames.CallIsDetermined | lib/fx_plan.ml:80-125 | A computed node's operation and operands determine its whole call: target, shape, dtype, inputs and arguments. |
| FxSerial.ReplacingRenames | bench/build_gemma4_engine.py:195-202 | Replacing strings in the serialized manifest is renaming its texts, exactly when no word of the format and no dtype in use is replaced by another. |
| FxSerialFormat.WholeManifest | python/llmopt_backend/__init__.py:505-529 | One manifest with every kind of argument, binding and shape as the dictionaries it is serialized as, key by key. |
| TargetOutputs.TargetReplacesStrings | bench/build_gemma4_engine.py:278-330 | The target graph is what replacing strings in the serialized manifest gives, with the outputs replaced, when no such word is renamed. |
| TargetOutputs.RetainReplacesStrings | bench/build_gemma4_engine.py:205-239 | The same for retaining diagnostic outputs. |
| FxInputs.NodeRefsMissSlices | python/llmopt_backend/__init__.py:273-283 | The reference walk finds at most what the arguments contain, and all of it exactly when no slice contains a node. |
| FxInputs.UniqueValues | python/llmopt_backend/__init__.py:385-392 | Keeps the first occurrence of every value, in order. |
| TargetGraph.BindExternalTensors | python/llmopt_backend/__init__.py:54-104 | The checks and the node loop give the specified binding or its error. |
| TargetLaws.BindExternalAccepts | python/llmopt_backend/__init__.py:54-104 | Accepted exactly when the map is a bijection on the captured keys, fits every bound node's shape, has no blank name, and every captured tensor has a node. |
| TargetLaws.ExternalKeysAreBijective | python/llmopt_backend/__init__.py:67-95 | Two nodes share an external key exactly when they shared a captured one. |
| TargetLaws.ExternalKeepsValues | python/llmopt_backend/__init__.py:71-104 | Every node computes from the external store what it computed from the captured tensors. |
| TargetFormat.BoundNode | python/llmopt_backend/__init__.py:71-104 | A tensor-store node gets the key and dtype of its external tensor, whose shape is its own; no other field, node, output or version changes and no tensor is kept. |
| TargetFormat.FirstObjection | python/llmopt_backend/__init__.py:73-89 | The first node that cannot be bound decides the error, by a missing binding, then the shape, then a blank name. |
| TargetFormat.SpacesExactly | python/llmopt_backend/__init__.py:88 | The code points that make a name blank. |
| TargetLaws.CoveredExactly | bench/build_gemma4_engine.py:308-317 | The check on the output names passes exactly when the logits and the cache outputs are all different. |
| TargetLaws.CacheNamesAreDifferent | bench/build_gemma4_engine.py:299-303 | The generated cache names are different for different layers and roles, and none is `logits`. |
| TargetFormat.StateNamesAre | bench/build_gemma4_engine.py:158-170 | The names of the first and last cache states of the 48 layers, letter by letter. |
| TargetFormat.StateInput | bench/build_gemma4_engine.py:158-170 | The traced inputs `l_cache_states_<2 l>_` and `l_cache_states_<2 l + 1>_` become the key and the value of layer l, for every l. |
| TargetFormat.OutputOrder | bench/build_gemma4_engine.py:299-317 | Output 0 is renamed to `logits`; the states of the last layer at 2 and 3, of the one before at 4 and 5, and of layer l at 6 + 2 l and 7 + 2 l get their layers' names. |
| TargetFormat.TargetOutputsAre | bench/build_gemma4_engine.py:319-325 | The target graph returns `logits` and then the key and the value of every layer in order. |
| TargetFormat.TargetReturns | bench/build_gemma4_engine.py:319-325 | The first output node of a target graph returns a tuple of the graph's outputs by position, with the same input list and no keywords. |
| TargetFormat.TargetAccepts | bench/build_gemma4_engine.py:278-325 | A target graph can be made exactly when every runtime input has a name for it, the outputs are two and two different ones for each layer, and some node is an output node under the new names. |
| TargetOutputs.TargetKeepsValues | bench/build_gemma4_engine.py:278-330 | When the new names capture no read, the target graph computes before its output node what the bound graph did, with the inputs fed under their semantic names; traced graphs meet that condition (`TracedTarget.TracedNamesAreSafe`). |
| TargetOutputs.BuildKeepsValues | bench/build_gemma4_engine.py:278-330 | The same for the whole build, external binding included, under the same condition. |
| TargetOutputs.TargetNamesOutputs | bench/build_gemma4_engine.py:299-325 | When the new names capture no read, the graph returns `logits` and the caches in layer order, and under each name the output node reads the captured output it stands for. |
| TargetOutputs.OutputsAreOrderedExactly | bench/gemma4_mtp_capture.py:286-294 | After deduplication the wrapper's outputs are in the order the names assume exactly when the shared states are the last two layers'. |
| TargetOutputs.EveryLayerKeepsItsName | bench/build_gemma4_engine.py:304-317 | From the wrapper to the engine, when the new names capture no read, the state of each layer leaves under that layer's own name. |
| TracedTarget.TracedNamesAreSafe | bench/gemma4_mtp_capture.py:164-185 | For every graph traced through the cache facade, the names the target graph gives capture no read exactly when no value that keeps its traced name does. |
| TracedTarget.FreshNamesAreSafe | bench/build_gemma4_engine.py:278-318 | The latter holds when no value that keeps its name already has a semantic one. |
| TracedTarget.TracedBuildAccepts | bench/build_gemma4_engine.py:278-325 | The build of a traced model succeeds exactly when its weights can be bound and its logits are not a cache state. |
| TracedTarget.TracedBuildKeepsValues | bench/build_gemma4_engine.py:278-330 | Every node of the target graph of a traced model computes what was captured, with no assumption on captured reads beyond the values that keep their names. |
| TracedTarget.TracedStateKeepsItsName | bench/build_gemma4_engine.py:299-325 | The target graph of a traced model returns each slot's state under that slot's name: its output node reads there what the cache facade ended with. |
| TracedTarget.TracedOutputKeepsItsName | bench/build_gemma4_engine.py:299-325 | The same for every retained output, the logits among them. |
| TracedExample.ModelIsBuilt | bench/build_gemma4_engine.py:278-330 | A traced model of two layers meets all these hypotheses and its build succeeds. |
| TargetOutputs.RetainKeepsDataflow | bench/build_gemma4_engine.py:205-239 | Retaining diagnostic outputs under names no node has keeps every definition and appends exactly the new outputs. |
| TargetOutputs.TargetIsClosed | bench/build_gemma4_engine.py:319-325 | The target graph refers to nothing before it is defined, so diagnostic outputs can be retained from it in turn. |
| TargetOutputs.RetainNamesOutputs | bench/build_gemma4_engine.py:205-239 | Under each retained name the output node reads the value that was asked for, and under its other names what it read before. |
| TargetOutputs.RetainKeepsValues | bench/build_gemma4_engine.py:205-239 | Every node before the output node computes what it did. |
| TargetFormat.RetainAccepts | bench/build_gemma4_engine.py:205-239 | Diagnostic outputs can be retained exactly when their names are different, start with `diagnostic.` and are no outputs yet, their sources are nodes, and some node is an output node after renaming. |
| TargetFormat.RetainReturns | bench/build_gemma4_engine.py:205-239 | After retaining, it returns what it returned before, renamed, and then the new outputs, and the graph's outputs are extended in the same way. |
| TargetBuild.BuildTargetGraph | bench/build_gemma4_engine.py:278-330 | The dictionary loops and in-place assignments give the specified target graph or its error, with either diagnostic flag set or not. |
| TargetBuild.RetainDiagnosticOutputs | bench/build_gemma4_engine.py:205-239 | Checks in the source's order, then renames and extends the outputs and the output node. |
| TargetBuild.ManifestObject.Return | bench/build_gemma4_engine.py:319-325 | Replaces the outputs and the first output node's operands, or reports that there is none. |
| CacheTrace.StepKeeps | bench/gemma4_mtp_capture.py:173-182 | Tracing keeps: what a slot was given is read at most up to the node now in the slot, which comes later. |
| CacheTrace.TracedGraphIsUncaptured | bench/gemma4_mtp_capture.py:164-185 | Any renaming of a traced graph in which only the input and output of a slot share a name captures no read; the target graph's own renaming is the subject of `TracedTarget.TracedNamesAreSafe`. |
| FunctionalCache.Cache.Append | bench/gemma4_mtp_capture.py:173-182 | Appends to one layer, returns the new tensors and leaves the other layers alone. |
| FunctionalCache.Cache.State | bench/gemma4_mtp_capture.py:184-185 | Interleaves keys and values in layer order. |
| FunctionalCache.InterleaveSplit | bench/gemma4_mtp_capture.py:167-185 | Splitting an even state and interleaving it again is the identity. |
| FunctionalCache.SplitInterleave | bench/gemma4_mtp_capture.py:167-185 | Interleaving and splitting gives back keys and values. |
| FunctionalCache.DecodeForward | bench/gemma4_mtp_capture.py:252-296 | A decode wrapper's forward rebuilds the cache, makes its updates and returns the specified state, or rejects an odd one. |
| FunctionalCache.PrefillForward | bench/gemma4_mtp_capture.py:206-249 | A prefill forward returns the specified state, or fails when a layer stays empty. |
| FunctionalCache.DecodesConcatenate | bench/gemma4_mtp_capture.py:164-185 | Over any number of decodes each layer holds its first content and then everything passed for it, in order, and nothing else. |
| FunctionalCache.PrefillAccepts | bench/gemma4_mtp_capture.py:188-203 | A prefill succeeds exactly when every layer is updated. |
| FunctionalCache.GenerationConcatenates | bench/gemma4_mtp_capture.py:164-203 | After a prefill and any decodes a layer is its last prefill update and all decode updates; that is everything passed exactly when the earlier prefill updates were empty. |
| TraceLaws.StepKeeps | bench/racebench/http.py:272-334 | Every step of every interleaving keeps the invariant of conversations, queue and workers. |
| TraceLaws.RequestsAreBounded | bench/racebench/http.py:272-341 | In every reachable state a conversation has at most one request in the pool, one exactly while it waits for it, and at most the given number run at once. |
| TraceLaws.FinishedRun | bench/racebench/http.py:319-346 | A finished run has exactly one result for every conversation and turn, already in the order of the final sort; each conversation is successes, then at most one failure, then only skipped zero-score turns. |
| TraceLaws.Progress | bench/racebench/http.py:335-341 | With any pool size the runner accepts, some step can be taken until everything is finished, whatever a worker replies. |
| TraceLaws.PoolSize | bench/racebench/http.py:335-341 | A pool needs at least one worker; without a limit a queued request can start at any time, with one exactly while fewer requests are running. |
| TraceLaws.RunsAreShort | bench/racebench/http.py:272-341 | No run has more than four steps per request. |
| TraceReplay.FinishedRunIsOneByOne | bench/racebench/http.py:253-346 | If replies depend only on the body, the untimed results of every interleaving on every pool are those of the conversations run one after the other. |
| TraceRequests.RequestsSayTheTrace | bench/racebench/http.py:272-334 | In every reachable state of every run with a server that answers by the body, a running request of turn t consists of the system message if there is one, then for every earlier turn its user text and the text that was answered, then turn t's user text, with turn t's token limit; the prefix goes before the first user text alone. |
| TraceRequests.ResultsReportReplies | bench/racebench/http.py:319-334 | Every result there carries the success, text and score of the reply to its own such request, or is a skipped one after a failure. |
| TraceRequests.WholeReports | bench/racebench/http.py:272-334 | The same for one conversation on its own, which gives one result a turn. |
| TraceReplay.RunConversation | bench/racebench/http.py:272-333 | The coroutine's loop yields its conversation's results in that shape. |
| TraceReplay.Runner.Resume | bench/racebench/http.py:323-333 | A resumed coroutine appends its result and either the skipped rest or the assistant message, as the state machine says. |
| TraceReplay.Runner.Start | bench/racebench/http.py:335-338 | An idle worker takes the oldest request with the body as it is then. |
| PromptLookup.FindCandidateNgram | bench/bench_prompt_lookup_speculative.py:38-51 | The two descending loops return the specified draft, for negative lengths as well, with Python's slices. |
| PromptLookup.EmptyExactly | bench/bench_prompt_lookup_speculative.py:38-51 | The draft is empty exactly when none is asked for, there are no tokens, or no suffix of an allowed length recurs earlier. |
| PromptLookup.DraftIsLongestAndLatest | bench/bench_prompt_lookup_speculative.py:38-51 | Otherwise it continues the longest such suffix from its latest earlier position, with at least one and at most the allowed tokens; if only the empty suffix recurs it is the last token. |
| PromptLookup.DraftIsPeriodic | bench/bench_prompt_lookup_speculative.py:43-50 | Tokens and draft together have the distance of the match as period from the suffix on. |
| PromptLookup.SearchesAgree | lib/serving_speculative.ml:163-196 | The serving engine's search fails exactly when the first length it tries is negative; otherwise it drafts for the same inputs, at least as much, and the same when the latest match fills the limit. |
| Speculative.GreedyArray | lib/serving_speculative.ml:9-25 | The array form computes the specified acceptance, or its error for a wrong number of predictions. |
| Speculative.EmittedIsGreedy | lib/serving_speculative.ml:9-25 | What is emitted is what the target model decodes alone, and the accepted prefix of the draft is the longest that agrees. |
| Speculative.SpeculationIsGreedy | lib/serving_speculative.ml:9-25 | Any number of rounds over any drafts emits the target's greedy decoding, at least one token a round. |
| Int4Pack.UnpackOfPack | python/llmopt_backend/quantization.py:83-88 | Unpacking gives back every row of int4 values. |
| Int4Pack.PackOfUnpack | python/llmopt_backend/quantization.py:111-117 | Packing gives back every row of bytes. |
| Int4Pack.QuantizedIsNear | python/llmopt_backend/quantization.py:72-82 | Every quantized value is within 7, so the clamp is idle, and within half a step of the weight. |
| Int4Pack.RangeIsUsed | python/llmopt_backend/quantization.py:72-82 | A group not below `eps` uses the whole range. |
| Int4Pack.StableExactly | python/llmopt_backend/quantization.py:63-121 | Packing an unpacked group changes nothing exactly under a condition on its largest magnitude, `eps` and the rounding of scales: the magnitude gives both the largest quantized value and the stored scale. |
| Int4Pack.LargeGroupsAreStable | python/llmopt_backend/quantization.py:63-121 | In particular for every group not below `eps` whose stored scale is at least the least one. |
| Int4Pack.LargestIsOfAmax | python/llmopt_backend/quantization.py:72-82 | The largest quantized magnitude of a group is 7 if its largest weight is not below `eps`, and otherwise that weight's own rounded quotient. |
| Int4Pack.FlushedGroup | python/llmopt_backend/quantization.py:63-121 | When the least scale is stored as zero, a group not above `eps` is unpacked to zeros, and packs to the same again exactly when it was quantized to zeros. |
| Int4Pack.EpsilonGroupMoves | python/llmopt_backend/quantization.py:63-121 | Under any rounding that treats the least scale as half precision does, a group of 64 whose largest weight is float32 epsilon is quantized to 7, unpacked to zeros, and packed again to something else. |
| Int4Weight.UnpackedIsNear | python/llmopt_backend/quantization.py:63-121 | For every weight, unpacking the packed one is within half a step plus what rounding the scale adds. |
| Int4Weight.PackOfUnpacked | python/llmopt_backend/quantization.py:63-121 | When every group is stable, packing the unpacked weight gives the same bytes and scales. |
| Int4Weight.PackedByte | python/llmopt_backend/quantization.py:63-88 | Byte j of a packed row holds the rounded quotients of columns 2 j and 2 j + 1 by their group's step, low half first, in two's complement; the group's stored scale is that step, rounded. |
| Int4Weight.PackAccepts | python/llmopt_backend/quantization.py:26-40 | A weight is packed exactly when it has rows and a positive number of columns in whole groups of 64. |
| Int4Weight.UnpackAccepts | python/llmopt_backend/quantization.py:42-105 | A packed weight is unpacked exactly when it has rows, bytes in whole groups of 32 and a scale for each. |
| CostModel.AlwaysMemoryBound | bench/analyze_projection_cost_model.py:160-239 | The roofline is the memory time for every legal shape and tile. |
| CostOrder.ShapeIsSortedPermutation | bench/analyze_projection_cost_model.py:242-252 | A legal shape gets exactly the tiles that divide n, each once with its own prediction, sorted by cost and name. |
| CostOrder.IllegalShapes | bench/analyze_projection_cost_model.py:167-170 | An illegal shape is refused exactly when 4 divides n. |
| CostOrder.WidestFirstExactly | bench/analyze_projection_cost_model.py:160-252 | For every n divisible by 16 and every legal k the widest tile is proposed first exactly when n is at most 1920 or above 3456; in between the tile of 8 columns costs less. |
| CostOrder.OneProjection | bench/analyze_projection_cost_model.py:160-246 | The prediction for 4096 by 4096 with the tile of 8 in numbers: workgroups, registers, bytes, compute and memory time and total. |
| CostOrder.WideTilesFirst | bench/analyze_projection_cost_model.py:160-252 | For every n divisible by 16 up to 960 or above 3456, and every legal k, the order is 16, 8, 4. |
| CostOrder.EightFirstAtThreshold | bench/analyze_projection_cost_model.py:160-252 | At n = 3456 it is 8, 16, 4 for every legal k. |

## Left out

- Floating point: half and single rounding (but for the half-precision rounding of small scales in `Int4Pack`), `INFINITY` and NaN in the kernels, the quantizers and the cost model; sums are over `real`, so their order does not matter. Rounding of a scale to half precision is any map of the right kind.
- Fixed-width arithmetic of the kernels: indices are unbounded, and the model does not say when a 32-bit index would wrap; the packed words and 16-bit states are truncated as in the source.
- GPU execution: the lanes of a SIMD group run one after the other, and a barrier is the end of a loop; no two lanes write the same element in these kernels.
- Q4Dispatch.Dispatch: a kernel that does not clamp is dispatched only on column counts that its tile divides, as the probe does; with any other count it would read outside the matrix (`Q4Dispatch.ReadsStayInside`), where the source defines no value.
- FxGraph: missing dictionary keys and wrongly typed values of a manifest, for which the writer raises or takes defaults; the model starts from complete manifests and has one error for all that the writer refuses.
- Utf8.DecodesExactlyEncodings: decoding errors carry no position.
- ArchiveIo.WritePayloads: failures of the file system itself (creating, syncing, replacing), which are not the streams' doing; tensor bytes come as chunk streams, and copying tensors to the host is not modelled.
- TensorArchive.LayoutGeometry: names are ordered by code point, as Python compares strings; dtype tags outside the table are rejected by the validation that is modelled.
- CaptureFx: how PyTorch finds a node's tensor, its identity and its static key; they are given with each node, with FX's guarantee that node names are distinct. Shapes, dtypes and argument serialization come with the node.
- CaptureSession: identities are numbers; equal identities mean the same storage, so the same contents. The lock is not modelled, as calls are atomic under it, nor are failures of the directory and link calls other than an existing or missing file.
- GraphNames: the planner also looks nodes up by name to see how an operand was made, which the semantics of a value does not cover.
- TargetGraph: cache indices are plain decimal digits; Python's `int` also reads signs, spaces and underscores. The table from captured keys to weight names is a parameter.
- TargetOutputs.TargetKeepsValues: stated for the nodes before the output node, which FX puts last, and for names that capture no read; `TracedTarget` discharges the latter for traced models.
- TracedTarget: a trace is a list of nodes and updates; what PyTorch's tracer does to obtain it is not modelled. A value that keeps its traced name is assumed not to capture a read, which the code does not check.
- FunctionalCache: layer indices are those of existing layers; Python's negative indices and its index error are not modelled.
- TraceRunner: time, sockets, streaming and connection reuse; a reply is whatever a worker gives, and the queue of the pool is first in, first out. Request fields that are the same for every turn are left out of the body.
- Int4Weight: tensors that are not two-dimensional, and wrong storage dtypes.
- CostModel: parsing, aggregating and comparing measurements; seconds are not converted to microseconds.
- The OCaml compiler, its kernels and schedules, the radix cache and the serving engine beyond draft search and acceptance.
- `bench/metal_q4_gated_opt_probe.swift` and `bench/metal_q4_tile_probe.swift`: the same kernels and reference again.
- Receipt auditors, matrix validators, report writers, command lines, process supervision, downloads and score percentiles.
