# Verified model of the tileRL scripts

tileRL serves Qwen3.8-27B in one process. Beside the engine it keeps a directory of scripts that decide
whether the engine is right and how fast it is: a check that block speculation reproduces greedy decode,
kernel schedules and their checks, a resumable weight download, a pre-registration ledger, log parsers, a
benchmark gate, paired evaluations, corpus cutting. This project models the algorithms of those scripts
and proves what they are for.

| file | what it models |
|---|---|
| `Decoding.dfy` | greedy decode over an arbitrary per-token step, draft heads |
| `Trunk.dfy` | the hybrid layer stack: full attention and gated-delta layers; layer by layer against token by token |
| `Session.dfy` | one session's KV pool, recurrent states and two window planes, updated in place by a forward |
| `SpeculativeDecode.dfy` | reference decode, speculative block loop, block-fed verify |
| `Prelude.dfy`, `Sums.dfy` | shared integer functions; exact sums: splitting, reordering, blocks, strides |
| `GemvSchedule.dfy`, `GemvCheck.dfy` | the fp4 GEMV's K schedule, its index check, its numeric check and its negative control |
| `Fp4Codes.dfy` | the 4-bit code and the three bit patterns it is decoded into |
| `PrefillGemm.dfy`, `PrefillKernels.dfy` | the fp8 prefill kernels: vectorized dequant, tiling, split-K, scale on the accumulator, zero padding |
| `Download.dfy` | segmented resumable download under writes, torn writes, failures, crashes and restarts |
| `Prereg.dfy` | the ledger, sequential and interleaved |
| `PrefillTicks.dfy`, `PhaseReport.dfy` | the tick segmentation machine; phase split, decode-forward identity and cut |
| `Baseline.dfy` | the gate, the max-merge, the pull |
| `Drain.dfy`, `CurveTable.dfy`, `Discordance.dfy` | bounded-concurrency drain and paired scoring; contingency tables over permuted rows |
| `Corpus.dfy`, `Ladder.dfy` | bounded re-encoding and span cutting; launch rungs |

Conventions. What the scripts only call is a parameter: the layer functions of the trunk, the tokenizer's
`encode`, the hash, git ancestry, the generator, the engine's order and time of completion, the clock. All
arithmetic is exact (`int`, `real`); the narrowing cast of a scaled weight is an arbitrary function. A
`seq` argument called `order` is any permutation in which a parallel loop may run its iterations.

Where the code and its own comments differ the model follows the code:

- `scripts/phase_report.py:187-188` says the decode-forward identity is checked before a cut. The code
  (lines 309-325) computes it on the ticks already cut. `CutAcceptedIff` gives the exact condition under
  which a cut is accepted, `ExactPairRefusesCuts` and `BrokenPairAccepted` what follows on a pair that
  satisfies the identity and on one that does not.
- `scripts/mmlu_thinking_spec.py:148` calls the unanswered slots "interspersed". Questions are taken from
  the end of the list, so the unanswered slots are exactly the first ones (`DrainAll`).
- `scripts/corpus.py:161-166` lets the first length consume the whole stream. `EmptyIff` says exactly when
  a length gets no span; one that is at least some earlier length never does, and a repeated length
  overwrites the spans it had with none (`LaterLongerStarves`).
- `scripts/_sweep_fp8_prefill.py:57` decodes exponent field 0 without the subnormal case, so the code for
  zero reads as one half. `MacroIsE2M1Iff` says exactly on which codes that equals E2M1 of the OCP
  Microscaling Formats (MX) Specification v1.0, section 5.3.3.
- `scripts/prereg.py:71-73` appends so that starts do not lose rows. They do not (`StartsLoseNothing`), but
  the check for a running row is not atomic with the append (`InterleavedStartsDuplicate`), and a
  rewrite can drop and re-open rows. `NothingLostIff` says exactly when no trace loses anything.
- A partial file is resumed at its length (`scripts/download_megakernel_weights.py:43`). When segments of an
  earlier run landed out of order before it died, the length is not the length of a true prefix, and the
  download can then never finish (`CanFinishIff`, `OutOfOrderCrash`).

## Model

| member | source | states |
|---|---|---|
| Trunk.LayerMajorIsTokenMajor | src/tilerl/model.py:666-685 | a forward that runs the stack layer by layer over a whole chunk gives the same outputs, recurrent states, windows and KV cells as decoding the chunk token by token |
| Trunk.LayerMajorSnoc | src/tilerl/model.py:666-685 | one more token in the chunk is one token through the stack as the chunk left it |
| Trunk.ForwardIsFeed | src/tilerl/model.py:639-690 | from embedded tokens to argmaxes, a chunk forward absorbs the tokens one by one |
| Trunk.StackOnStack | src/tilerl/model.py:666-685 | layers run from the first up: a token through two stacks is a token through the lower one and its output through the upper |
| Session.Capacity | scripts/parity_chunk_vs_decode.py:49-50 | the pool holds at least prompt + gen + chunk + 64 positions |
| Session.Session.AttnLayer | src/tilerl/model.py:678-683 | cells of the chunk are written before a query reads them, query k sees cells up to its own, no other cell changes |
| Session.Session.GdnLayer | src/tilerl/model.py:570-597 | a recurrent layer reads the live window plane and writes the given one; other layers and the other plane keep their contents |
| Session.Session.Layers | src/tilerl/model.py:666-685 | the in-place layer loop equals the layer-major run of the logical stack |
| Session.Session.Run | src/tilerl/model.py:639-690 | a forward leaves the layer-major run over the embedded tokens, argmax k being the head on the last layer's output at position k |
| Session.Session.Forward | src/tilerl/model.py:595-597 | in place, with or without the one-launch kernel's plane flip, the logical state at pos + chunk is the chunk absorbed token by token; stale cells above are never read, cells below pos never change |
| Session.Session.Snapshot | src/tilerl/kv_cache.py:602-605 | states and the live window plane are copied out |
| Session.Session.Restore | src/tilerl/kv_cache.py:607-609 | restoring into plane 0 brings back the logical state of the snapshot although the KV pool is not rolled back |
| Decoding.DecodeIsGreedy | scripts/parity_chunk_vs_decode.py:69-77 | token n of greedy decode is the last argmax of one pass over the prompt and the tokens before it, and that pass leaves the decode's state |
| Decoding.FeedConcat | scripts/parity_chunk_vs_decode.py:71-77 | absorbing one stretch of tokens after another is absorbing both |
| Decoding.AcceptedPrefixIsGreedy | scripts/parity_chunk_vs_decode.py:88-107 | accepting the drafts that equal the argmaxes before them, plus one token, extends a greedy run, and absorbing the kept tokens gives its state |
| Decoding.RunReadsBack | scripts/parity_chunk_vs_decode.py:117-124 | feeding greedy's own tokens reads greedy's next tokens and follows its states |
| Decoding.BlockAccepts | scripts/parity_chunk_vs_decode.py:92-98 | what a verified block accepts is the longest prefix of its drafts that agrees with greedy decode |
| Decoding.TallyCommits | scripts/parity_chunk_vs_decode.py:82-108 | the accounting settled by the run and the draft head: 1 + accepted + blocks tokens, at least gen and at most gen + chunk |
| Decoding.TallyCounts | scripts/parity_chunk_vs_decode.py:82-108 | the accounting counts the blocks and, over all of them, what the head proposed and what was accepted |
| Decoding.DraftsAreGreedy | scripts/parity_chunk_vs_decode.py:84-85 | a draft that is always greedy's continuation is accepted whole |
| Decoding.AlwaysRightTally | scripts/parity_chunk_vs_decode.py:82-108 | over a whole decode an always-right draft head has every draft accepted |
| Decoding.ReferenceDraftIsRight | scripts/parity_chunk_vs_decode.py:84-85 | the scripted accept draft, a slice of the reference, is such a draft for every chunk size |
| SpeculativeDecode.ReferenceDecode | scripts/parity_chunk_vs_decode.py:69-77 | the T=1 loop returns greedy decode of the prompt: token n is the argmax read at the last position of one pass over the prompt and the n tokens before it; one token when gen is 0 |
| SpeculativeDecode.CountAccepted | scripts/parity_chunk_vs_decode.py:92-96 | length of the longest prefix of drafts confirmed by the argmaxes |
| SpeculativeDecode.Round | scripts/parity_chunk_vs_decode.py:85-107 | one block: commits the confirmed drafts and the next argmax; afterwards the session has absorbed exactly the kept tokens, rejected cells being outside its state; pos + chain never exceeds the pool |
| SpeculativeDecode.Block | scripts/parity_chunk_vs_decode.py:82-107 | the loop invariant: the session tracks prompt and all committed tokens but the last |
| SpeculativeDecode.Blocks | scripts/parity_chunk_vs_decode.py:82-107 | over all iterations and any draft head: committed tokens are greedy decode, the accepted count is the accounting's, and accepted + iterations + 1 = committed |
| SpeculativeDecode.BlockLoop | scripts/parity_chunk_vs_decode.py:79-108 | for every prompt, gen, chunk and draft head the loop ends; every committed token is the argmax read behind the prompt and the tokens committed before it; the tokens cut to gen are greedy decode, and the accepted count and uncut length are what the run and the draft head settle |
| SpeculativeDecode.LoopCheck | scripts/parity_chunk_vs_decode.py:79-115 | the script's own assertion cannot fail in accept or reject mode; the accepted count is the accounting's, which in accept mode is every draft proposed |
| SpeculativeDecode.BlockFed | scripts/parity_chunk_vs_decode.py:117-133 | greedy's tokens fed in blocks of any positive size read back ref[1:] |
| GemvSchedule.TilesInOrder | scripts/_sweep_gemv_micro.py:92-93 | grouped tiles followed by tail tiles are all tiles once, ascending, whatever the group |
| GemvSchedule.ScheduleAcc | scripts/_sweep_gemv_micro.py:94-98 | accumulating thread by thread and tile by tile equals accumulating the tiles in ascending order |
| GemvSchedule.ScheduleElements | scripts/_sweep_gemv_micro.py:85-98 | segments that fill their tiles visit every element below the padded K once |
| GemvSchedule.SegmentForm | scripts/_sweep_gemv_micro.py:94-98 | every segment is segment s of some tile below the padded K |
| GemvSchedule.SegmentThere | scripts/_sweep_gemv_micro.py:94-98 | and every such segment is issued |
| GemvCheck.CleanIffSound | scripts/_sweep_gemv_micro.py:85-98 | the segments partition [0, K) and each lies in its scale's block iff 32 * micro divides K and tiles and blocks nest (or K fits in one block), whatever the group |
| GemvCheck.CheckIndex | scripts/_sweep_gemv_micro.py:101-113 | "ok" iff K > 0 and the parameters are sound; any other answer names a real over-read, wrong scale or coverage defect; K = 0 is the error of min over nothing |
| GemvCheck.CheckSegments | scripts/_sweep_gemv_micro.py:103-113 | the counting loop over any segments: "ok" iff they are clean |
| GemvCheck.TermsSpelledOut | scripts/_sweep_gemv_micro.py:126-131 | the reference weighs element k by scale k // block, the control by scale (k - k % micro) // block |
| GemvCheck.SegmentedIsRef | scripts/_sweep_gemv_micro.py:126-132 | one scale per segment, accumulated in the kernel's order, is the dot product with scale k // block |
| GemvCheck.UnsegmentedIsFirstScale | scripts/_sweep_gemv_micro.py:127-131 | the un-segmented control sums every tile under its first element's scale |
| GemvCheck.CheckNumericRow | scripts/_sweep_gemv_micro.py:116-133 | one output row of the kernel's order equals the reference when the index check passes, and the first-scale sum when un-segmented |
| GemvCheck.FirstScaleSufficesIff | scripts/_sweep_gemv_micro.py:198-203 | the negative control is right on all inputs iff micro <= block |
| Fp4Codes.E2M1Grid | packages/tilerl-kernels/src/tilerl_kernels/reference.py:189-202 | E2M1 by its fields is the grid 0, 0.5, 1, 1.5, 2, 3, 4, 6 with a sign |
| Fp4Codes.LutIsE2M1 | scripts/_sweep_gemv_micro.py:139-143 | the GEMV's lookup bits are the E2M1 value for all 16 codes |
| Fp4Codes.CheckDequantMath | scripts/_sweep_gemv_micro.py:136-147 | the table check finds no mismatch |
| Fp4Codes.IntIsMacro | scripts/_sweep_fp8_prefill.py:80-84 | the integer e4m3 code denotes the number of the fp32 bit pattern for every code |
| Fp4Codes.MacroIsE2M1Iff | scripts/_sweep_fp8_prefill.py:54-59 | the prefill pattern is the E2M1 value iff the exponent field is not 0 |
| Fp4Codes.MacroGrid | scripts/_sweep_fp8_prefill.py:54-59 | the prefill pattern denotes 0.5, 0.75, 1, 1.5, 2, 3, 4, 6 with a sign, for all 16 codes |
| PrefillGemm.WriteGroup | scripts/_sweep_fp8_prefill.py:53-61 | a group writes exactly its 16 elements, each from its own nibble |
| PrefillGemm.DequantGroup | scripts/_sweep_fp8_prefill.py:45-61 | eight bytes staged and one scale read dequantize the group's elements, all in one 32-block, and leave the rest |
| PrefillGemm.DequantTile | scripts/_sweep_fp8_prefill.py:39-63 | groups in any order write every element of the tile: when byte b of row r packs code 2b in its low half and code 2b + 1 in its high half, element (r, k) is the cast of code k under the scale of k // 32 |
| PrefillGemm.IntDequantTile | scripts/_sweep_fp8_prefill.py:66-88 | the same over unpacked codes for the integer dequant, without scale or cast |
| PrefillGemm.WeightTile | scripts/_sweep_fp8_prefill.py:113-119 | a staged K-tile dequantizes to the matrix entries W[n, k] it stands for |
| PrefillGemm.WeightTilePerElement | scripts/diag_dequant.py:41-54 | the per-element dequant writes that same tile |
| PrefillGemm.Gemm | scripts/_sweep_fp8_prefill.py:120 | the tile product is added to every accumulator element |
| PrefillKernels.Block | scripts/_sweep_fp8_prefill.py:112-120 | a thread block accumulates the products of exactly its K range |
| PrefillKernels.ScaleInDequant | scripts/_sweep_fp8_prefill.py:94-126 | for every block size and either dequant each output element is the sum over the whole K-tiles of activation times cast scaled code k, over any codes the bytes pack low half first, divided by the activation scale |
| PrefillKernels.ProductIsPlain | scripts/_sweep_fp8_prefill.py:45-126 | the product all kernels are compared with is the plain sum over unpacked codes, each under the scale of its own 32 columns |
| PrefillKernels.RunLaunches | scripts/_sweep_fp8_prefill.py:192-217 | launches in any interleaving add up on top of what the output held |
| PrefillKernels.PartsAddUp | scripts/_sweep_fp8_prefill.py:203-217 | the divided partial products of one element sum to the product over the covered columns |
| PrefillKernels.SplitKernel | scripts/_sweep_fp8_prefill.py:180-219 | split-K in any launch order adds the product over the covered columns |
| PrefillKernels.CoveredIff | scripts/_sweep_fp8_prefill.py:203-206 | the parts cover all of K iff split * 64 divides K |
| PrefillKernels.SplitIsWholeIff | scripts/_sweep_fp8_prefill.py:203-206 | split-K gives the whole product for all operands iff split * 64 divides K, for any decode and cast under which some scaled code is not zero |
| PrefillKernels.ScaleOnAccumulator | scripts/_sweep_fp8_prefill.py:141-177 | every output element is the sum of 32-wide unscaled partial products, each under its scale |
| PrefillKernels.AccumulatorIsProduct | scripts/_sweep_fp8_prefill.py:141-177 | that equals the scale-in-dequant product when the cast is exact on the weights of that row and the decodes agree on the 16 codes |
| PrefillKernels.AccumulatorIsPlain | scripts/_sweep_fp8_prefill.py:141-177 | the scale-on-accumulator value is the plain sum over unpacked codes without a cast |
| PrefillKernels.IntKernelIsProduct | scripts/_sweep_fp8_prefill.py:141-177 | the integer kernel as written equals the fp32 one as written for every cast exact on the scaled weights of the row |
| PrefillKernels.PaddingIsNeutral | scripts/_sweep_fp8_prefill.py:261-278 | zero padding does not change the unpadded rectangle, whatever the padded weights decode to |
| PrefillKernels.RoundUpBounds | scripts/_sweep_fp8_prefill.py:257-258 | rounding up reaches the next multiple and no further |
| PrefillKernels.RunBaseline | scripts/_sweep_fp8_prefill.py:295-299 | a scale-in-dequant variant over padded inputs returns the untiled product of the original operands |
| PrefillKernels.RunSplit | scripts/_sweep_fp8_prefill.py:180-219 | so does split-K into a zeroed output whenever the parts cover the padded K, which two parts always do |
| PrefillKernels.PaddingIsNeutralOnAccumulator | scripts/_sweep_fp8_prefill.py:261-278 | zero padding does not change what the scale-on-accumulator kernel computes on the unpadded rectangle |
| PrefillKernels.RunAccumulator | scripts/_sweep_fp8_prefill.py:141-177 | the scale-on-accumulator variant over padded inputs returns the untiled product where the cast is exact on the original weights |
| Download.SegmentsPartition | scripts/download_megakernel_weights.py:43-59 | each byte of [start_offset, size) lies in exactly one segment |
| Download.FinalNameIsVerified | scripts/download_megakernel_weights.py:33-69 | under any events the final name keeps what it had or holds bytes that passed size and hash |
| Download.HonestStep | scripts/download_megakernel_weights.py:45-59 | each launch, write or torn write of the server's bytes keeps every landed segment right |
| Download.HonestRunProgress | scripts/download_megakernel_weights.py:45-59 | so does every interleaving of them |
| Download.ResumeGivesRemote | scripts/download_megakernel_weights.py:41-69 | a resume from a true prefix, segments landing in any order, ends with exactly the server's bytes renamed |
| Download.DoomedForever | scripts/download_megakernel_weights.py:41-69 | a wrong byte below every later start is never repaired and never accepted, over all runs |
| Download.CanFinishIff | scripts/download_megakernel_weights.py:41-69 | between runs a download can still finish iff it is small or its partial file is a true prefix |
| Download.OutOfOrderCrash | scripts/download_megakernel_weights.py:56-59 | an honest first run that dies after its second segment lands first leaves a download that can never finish |
| Download.WritersBounded | scripts/download_megakernel_weights.py:58-59 | over any events at most eight segments are being written, each taken once per run in steps of the chunk |
| Download.Downloader.Start | scripts/download_megakernel_weights.py:33-63 | an existing file is kept iff it has the manifest's size and hash, else refused; a large download resumes at the length of its partial file, refused when that is too long; a small one starts over |
| Download.Downloader.Segment | scripts/download_megakernel_weights.py:45-55 | a response of the segment's length is written at its place, zeros filling any gap; one of another length fails the run and writes nothing |
| Download.Downloader.Finalize | scripts/download_megakernel_weights.py:60-69 | rename iff no segment failed and the partial file has the manifest's size and hash, otherwise leave both files |
| Prereg.OpenRow | scripts/prereg.py:55-56 | the first running row of a name |
| Prereg.Ledger.CmdStart | scripts/prereg.py:59-78 | refused with 2 iff a row of the name runs; else one row more, with the given name, time, command and hypothesis, running |
| Prereg.Ledger.CmdDone | scripts/prereg.py:81-97 | refused with 2 iff no row of the name runs; else the first such row has the given status and closing fields, keeps its others, and no other row changes |
| Prereg.SequentialCommands | scripts/prereg.py:59-97 | any sequence of commands keeps one running row per name and never drops, reorders, re-opens or edits a row |
| Prereg.DoneOnce | scripts/prereg.py:81-97 | a second done of the name is refused |
| Prereg.BackToBack | scripts/prereg.py:59-97 | the split read and write steps, run together, are the command |
| Prereg.StartsLoseNothing | scripts/prereg.py:71-76 | any interleaving without a rewrite only appends |
| Prereg.RewriteLeavesWhatItRead | scripts/prereg.py:82-95 | whatever landed since its read, a done leaves exactly the rows it read, the first running one of the name with the given status and closing fields |
| Prereg.RewriteLosesTheAppends | scripts/prereg.py:82-95 | when only starts landed, what it loses is exactly what they appended |
| Prereg.NothingLostIff | scripts/prereg.py:44-97 | over any trace of reads, appends and rewrites nothing is ever dropped, edited or re-opened iff every rewrite finds the ledger as it read it or already as it will leave it |
| Prereg.OverlappingDonesReopen | scripts/prereg.py:82-95 | two overlapping dones of different names: the second re-opens the row the first closed |
| Prereg.AppendKeepsOneRunningIff | scripts/prereg.py:60-76 | an append keeps one running row per name iff the name is not running at the write |
| Prereg.InterleavedStartsDuplicate | scripts/prereg.py:60-76 | two interleaved starts leave two running rows |
| PrefillTicks.ClosingsComplete | scripts/parse_prefill_ticks.py:88-94 | the specification's closings are every decode tick right after a prefill tick, once, in order |
| PrefillTicks.EraseAt | scripts/parse_prefill_ticks.py:72-83 | exactly the mixed and the idle ticks are dropped, the others stay in order |
| PrefillTicks.Step | scripts/parse_prefill_ticks.py:84-105 | one pure tick keeps the registers equal to the specification's |
| PrefillTicks.Parse | scripts/parse_prefill_ticks.py:68-110 | the machine equals: erase mixed and idle ticks, one row per maximal prefill run closed by a decode tick, with the run's length and wall time, the closing tick's time and their sum; the leading count is the decode ticks before the first prefill tick; the mixed count is the number of mixed ticks |
| PrefillTicks.Conservation | scripts/parse_prefill_ticks.py:84-94 | walls and counts of the rows plus the open tail are those of all pure prefill ticks |
| PrefillTicks.EraseIdempotent | scripts/parse_prefill_ticks.py:72-83 | mixed and idle ticks leave no trace |
| PhaseReport.ScanLog | scripts/phase_report.py:70-111 | exactly the steady tick lines, ascending by line, each with its own times and its recorded disk-read time or 0 |
| PhaseReport.BoundaryRank | scripts/phase_report.py:114-117 | the line of the first tick that reads from disk; none iff no tick does |
| PhaseReport.PhasesPartition | scripts/phase_report.py:206-244 | phase A is the window's ticks before the first one that reads from disk and phase B the rest |
| PhaseReport.PhaseCounts | scripts/phase_report.py:226-244 | their counts and body counts add up, phase A never reads from disk, phase B is empty iff nothing does |
| PhaseReport.ReportedPhases | scripts/phase_report.py:299-361 | every produced report splits its own ticks at its boundary and counts each once |
| PhaseReport.CutIsSuffix | scripts/phase_report.py:196-203 | a cut is a non-empty suffix, refused iff it precedes the base |
| PhaseReport.CutAcceptedIff | scripts/phase_report.py:309-325 | a cut is accepted iff it is not before the base and the uncut difference plus the ticks dropped is at most 2 in size |
| PhaseReport.ExactPairRefusesCuts | scripts/phase_report.py:309-325 | on an exact pair a cut is accepted iff it drops at most two ticks |
| PhaseReport.BrokenPairAccepted | scripts/phase_report.py:309-325 | a pair that breaks the identity is accepted by a cut that drops what the trace is short of |
| PhaseReport.Analyse | scripts/phase_report.py:284-362 | each refusal iff its condition; otherwise exactly the windowed, cut or all ticks, the span from the bracket or the trace's ends minus their number as difference, accepted up to 2, and the counts of the ticks before and from the first disk read |
| Baseline.Gate.Check | scripts/bench_harness.py:87-121 | in numbers: beaten iff tok/s > 1.02 * base at spread <= 0.02, passed iff not and tok/s >= 0.97 * base, failed iff neither, a missing row seeded iff spread <= 0.02; and what each field of the gate then holds |
| Baseline.Gate.Finish | scripts/bench_harness.py:64-72 | exit code 1 iff failed; the baseline is written iff something was seeded, merged where the shared directory exists, and candidates go to their own file only |
| Baseline.CandidatesBeat | scripts/bench_harness.py:101-108 | over any checks every candidate beats the row in force and carries it |
| Baseline.BaselineIsSeededOnce | scripts/bench_harness.py:92-100 | without reseed no existing row changes and a missing key holds its first quiet measurement |
| Baseline.RunFailsIff | scripts/bench_harness.py:110-138 | a run fails iff, off CPU, some measurement is below 0.97 times the score in force when it was taken and does not beat it; it is dirty iff some measurement found no row at spread <= 0.02 |
| Baseline.BeatsAreNotWritten | scripts/bench_harness.py:101-109 | with every key present the baseline is never written, whatever beats it |
| Baseline.MergeInto | scripts/baseline.py:56-69 | row by row in any order the result is the higher-wins merge, and the count is the rows raised or added |
| Baseline.MergeByTheNumbers | scripts/baseline.py:56-69 | per key the offered row stands iff there was none or it has the strictly higher tok/s, a row without tok/s counting as 0 |
| Baseline.MergeKeepsTheBest | scripts/baseline.py:56-69 | after any merges a key holds the best score ever offered and only offered keys are present |
| Baseline.MergeOrderIrrelevant | scripts/baseline.py:56-69 | the order of merges does not matter to any score |
| Baseline.MergeIdempotent | scripts/baseline.py:56-69 | merging again changes nothing |
| Baseline.Pull | scripts/baseline.py:90-105 | the loop over remote rows equals the per-key rule, and raises iff a stray local row meets a remote one |
| Baseline.PullByTheNumbers | scripts/baseline.py:90-105 | per key: remote rows without tok/s take no part, a remote row whose commit is an ancestor of the local one stands aside, else the strictly higher tok/s wins |
| Baseline.PullNeverLowers | scripts/baseline.py:95-104 | a pull removes and lowers nothing, leaves rows the repository corrected later, takes the better otherwise |
| Baseline.PullIdempotent | scripts/baseline.py:95-104 | a second pull of the same snapshot changes nothing |
| Drain.DrainAll | scripts/mmlu_thinking_spec.py:90-113 | whatever the completion order and deadline: at most 8 in flight, no prompt sent twice, exactly the questions before the first late look are sent, their answers in their own slots, unanswered slots first |
| Drain.Fill | scripts/mmlu_thinking_spec.py:99-104 | sends from the end while fewer than 8 are in flight, or drops the rest at the deadline |
| Drain.Collect | scripts/mmlu_thinking_spec.py:106-110 | answers taken in any order land at the index of their request |
| Drain.DoneIsSuffix | scripts/mmlu_thinking_spec.py:148-152 | the answered positions of a drained arm are its last ones |
| Drain.PairedIsShorterArm | scripts/mmlu_thinking_spec.py:354-368 | the paired set is what the arm with fewer answers answered; b is the number of its questions the sparse arm alone gets right, c the number the dense arm alone gets right |
| Drain.DrainedArmsPair | scripts/mmlu_thinking_spec.py:354-368 | two drains cut off by their own clocks pair exactly the questions sent before the earlier cut-off, each discordant count being the questions one arm alone gets right |
| Drain.BothAllIff | scripts/mmlu_thinking_spec.py:99-102 | all questions are paired iff neither clock is late on any look |
| CurveTable.AssertAligned | scripts/curve_table.py:91-99 | accepts iff all curves have one length and one gold per position |
| CurveTable.SingleTable | scripts/curve_table.py:102-115 | each cell of the 2^k table is the number of positions with its pattern, no other cell is there, and every marginal is the curve's score, so the closing assertion never fires |
| CurveTable.ScoreCounts | scripts/curve_table.py:113 | a score is the number of right positions |
| CurveTable.SwapByTheNumbers | scripts/curve_table.py:165-178 | the two swap counts are the file rows whose last answers differ one way and the other between the runs; paired is the rows both permutations name |
| CurveTable.ScoreSplits | scripts/curve_table.py:165-175 | a score is the right file rows plus the right positions whose row a later position names again, for any permutation |
| CurveTable.NetScore | scripts/curve_table.py:165-178 | for any permutations the net score is the swap plus what the swap cannot see of each run |
| CurveTable.NetIsSwapIff | scripts/curve_table.py:171-178 | the net score is the swap alone iff it misses as much of one run as of the other |
| CurveTable.NetIsSwap | scripts/curve_table.py:171-178 | for injective permutations onto the same rows it is the swap alone |
| CurveTable.SameGoldPerturb | scripts/curve_table.py:181-190 | every position moves to a row of the same gold; unique golds stay |
| CurveTable.PerturbKeepsGoldCheck | scripts/curve_table.py:79-88 | the gold check passes after a perturbation iff it passed before |
| CurveTable.GoldCheckPinsDistinct | scripts/curve_table.py:79-88 | on distinct golds the check pins the permutation |
| CurveTable.PerturbedNet | scripts/curve_table.py:181-190 | against a run that holds every row, a perturbed permutation keeps net = swap iff it shadows as many right answers as the other run has right on rows no longer named |
| CurveTable.PerturbedSwapIsOff | scripts/curve_table.py:181-190 | an instance that passes the gold check and does not |
| Corpus.BoundedJoinEncode | scripts/corpus.py:56-76 | the encoding of one row prefix, the tokenizer's last call, long enough unless all rows were used; one call when the rows stay below the first budget, else at most 2 + log2(total / (4 * max_tokens)) calls; overshoot below a factor of two |
| Corpus.BudgetIsPower | scripts/corpus.py:66-75 | the budget before encoding number e is 4 * max_tokens * 2^e characters |
| Corpus.JoinLength | scripts/corpus.py:70-71 | the characters counted are those of the joined rows and one more |
| Corpus.JoinAt | scripts/corpus.py:70-76 | row k stands in the join after the rows before it and their newlines, and a newline follows unless it is the last |
| Corpus.SlicesAreAStretch | scripts/corpus.py:44 | spans are disjoint, of one length, and end to end one stretch of the stream |
| Corpus.SpansSpelledOut | scripts/corpus.py:35-44 | span i is ids[skip + i * ctx .. skip + (i + 1) * ctx]; refused iff skip + n * ctx exceeds the stream |
| Corpus.TiledAgreesAndIsMaximal | scripts/corpus.py:132-144 | the adapting form equals the refusing one when that does not refuse, and otherwise returns the most spans that fit |
| Corpus.LongDocSpans | scripts/corpus.py:160-167 | every length holds exactly the spans that fit from where the lengths before it left off, each at its place in the stream; a repeated length holds its last turn's |
| Corpus.LengthSpelledOut | scripts/corpus.py:160-167 | from its start, span j of a length stands at j * (ctx + gap), one more would not fit, and the next length starts where this one stopped |
| Corpus.FitIsExact | scripts/corpus.py:163-165 | the number of spans from a position: those fit and one more would not |
| Corpus.EmptyIff | scripts/corpus.py:161-166 | a length gets no span iff none fits after what the lengths before it cut |
| Corpus.LaterLongerStarves | scripts/corpus.py:161-166 | a length that is at least some earlier one ends with no span |
| Corpus.RegionsDisjoint | scripts/corpus.py:150-153 | spans of different lengths share no token, later turns lying after earlier ones |
| Corpus.SameLengthDisjoint | scripts/corpus.py:150-153 | nor do different spans of one length |
| Corpus.NondecreasingStarves | scripts/corpus.py:160-167 | for nondecreasing lengths every region after the first is empty |
| Corpus.StreamIsOwn | scripts/prepare_indexer_corpus.py:55-72 | each article's tokens go to its own split's stream, in article order, and to no other |
| Corpus.Gather | scripts/prepare_indexer_corpus.py:55-72 | succeeds iff the whole corpus holds enough of both splits, with each split's tokens in article order, after the first file that makes both long enough |
| Corpus.CutSplit | scripts/prepare_indexer_corpus.py:77-85 | every length gets its spans, end to end the stream from the skip to the demand; refused iff the stream is short |
| Corpus.Prepare | scripts/prepare_indexer_corpus.py:49-92 | the "only N spans" exit is unreachable once the streams reach their need |
| Corpus.ConfiguredDemand | scripts/prepare_indexer_corpus.py:23-31 | the configured spans ask for 786432 held-out and 3932160 training tokens |
| Ladder.RungIsLeast | scripts/price_b_bucket.py:34-39 | the rung is the least launchable width that holds m rows |
| Ladder.RungMonotone | scripts/price_b_bucket.py:34-39 | rungs are monotone |
| Ladder.BucketIsLeast | scripts/price_b_bucket.py:42-43 | the bucket is the least power of two at or above b |
| Ladder.PaddingKeepsRungIff | scripts/price_b_bucket.py:34-43 | for every power-of-two width padding keeps the rung iff m <= 64 or m > pow2ceil(m) - 32 |
| Ladder.ObservedCrossings | scripts/price_b_bucket.py:70-75 | over the observed batches and widths 1 to 8 only widths 5 and 6 cross a rung |
| Ladder.Sm90BucketIsLeast | scripts/ab_draft_depth.py:116-123 | on sm90 too the bucket is the least launch that holds the rows, up to the 128-row tile |
| Ladder.BucketIsInterval | scripts/ab_draft_depth.py:95-127 | a launch bucket is an interval of row counts on both architectures |
| Ladder.WidestPair | scripts/ab_draft_depth.py:537-545 | the chosen pair is two depths of the list that share a bucket, the widest such and the shallowest of those; none iff no two do |
| Ladder.PairIsOneLaunch | scripts/ab_draft_depth.py:532-545 | every depth between the chosen two pays for the same launch |

## Left out

- Session.Session.Forward: KV cells and states are indexed by layer number instead of by the compacted per-kind index, the plane is flipped after the layer loop instead of inside the last recurrent layer, and a model without a conv window is one whose window is a unit value.
- SpeculativeDecode.BlockFed: asks for a positive chunk; with chunk 0 the source forwards empty blocks and does not end.
- PrefillKernels.ScaleInDequant: asks for non-zero activation scales, which the quantizer provides and the epilogue divides by; GPU rounding of the fp32 accumulation is not modelled.
- PrefillKernels.RunLaunches: a launched block's adds are one step; since each output element receives one add per part, interleaving single adds reaches the same sums.
- PrefillKernels.IntKernelIsProduct: the cast is assumed exact on the scaled weights of the row; without that the two kernels differ.
- Prereg.NothingLostIff: a rewrite is one step; the file is truncated before it is written, and a read or append that lands in between is not modelled.
- Drain.DrainAll: the tokenizer is part of the scripted reply, and the progress callback is left out.
- Corpus.LongDocSpans: asks for positive lengths; a length of 0 with gap 0 does not end in the source.
- PhaseReport.Analyse: medians, percentiles, the corroborating trace reading and the memory totals of the report are not modelled.
- The engine, its schedulers, pools and prefix store, beyond the session the parity script builds.
- Half-widths, z scores, noise floors: statistics with square roots.
- JSON, regular expressions, argument parsing, printing, HTTP, subprocesses, timing, CUDA graphs.
- `summarise` and `compare` of the tick parser, `cross` of the curve table and the read-only views of the bench store: filters and counts over what is modelled here.
- The cold trace parser and the prefill snapshot tool.
