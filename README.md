# pprof attribution engine in Dafny

This project models the bookkeeping core of `pprof`, an in-process
instrumenting profiler. Instrumented code opens a block for a named anchor
(a measurement point) and finishes it when the block is dropped. The
profiler keeps two vectors:

- the anchors, in the order they were first used, each with a call count,
  elapsed ticks, children ticks, self-children ticks and a byte count;
- a stack of the ids of the blocks that are still open.

The model covers:

- `anchor.dfy`: the `Anchor` record, its three in-place counter updates,
  and the report's two integer numerators. These are `elapsed -
  self_children_elapsed` ("total") and `elapsed - children_elapsed`
  ("self"). Both are unsigned subtractions, modelled as `Option`, with
  `None` where the subtraction would underflow.
- `profiler.dfy`: the `Profiler` class with its two vector fields, its
  constructor, `GetAnchorId`, `AddBlock` and `AddBytes`. Each method is
  proved against a pure function on a `Snapshot` of the two vectors
  (`Register`, `AddBlockSpec`, `AddBytesSpec`). The loop of `add_block`,
  which walks the open stack and skips ids it has already credited, is the
  method `CreditDistinct`. It is proved to credit each distinct open id
  exactly once.
- `session.dfy`: properly nested runs of blocks. A `Call` is one block,
  with its span and the blocks it runs. `Run` drives registration, the
  body and the finish in the order the nesting dictates. The lemmas here
  state what a whole session leaves in the two numerators.

A block's duration comes from a clock read in the source. Here it is a
parameter (`Block.duration`, `Call.span`).

The code keeps a full stack of open ids and deduplicates them when a block
finishes. Another scheme keeps only the innermost open anchor's id and an
inclusive-time snapshot, with a reserved root anchor 0. This code has
neither, and the model follows the code. The code also reports every
anchor, not only those with calls.

The invariant `children_elapsed <= elapsed` does not hold for the code as
written (see "## Findings"). `add_block` charges a finished
block's duration as child time to every distinct anchor still open, not
only to the block's direct parent. With three levels of distinct anchors,
the outer anchor's child time counts the innermost block twice. Its self
numerator can then underflow. `Sessions.AddBlockDirect` is the corrected
rule: child time goes to the innermost open anchor only. Under that rule,
every anchor of a well-timed session is reportable once every block has
finished.

A report taken while a block is still open is another matter. `print`
computes both numerators for every anchor, including one whose block has
not finished yet. Take an anchor with no earlier finished block of its
own. A nested block of another anchor with positive span that has finished
directly inside its open block is charged to it as child time under either
rule. As written, a block that has finished anywhere inside it is charged
too. That anchor has no elapsed time yet, so its self numerator underflows
(`Sessions.OpenBlockSelfUnderflows` proves the direct case under both
rules). A block opened once at the top of `main`, with `print` called
inside its scope and a block finished directly inside it, is such a case.
An anchor with earlier finished blocks, or with nothing charged to it
inside the open block, need not underflow.

## Model

| member | source | states |
|---|---|---|
| Anchors.NewAnchor | src/lib.rs:78-87 | a new anchor carries the given name and every counter at zero |
| Anchors.Update | src/lib.rs:89-92 | one more call and the duration added to elapsed; every other field unchanged |
| Anchors.UpdateFromChild | src/lib.rs:94-96 | the duration added to children time; every other field unchanged |
| Anchors.UpdateFromSelfChild | src/lib.rs:98-100 | the duration added to self-children time; every other field unchanged |
| Anchors.TotalTicks | src/lib.rs:165 | the total numerator `elapsed - self_children_elapsed` is defined exactly when `self_children_elapsed <= elapsed`, and then it adds back to `elapsed` |
| Anchors.SelfTicks | src/lib.rs:166 | the self numerator `elapsed - children_elapsed` is defined exactly when `children_elapsed <= elapsed`, and then it adds back to `elapsed` |
| Profiling.FirstMatch | src/lib.rs:132 | the position found is at most the length; if it is inside, the anchor there has the name, and no earlier anchor has it |
| Profiling.Register | src/lib.rs:131-140 | the lookup pushes exactly one id onto the stack and keeps the old stack below it; existing anchors are kept as a prefix; the pushed id is in range and names the anchor. If the name was present, the anchors are unchanged and the id is the first match. If it was absent, exactly one anchor is appended at the old length, with the name and every counter zero |
| Profiling.RegisterValid | src/lib.rs:132-138 | registration keeps every stack id in range and the anchor names pairwise distinct |
| Profiling.RegisterTwice | src/lib.rs:132-137 | looking the same name up twice gives the same id, and the second lookup adds no anchor |
| Profiling.Pop | src/lib.rs:143 | popping removes the last id, or does nothing when the stack is empty |
| Profiling.CreditDistinct | src/lib.rs:146-156 | the loop with its list of ids already credited produces exactly `CreditOpen`: every anchor whose id is open is credited once, however often it is open. The credit goes to self-children time for the finished block's own anchor and to children time otherwise; other anchors are untouched |
| Profiling.AddBlockSpec | src/lib.rs:142-157 | for every anchor, field by field: name and bytes unchanged; calls +1 and elapsed +duration exactly for the block's anchor; self-children +duration exactly when it is the block's anchor and still open; children +duration exactly when it is another anchor still open; the stack is popped |
| Profiling.AddBytesSpec | src/lib.rs:193-195 | the addressed anchor's byte count grows by the amount; every other field of it, every other anchor and the stack are unchanged |
| Profiling.AddBlockValid | src/lib.rs:142-157 | finishing a block keeps stack ids in range and names distinct |
| Profiling.Profiler.constructor | src/lib.rs:123-129 | a new profiler has no anchors and an empty stack |
| Profiling.Profiler.GetAnchorId | src/lib.rs:131-140 | the search loop and append give exactly `Register` of the old state; the returned id is in range, names the anchor and is pushed; the invariant is kept |
| Profiling.Profiler.AddBlock | src/lib.rs:142-157 | the pop, the update and the crediting loop give exactly `AddBlockSpec` of the old state; the invariant is kept |
| Profiling.Profiler.AddBytes | src/lib.rs:193-195 | the new state is exactly `AddBytesSpec` of the old one |
| Sessions.AddBlockDirect | src/lib.rs:142-157 | the corrected finish: the same as `AddBlockSpec` field by field, except that children time goes only to the direct parent's anchor |
| Sessions.Run | src/lib.rs:209-220 | a block run on top of any state leaves the stack as it found it, keeps every id in range, and only appends anchors |
| Sessions.RunTotal | src/lib.rs:142-157 | running a block never lowers a total numerator, leaves those of anchors already open unchanged, and raises its own anchor's by exactly its span when that anchor is not already open, however deeply it recurses inside |
| Sessions.RecursionTotal | src/lib.rs:147-156 | when every top-level block of a session has one name and that anchor is not open around the session, its total numerator grows by exactly the sum of the top-level spans, not the recursive inner ones |
| Sessions.RunKeepsId | src/lib.rs:131-137 | after a block has run, its name (or any name already registered) still has the id it had before |
| Sessions.SessionTotalDefined | src/lib.rs:165 | under either rule, a session started with nothing open never makes a total numerator underflow |
| Sessions.SessionReportable | src/lib.rs:146-156 | under the corrected rule, once a session of well-timed blocks started with nothing open has finished every block, every anchor is reportable: both numerators are defined and self does not exceed total |
| Sessions.OpenBlockSelfUnderflows | src/lib.rs:164-166 | under either rule, on a fresh profiler, a report taken while the first block of an anchor is still open, after a block of another anchor with positive span has finished directly inside it, finds that anchor with no elapsed time but that span as child time, so its self numerator underflows |
| Sessions.AsWrittenSelfUnderflows | src/lib.rs:146-156 | as written, three well-timed nested blocks of distinct anchors whose two inner spans add up to more than the outer span leave the outer anchor with child time equal to both inner spans, so its self numerator underflows |
| Sessions.DirectParentChain3Self | src/lib.rs:166 | with the corrected rule, the same chain charges the outer anchor only the middle span, and its self numerator is the outer minus the middle span |
| Sessions.AsWrittenRecursionSelfExceedsTotal | src/lib.rs:150-151 | as written, an anchor recursing once into itself reports the outer span as total but both spans added as self, so it is not reportable |
| Sessions.OuterInnerReport | src/lib.rs:142-157 | two nested distinct anchors are reported as intended even as written: the outer has total = its span and self = its span minus the inner span; the inner has both equal to its span; each has one call |

## Left out

- Clock reads (`Instant::now`, `elapsed`, the `rdtsc` intrinsic, src/lib.rs:10-59): a block's duration is a parameter instead.
- `get_duration_freq` (src/lib.rs:109-120): a thread sleep and floating-point calibration.
- The floating-point and formatting part of `print` (src/lib.rs:159-191): percentages, milliseconds, throughput strings and output. Only the two integer numerators are modelled.
- The `start` field and `init` (src/lib.rs:106, 229-231): they only feed the floating-point report.
- The global mutex singleton, the `print` wrapper and the `Drop` impl (src/lib.rs:6-8, 61-65, 233-235): locking and drop plumbing. A drop is an explicit `AddBlock` call, or the finish inside `Sessions.Run`.
- The `fn_name!` and `block!` macros (src/lib.rs:198-227): a name is a string the caller supplies. `Sessions.Run` is the lookup and the block of `block!`. It does not include the `add_bytes` call of the three-argument form; `AddBytes` models that call on its own.
- The procedural macro crate `pprof_proc`: it only generates code that calls the macros.
- Integer widths: the counters are `usize` and `u64` in the source and unbounded here, so overflow of the additions is not modelled.
- TotalTicks, SelfTicks: an underflow is `None`. The source panics there in a debug build and wraps around in a release build. The model does not tell these apart.
- Profiling.Profiler.AddBlock, Profiling.Profiler.AddBytes: these require the anchor id to be in range. The source panics on an out-of-range index. Ids come from `get_anchor_id`, so they are always in range in the source's use.
- Sessions.SessionReportable: it promises reportable anchors only once every block has finished. A report taken inside an open block whose anchor has no earlier finished block underflows once a nested block of positive span has finished directly inside it, under either rule (`Sessions.OpenBlockSelfUnderflows`). As written, a block finished anywhere inside it has the same effect. No rule here corrects that.
- Sessions.Run: it models only properly nested blocks, finished in reverse order of opening, on one thread. Blocks finished out of order are not modelled.

## Findings

| source | as written | input that shows it | evidently intended | confidence | as-written member | corrected member |
|---|---|---|---|---|---|---|
| src/lib.rs:146-156, 166 | the finished block's duration is added to `children_elapsed` of every distinct anchor still open | blocks A(10) around C(9) around B(8), all distinct: A's children time is 9 + 8 = 17 > 10, so `elapsed - children_elapsed` underflows | children time only for the direct parent, so `children_elapsed <= elapsed` for well-timed nesting once every block has finished | not executed | Sessions.AsWrittenSelfUnderflows | Sessions.SessionReportable |
| src/lib.rs:150-151, 165-166 | a recursive inner block adds to `self_children_elapsed` but not `children_elapsed` of the open outer anchor | A(10) around A(5): total is 15 - 5 = 10, self is 15 - 0 = 15 > total | self time never exceeds total time once every block has finished | not executed | Sessions.AsWrittenRecursionSelfExceedsTotal | Sessions.SessionReportable |
