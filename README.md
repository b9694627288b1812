# Advanced Logger memory channel in Dafny

This project models the memory channel of the Advanced Logger found in `lib/libc`.
The log lives in a fixed memory region at `ADV_LOGGER_BASE`. The region starts with a
control block, `ADVANCED_LOGGER_INFO`. A payload region of message entries follows it,
each entry an `ADVANCED_LOGGER_MESSAGE_ENTRY`. Less-trusted code may overwrite the
control block at any time, so:

- `AdvancedLoggerGetLoggerInfo` initialises the region once.
- Every later call re-validates the block with `ValidateInfoBlock`.
- The first failed check drops the block for good: a fail-closed latch.
- `AdvancedLoggerMemoryLoggerWrite` rejects bad lengths. It then reserves
  `[LogCurrent, LogCurrent + EntrySize)` with a compare-exchange and fills the entry.
  When the entry does not fit, it adds the length to the wrapping 32-bit `DiscardedSize`.
- `AdvancedLoggerWrite` also sends the message to the hardware port when the block was
  returned and `HdwPortDisabled` is clear.
- The arithmetic helpers are `ALIGN_VALUE`, `SIGNATURE_16/32`, `MAX_UINT16`,
  `DivU64x32` and `MultU64x32`.

Files and modules:

- `base_types.dfy` (`BaseTypes`): the helpers of `UefiBaseTypes.h`.
  - Fixed-width unsigned types, with every wrap-around written as `%`.
  - `&` and `|` defined bit by bit.
- `math64.dfy` (`Math64`): `Math64.c`.
- `logger_internal.dfy` (`AdvancedLoggerInternal`): the data in the region.
  - `AdvancedLoggerInternal.h` is not part of this model, so header sizes, signatures,
    the version and the entry alignment are fields of a `Config`.
  - The control block is the class `LoggerInfo`.
  - Its compare-exchange operations are atomic single-step methods that return the old value.
  - The payload region is a map from address to entry.
- `logger_lib.dfy` (`AdvancedLoggerLib`): `AdvancedLoggerLib.c`.
  - The class `Logger` holds the module globals `mLoggerInfo`, `mBufferSize`,
    `mMaxAddress` and `mInitialized`.
  - Its methods are the imperative code, each tied to a pure definition over a snapshot
    `LoggerState`.
    - `GetLoggerInfo` is proved equal to the function `Acquire`.
    - `ValidateInfoBlock` is specified by its own if-and-only-if over the block's fields,
      the same checks that `BlockPassesChecks` lists.
    - `StampRegion` leaves the state that `Initialize` describes.
    - The constructor starts the globals at `InitialGlobals`.
- `logger_common.dfy` (`AdvancedLoggerCommon`): `AdvancedLoggerCommon.c`.
  - The methods `MemoryLoggerWrite` and `Write` are proved equal to the pure functions
    `MemoryWrite` and `LoggerWrite`.
  - `Walk`/`Log` is the log a reader recovers by stepping from `LogBuffer` to
    `LogCurrent` entry by entry.
  - `WriteRun` is a single-threaded sequence of writes, each with its `Outcome`.

`MESSAGE_ENTRY_SIZE` is defined in a header outside this model, so whether entries are
byte-packed or aligned is left open here. The model therefore defines
`EntrySize(n) = ALIGN_VALUE(entryHeader + n, 2^entryAlignShift)`. A shift of 0 means
byte-packed entries. Every property is proved for every shift below 32.

## Model

| member | source | states |
|---|---|---|
| BaseTypes.Signature16 | lib/libc/UefiBaseTypes.h:89 | `A \| (B << 8)` on bytes is `A + 256*B`, below 2^16 |
| BaseTypes.Signature32 | lib/libc/UefiBaseTypes.h:90 | `SIGNATURE_32(A,B,C,D)` is `A + 2^8*B + 2^16*C + 2^24*D`, below 2^32 |
| BaseTypes.AlignValue | lib/libc/UefiBaseTypes.h:40 | `Value + ((Alignment - Value) & (Alignment - 1))` in 64-bit arithmetic. For any non-zero alignment and no overflow, the result lies in `[Value, Value + Alignment)` |
| BaseTypes.AlignValueAddsGap | lib/libc/UefiBaseTypes.h:40 | for a power-of-two alignment `a`, the mask `(a - v) & (a - 1)` is the gap `(a - v) mod a` to the next multiple |
| BaseTypes.AlignValueRoundsUp | lib/libc/UefiBaseTypes.h:40 | for a power-of-two `a`: the result is a multiple of `a`; without overflow `v <= ALIGN_VALUE(v, a) < v + a`; an aligned `v` is returned unchanged |
| BaseTypes.AlignValueIdempotent | lib/libc/UefiBaseTypes.h:40 | aligning twice equals aligning once |
| Math64.InternalMathDivU64x32 | lib/libc/BaseLib/Math64.c:27-33 | the quotient `q` satisfies `q*d <= D < (q+1)*d`: the floor of `D / d`, for `d != 0` |
| Math64.InternalMathMultU64x32 | lib/libc/BaseLib/Math64.c:51-57 | the result is congruent to `M*m` modulo 2^64 |
| Math64.MultU64x32 | lib/libc/BaseLib/Math64.c:75-85 | returns what the worker returns, and the exact product whenever it is below 2^64 |
| Math64.DivU64x32 | lib/libc/BaseLib/Math64.c:105-112 | requires `Divisor != 0` (the ASSERT); returns what the worker returns, the floor quotient |
| Math64.MultThenDivRoundTrip | lib/libc/BaseLib/Math64.c:27-57 | if `M*m < 2^64` and `m != 0`, dividing the product by `m` gives back `M` |
| AdvancedLoggerInternal.EntrySize | lib/libc/AdvancedLoggerLib/AdvancedLoggerCommon.c:51 | `EntryHeader + n <= EntrySize(n) < EntryHeader + n + alignment` |
| AdvancedLoggerInternal.EntrySizeAligned | lib/libc/AdvancedLoggerLib/AdvancedLoggerCommon.c:51 | every entry size is a multiple of the entry alignment |
| AdvancedLoggerInternal.Place | lib/libc/AdvancedLoggerLib/AdvancedLoggerCommon.c:82-90 | the new entry is at `at`; every other surviving entry was there before and lies outside `[at, at+EntrySize)`; every such entry survives |
| AdvancedLoggerInternal.LoggerInfo.ZeroMem | lib/libc/AdvancedLoggerLib/AdvancedLoggerLib.c:118 | every control-block field is zero and the payload region is empty |
| AdvancedLoggerInternal.LoggerInfo.Tamper | lib/libc/AdvancedLoggerLib/AdvancedLoggerLib.c:35-38 | less-trusted code sets the control block and the payload region to arbitrary values |
| AdvancedLoggerInternal.LoggerInfo.CompareExchangeLogCurrent | lib/libc/AdvancedLoggerLib/AdvancedLoggerCommon.c:75-79 | returns the old `LogCurrent` and stores the new value only if the old one matched |
| AdvancedLoggerInternal.LoggerInfo.CompareExchangeDiscardedSize | lib/libc/AdvancedLoggerLib/AdvancedLoggerCommon.c:64-68 | the same for `DiscardedSize` |
| AdvancedLoggerInternal.LoggerInfo.StoreEntry | lib/libc/AdvancedLoggerLib/AdvancedLoggerCommon.c:82-90 | the reserved slot receives the entry; the region changes as `Place` says |
| AdvancedLoggerLib.Acquire | lib/libc/AdvancedLoggerLib/AdvancedLoggerLib.c:102-137 | after any call `mInitialized` is set; on an initialised logger the region is untouched; a returned block passes every check of `ValidateInfoBlock` |
| AdvancedLoggerLib.Initialize | lib/libc/AdvancedLoggerLib/AdvancedLoggerLib.c:109-128 | the one-time init always sets `mInitialized`. At a NULL base or below `ADV_LOGGER_MIN_SIZE` it leaves the region untouched, and `mLoggerInfo` stays non-NULL exactly when the base is. Otherwise it stamps the block, empties the payload and sets `mBufferSize = LogBufferSize` and `mMaxAddress = base + ADV_LOGGER_SIZE`, and the stamped block passes every check |
| AdvancedLoggerLib.BlockPassesChecks | lib/libc/AdvancedLoggerLib/AdvancedLoggerLib.c:52-76 | the checks of `ValidateInfoBlock`: `mLoggerInfo` non-NULL, the signature, `LogBuffer` just past the block, `LogBuffer <= LogCurrent <= mMaxAddress`, and `LogBufferSize` equal to `mBufferSize` unless that is still 0 |
| AdvancedLoggerLib.LogBufferAddress | lib/libc/AdvancedLoggerLib/AdvancedLoggerLib.c:60 | `PA_FROM_PTR (mLoggerInfo + 1)`, which under the platform constants is exactly `base + sizeof (ADVANCED_LOGGER_INFO)` with no wrap-around |
| AdvancedLoggerLib.StampedSize | lib/libc/AdvancedLoggerLib/AdvancedLoggerLib.c:117-122 | `(UINT32)ADV_LOGGER_SIZE - sizeof (ADVANCED_LOGGER_INFO)` in 32-bit arithmetic. On a large enough region it is the exact difference, and the payload then ends at `base + ADV_LOGGER_SIZE` |
| AdvancedLoggerLib.StampedBlock | lib/libc/AdvancedLoggerLib/AdvancedLoggerLib.c:117-126 | the block after init: the signature and version, `LogBuffer` just past the block, `LogBufferSize` as `StampedSize`, `LogCurrent = LogBuffer`, `DiscardedSize = 0`, `HdwPortInitialized` and `InPermanentRAM` set, `HdwPortDisabled` clear |
| AdvancedLoggerLib.AcquireKeepsReachable | lib/libc/AdvancedLoggerLib/AdvancedLoggerLib.c:102-137 | every call keeps the invariant of the globals. Before the first call they hold their initial values. `mLoggerInfo` is non-NULL only for a non-NULL base. `mMaxAddress` and `mBufferSize` are both 0, or, on a large region, exactly `LogBuffer + LogBufferSize` and the stamped `LogBufferSize` |
| AdvancedLoggerLib.BufferSizeFixed | lib/libc/AdvancedLoggerLib/AdvancedLoggerLib.c:70-74 | once `mBufferSize` is non-zero, no later call changes it, whatever less-trusted code writes to the block |
| AdvancedLoggerLib.FailureIsDead | lib/libc/AdvancedLoggerLib/AdvancedLoggerLib.c:131-136 | a call that returns NULL leaves the logger latched dead |
| AdvancedLoggerLib.DeadStaysDead | lib/libc/AdvancedLoggerLib/AdvancedLoggerLib.c:131-136 | a dead logger returns NULL and stays dead, whatever the control block holds |
| AdvancedLoggerLib.AcquireRun | lib/libc/AdvancedLoggerLib/AdvancedLoggerLib.c:102-137 | one result for each call of a sequence, with the block overwritten before each call |
| AdvancedLoggerLib.DeadRunFails | lib/libc/AdvancedLoggerLib/AdvancedLoggerLib.c:131-136 | from a dead logger, every call of any such sequence returns NULL |
| AdvancedLoggerLib.FailClosedLatch | lib/libc/AdvancedLoggerLib/AdvancedLoggerLib.c:131-136 | once a call returns NULL, every later call returns NULL, even when the original block is written back |
| AdvancedLoggerLib.SmallRegionNeverAvailable | lib/libc/AdvancedLoggerLib/AdvancedLoggerLib.c:113-115 | with `ADV_LOGGER_SIZE < 65536` every call, the first and all later ones, returns NULL |
| AdvancedLoggerLib.FirstCallInitializes | lib/libc/AdvancedLoggerLib/AdvancedLoggerLib.c:117-128 | the first call on a large region at a non-NULL base stamps the block and returns it. `LogBuffer = base + InfoHeader`, `LogBufferSize = size - InfoHeader` and `LogCurrent = LogBuffer`. `DiscardedSize` is 0 and both flags are set. The payload is empty, `mMaxAddress = LogBuffer + LogBufferSize` and `mBufferSize = LogBufferSize` |
| AdvancedLoggerLib.AcquireStable | lib/libc/AdvancedLoggerLib/AdvancedLoggerLib.c:70-76 | on an untouched valid block a later call changes nothing, `mBufferSize` included |
| AdvancedLoggerLib.AcquireIdempotent | lib/libc/AdvancedLoggerLib/AdvancedLoggerLib.c:131-136 | two calls without interference equal one call |
| AdvancedLoggerLib.LiveIsStable | lib/libc/AdvancedLoggerLib/AdvancedLoggerLib.c:131-136 | on a logger in use a call returns the block and changes nothing |
| AdvancedLoggerLib.AcquiredBlockInRegion | lib/libc/AdvancedLoggerLib/AdvancedLoggerLib.c:60-68 | whatever less-trusted code wrote, a block that passes validation has `LogBuffer = base + InfoHeader`, `LogBufferSize = size - InfoHeader` and its cursor inside the payload region |
| AdvancedLoggerLib.HdwPortWrite | lib/libc/AdvancedLoggerLib/AdvancedLoggerLib.c:148-154 | returns `NumberOfBytes` and emits exactly `Buffer[0..NumberOfBytes)`, in order |
| AdvancedLoggerLib.StampInfo | lib/libc/AdvancedLoggerLib/AdvancedLoggerLib.c:117-126 | after ZeroMem and the field stores the control block is the stamped block and the payload region is empty |
| AdvancedLoggerLib.Logger.constructor | lib/libc/AdvancedLoggerLib/AdvancedLoggerLib.c:27-30 | the globals start at NULL, 0, 0, FALSE |
| AdvancedLoggerLib.Logger.ValidateInfoBlock | lib/libc/AdvancedLoggerLib/AdvancedLoggerLib.c:48-77 | TRUE exactly when the block is non-NULL, the signature matches, `LogBuffer` is just past the block, `LogBuffer <= LogCurrent <= mMaxAddress`, and `LogBufferSize` equals a non-zero `mBufferSize`; Version and flags are not checked; a zero `mBufferSize` is latched on success |
| AdvancedLoggerLib.Logger.StampRegion | lib/libc/AdvancedLoggerLib/AdvancedLoggerLib.c:117-128 | the initialisation stores leave the state `Initialize` describes |
| AdvancedLoggerLib.Logger.GetLoggerInfo | lib/libc/AdvancedLoggerLib/AdvancedLoggerLib.c:102-137 | the new state and the returned block are those of `Acquire` on the old state; the globals' invariant is kept |
| AdvancedLoggerCommon.Append | lib/libc/AdvancedLoggerLib/AdvancedLoggerCommon.c:51-90 | the reserve-or-discard step changes only `LogCurrent`, `DiscardedSize` and the payload region |
| AdvancedLoggerCommon.MemoryWrite | lib/libc/AdvancedLoggerLib/AdvancedLoggerCommon.c:24-94 | a returned block implies an accepted length; a write either initialised the logger or changed nothing |
| AdvancedLoggerCommon.UsedSize | lib/libc/AdvancedLoggerLib/AdvancedLoggerCommon.c:54 | the 64-bit difference `LogCurrent - LogBuffer`, which is the exact number of used bytes whenever `LogCurrent` is not below `LogBuffer` |
| AdvancedLoggerCommon.Fits | lib/libc/AdvancedLoggerLib/AdvancedLoggerCommon.c:55-56 | the reservation test. With `LogCurrent` not below `LogBuffer`, an entry fits exactly when the cursor is inside the payload region and the entry ends at or before its end |
| AdvancedLoggerCommon.EntryFor | lib/libc/AdvancedLoggerLib/AdvancedLoggerCommon.c:82-90 | the entry as filled in: `MESSAGE_ENTRY_SIGNATURE`, the timestamp, the low 32 bits of `DebugLevel`, the length as `UINT16` and a copy of the bytes |
| AdvancedLoggerCommon.WritePresentIff | lib/libc/AdvancedLoggerLib/AdvancedLoggerCommon.c:41-50 | a zero length, a NULL buffer or a length above `MAX_UINT16` returns NULL and changes nothing; otherwise the block is returned exactly when `AdvancedLoggerGetLoggerInfo` returns it |
| AdvancedLoggerCommon.LengthBoundary | lib/libc/AdvancedLoggerLib/AdvancedLoggerCommon.c:45-47 | 65535 bytes reach the logger; 65536 bytes return NULL with no state change |
| AdvancedLoggerCommon.AppendReserves | lib/libc/AdvancedLoggerLib/AdvancedLoggerCommon.c:51-80 | on an in-bounds cursor a fitting entry is reserved without wrap-around and ends inside the payload region |
| AdvancedLoggerCommon.WriteReserves | lib/libc/AdvancedLoggerLib/AdvancedLoggerCommon.c:74-90 | when the entry fits, `LogCurrent` advances by exactly `EntrySize` inside the region. The rest of the block is unchanged. The slot holds the signature, timestamp, low 32 bits of `DebugLevel`, length and bytes, and nothing outside the slot changes |
| AdvancedLoggerCommon.WriteOverflows | lib/libc/AdvancedLoggerLib/AdvancedLoggerCommon.c:55-71 | when the entry does not fit: `LogCurrent` and the payload are unchanged, `DiscardedSize` becomes `(old + n) mod 2^32`, and the block is still returned |
| AdvancedLoggerCommon.WriteKeepsCursorInBounds | lib/libc/AdvancedLoggerLib/AdvancedLoggerCommon.c:55-80 | `LogBuffer <= LogCurrent <= LogBuffer + LogBufferSize` holds after every write that returns the block, and every write preserves it |
| AdvancedLoggerCommon.WriteKeepsLive | lib/libc/AdvancedLoggerLib/AdvancedLoggerCommon.c:49-90 | a write to a logger in use never trips the validation: the logger stays in use |
| AdvancedLoggerCommon.WalkSpan | lib/libc/AdvancedLoggerLib/AdvancedLoggerCommon.c:74 | a walk from `p` to `end` covers exactly the summed `EntrySize` of the entries it finds |
| AdvancedLoggerCommon.WalkAgrees | lib/libc/AdvancedLoggerLib/AdvancedLoggerCommon.c:82-90 | a walk depends only on the entries lying wholly below its end |
| AdvancedLoggerCommon.WalkSurvivesPlace | lib/libc/AdvancedLoggerLib/AdvancedLoggerCommon.c:82-90 | writing an entry where a walk ends leaves the walk unchanged |
| AdvancedLoggerCommon.WalkExtend | lib/libc/AdvancedLoggerLib/AdvancedLoggerCommon.c:74-90 | a walk extends over an entry of non-zero size at its end |
| AdvancedLoggerCommon.PlaceExtendsWalk | lib/libc/AdvancedLoggerLib/AdvancedLoggerCommon.c:74-90 | a new entry written where a walk ends extends the walk by that entry |
| AdvancedLoggerCommon.LiveWriteIsAppend | lib/libc/AdvancedLoggerLib/AdvancedLoggerCommon.c:49-50 | on a logger in use an accepted write is the reserve-or-discard step on the current state |
| AdvancedLoggerCommon.AppendExtendsLog | lib/libc/AdvancedLoggerLib/AdvancedLoggerCommon.c:51-90 | the log a reader recovers gains the new entry at its end when it fits, and stays the same when it does not |
| AdvancedLoggerCommon.StoredExtendsLog | lib/libc/AdvancedLoggerLib/AdvancedLoggerCommon.c:74-90 | a stored entry is appended to the recovered log |
| AdvancedLoggerCommon.WriteAppendsToLog | lib/libc/AdvancedLoggerLib/AdvancedLoggerCommon.c:24-94 | a write to a logger in use appends the stored entry to the recovered log, or leaves the log unchanged when the entry is discarded |
| AdvancedLoggerCommon.AppendDiscards | lib/libc/AdvancedLoggerLib/AdvancedLoggerCommon.c:61-69 | `DiscardedSize` grows by the message length modulo 2^32 exactly when the entry does not fit |
| AdvancedLoggerCommon.LiveStep | lib/libc/AdvancedLoggerLib/AdvancedLoggerCommon.c:24-94 | one write to a logger in use, whatever its payload region holds: the logger stays in use, `LogBuffer` is kept, `DiscardedSize` grows by the discarded length modulo 2^32, and the request is refused exactly for a zero length, a NULL buffer or a length above `MAX_UINT16` |
| AdvancedLoggerCommon.AppendStep | lib/libc/AdvancedLoggerLib/AdvancedLoggerCommon.c:51-90 | the reserve-or-discard step grows the recovered log by exactly the entry its outcome keeps: the new entry when it fits, nothing when it is discarded |
| AdvancedLoggerCommon.WriteStep | lib/libc/AdvancedLoggerLib/AdvancedLoggerCommon.c:24-94 | one write to a logger in use whose log can be read back grows that log by the stored entry, and by nothing when the entry is discarded or the request refused |
| AdvancedLoggerCommon.AcceptedStep | lib/libc/AdvancedLoggerLib/AdvancedLoggerCommon.c:49-90 | the same for a request with an accepted length and buffer |
| AdvancedLoggerCommon.WriteRun | lib/libc/AdvancedLoggerLib/AdvancedLoggerCommon.c:24-94 | a sequence of writes yields one outcome per write |
| AdvancedLoggerCommon.RunStep | lib/libc/AdvancedLoggerLib/AdvancedLoggerCommon.c:24-94 | the same first write on a logger whose log can be read back: the log grows by the entry it keeps |
| AdvancedLoggerCommon.LiveRunStep | lib/libc/AdvancedLoggerLib/AdvancedLoggerCommon.c:24-94 | the first write of a run on a logger in use, as `LiveStep` describes it, followed by the run of the rest from the state it leaves |
| AdvancedLoggerCommon.RunLog | lib/libc/AdvancedLoggerLib/AdvancedLoggerCommon.c:51-90 | over a run on a logger in use, the recovered log grows by exactly the stored entries, in order |
| AdvancedLoggerCommon.RunStaysLive | lib/libc/AdvancedLoggerLib/AdvancedLoggerCommon.c:49-50 | no write of a run trips the fail-closed latch |
| AdvancedLoggerCommon.RunDiscarded | lib/libc/AdvancedLoggerLib/AdvancedLoggerCommon.c:55-71 | over a run on a logger in use, `DiscardedSize` grows by the length of each discarded write in turn, each addition wrapping at 2^32 |
| AdvancedLoggerCommon.AddDiscardsSum | lib/libc/AdvancedLoggerLib/AdvancedLoggerCommon.c:61-69 | adding the discarded lengths one at a time with 32-bit wrap-around equals adding their total once, modulo 2^32 |
| AdvancedLoggerCommon.RunRefusesOnlyBadLengths | lib/libc/AdvancedLoggerLib/AdvancedLoggerCommon.c:41-47 | over a run on a logger in use, a write is refused exactly when its length or buffer is bad |
| AdvancedLoggerCommon.FreshLoggerIsEmpty | lib/libc/AdvancedLoggerLib/AdvancedLoggerLib.c:117-128 | a freshly initialised logger is in use, with an empty log, `LogCurrent = LogBuffer` and `DiscardedSize = 0` |
| AdvancedLoggerCommon.FreshRun | lib/libc/AdvancedLoggerLib/AdvancedLoggerCommon.c:51-80 | from a fresh logger, after any run: `LogCurrent - LogBuffer` is the summed `EntrySize` of the stored writes. `DiscardedSize` is the summed length of the discarded writes mod 2^32. The log reads back exactly the stored entries |
| AdvancedLoggerCommon.LoggerWrite | lib/libc/AdvancedLoggerLib/AdvancedLoggerCommon.c:113-129 | the memory effect of `AdvancedLoggerWrite` is that of the memory write alone |
| AdvancedLoggerCommon.PortFanOut | lib/libc/AdvancedLoggerLib/AdvancedLoggerCommon.c:125-128 | bytes reach the port exactly when the memory write returned the block and `HdwPortDisabled` is clear, and then all `n` bytes go out |
| AdvancedLoggerCommon.PortIndependentOfStorage | lib/libc/AdvancedLoggerLib/AdvancedLoggerCommon.c:122-128 | whether the port gets the message depends only on `HdwPortDisabled`, not on whether the entry was stored or discarded |
| AdvancedLoggerCommon.AddDiscarded | lib/libc/AdvancedLoggerLib/AdvancedLoggerCommon.c:61-69 | the compare-exchange loop adds `(uint32_t)n` to `DiscardedSize` with 32-bit wrap-around and changes nothing else |
| AdvancedLoggerCommon.ReserveOrDiscard | lib/libc/AdvancedLoggerLib/AdvancedLoggerCommon.c:51-90 | the reserve loop, the discard path and the entry fill leave the state `Append` describes |
| AdvancedLoggerCommon.MemoryLoggerWrite | lib/libc/AdvancedLoggerLib/AdvancedLoggerCommon.c:24-94 | the new state and the returned block are those of `MemoryWrite`; a returned block is the control block |
| AdvancedLoggerCommon.Write | lib/libc/AdvancedLoggerLib/AdvancedLoggerCommon.c:113-129 | the new state is that of `LoggerWrite`, and the port output grows by exactly the bytes `LoggerWrite` sends |

## Left out

- Concurrency is not modelled: racing writers, the unbounded compare-exchange retry
  and the ordering that writes an entry's `Signature` last.
  - Each `InterlockedCompareExchange` is one atomic step.
  - In this single-threaded model every compare-exchange loop runs once.
  - The entry fill is one `StoreEntry` step.
- `putchar` is output. `HdwPortWrite` returns the emitted bytes, and `Logger.hdwOut`,
  a ghost sequence, accumulates them.
- `GetPerformanceCounter` is a clock, so the timestamp is a parameter of the writer.
  The `ERROR` message at AdvancedLoggerLib.c:133 is dropped.
- `ASSERT (mLoggerInfo != NULL)` at AdvancedLoggerLib.c:112 does nothing here. A NULL
  base takes the `return NULL` path.
- `AdvancedLoggerInternal.h` is not part of this model.
  - `sizeof (ADVANCED_LOGGER_INFO)`, the entry header size, both signatures and the
    version are `Config` fields.
  - `MESSAGE_ENTRY_SIZE` is assumed to be `ALIGN_VALUE` of header plus length, at a
    power-of-two alignment.
  - The byte layout of both structures is abstract. The payload region is a map from
    address to entry, and an entry removes every entry it overlaps.
- `ValidConfig` restricts the platform constants:
  - `ADV_LOGGER_SIZE < 2^32`, so the `(UINT32)ADV_LOGGER_SIZE` truncation at
    AdvancedLoggerLib.c:117 is written out but never loses bits;
  - `ADV_LOGGER_BASE + ADV_LOGGER_SIZE < 2^64`;
  - `0 < sizeof (ADVANCED_LOGGER_INFO) < 65536`;
  - an entry header below 2^32 and an alignment shift below 32.
- `ADV_LOGGER_BASE` is fixed, so `mLoggerInfo` is modelled as either NULL or the one
  control block at that address. Address arithmetic is 64-bit.
- BaseTypes.Signature32: computes the mathematical value. In C, `SIGNATURE_16 (C, D) << 16`
  is a shift of a signed `int`, which overflows when `D >= 0x80`; that behaviour is not modelled.
- AdvancedLoggerCommon.RunLog: the run lemmas (`RunLog`, `RunStaysLive`, `RunDiscarded`,
  `RunRefusesOnlyBadLengths`, `FreshRun`) cover writes with no tampering in between.
  Tampering between calls is covered by the acquisition lemmas (`FailClosedLatch`,
  `DeadRunFails`, `SmallRegionNeverAvailable`).
- lib/libc/printf_bl31.c is not part of this model. It formats text into a buffer and
  passes it to the writer, so it sits in front of the memory channel rather than in it.
- The `EFI_TIME` structure and the type aliases of `UefiBaseTypes.h` carry no behaviour.
- `CopyMem` and `ZeroMem` are modelled by their effect on entries and fields, not byte by byte.
