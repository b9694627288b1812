/** AdvancedLoggerLib.c: the module globals that locate the control block, its
    one-time initialisation, the re-validation on every access with its fail-closed
    latch, and the byte-by-byte hardware-port writer.

    The pure functions below (Acquire and the predicates it uses) specify
    AdvancedLoggerGetLoggerInfo over snapshots of the state; the class Logger is
    the imperative code, proved to follow them. */
module AdvancedLoggerLib {
  import opened BaseTypes
  import opened AdvancedLoggerInternal

  /** ADV_LOGGER_MIN_SIZE: the smallest region the logger will initialise. */
  const ADV_LOGGER_MIN_SIZE: nat := 65536

  /** The platform constants this model assumes: the header is smaller than the
      minimum region, the region size is a 32-bit quantity, and both the control
      block and the whole region end below 2^64. */
  predicate ValidConfig(c: Config)
  {
    && EntryLayoutOk(c)
    && 0 < c.infoHeader < ADV_LOGGER_MIN_SIZE
    && c.size < TWO32
    && c.base + c.size < TWO64
    && c.base + c.infoHeader < TWO64
  }

  /** PA_FROM_PTR (mLoggerInfo + 1): the address just past the control block. */
  function LogBufferAddress(c: Config): (a: uint64)
    ensures ValidConfig(c) ==> a == c.base + c.infoHeader
  {
    (c.base + c.infoHeader) % TWO64
  }

  /** BufferSize - sizeof (ADVANCED_LOGGER_INFO) with BufferSize = (UINT32)ADV_LOGGER_SIZE,
      stored into the 32-bit LogBufferSize field. */
  function StampedSize(c: Config): (n: uint32)
    ensures ValidConfig(c) && c.size >= ADV_LOGGER_MIN_SIZE ==>
              n == c.size - c.infoHeader && LogBufferAddress(c) + n == c.base + c.size
  {
    ((c.size % TWO32) - c.infoHeader) % TWO32
  }

  /** The control block as initialisation leaves it. */
  function StampedBlock(c: Config): InfoBlock
  {
    InfoBlock(
      Signature := c.infoSignature,
      Version := c.version,
      LogBuffer := LogBufferAddress(c),
      LogBufferSize := StampedSize(c),
      LogCurrent := LogBufferAddress(c),
      DiscardedSize := 0,
      HdwPortDisabled := false,
      HdwPortInitialized := true,
      InPermanentRAM := true)
  }

  /** The module globals: whether mLoggerInfo is non-NULL, mBufferSize, mMaxAddress
      and mInitialized. mLoggerInfo can only ever be NULL or ADV_LOGGER_BASE. */
  datatype Globals = Globals(infoPresent: bool, bufferSize: uint32, maxAddress: uint64, initialized: bool)

  /** The static initial values of the globals. */
  const InitialGlobals: Globals := Globals(false, 0, 0, false)

  /** Everything the logger reads or writes: its globals and the shared region. */
  datatype LoggerState = LoggerState(globals: Globals, block: InfoBlock, entries: map<uint64, MessageEntry>)

  /** The state after AdvancedLoggerGetLoggerInfo, and whether it returned the block. */
  datatype Acquired = Acquired(state: LoggerState, present: bool)

  /** The checks of ValidateInfoBlock, all of which must pass. Version and the flags
      are not checked. */
  predicate BlockPassesChecks(c: Config, g: Globals, b: InfoBlock)
  {
    && g.infoPresent
    && b.Signature == c.infoSignature
    && b.LogBuffer == LogBufferAddress(c)
    && b.LogBuffer <= b.LogCurrent <= g.maxAddress
    && (g.bufferSize == 0 || b.LogBufferSize == g.bufferSize)
  }

  /** The one-time initialisation block of AdvancedLoggerGetLoggerInfo. */
  function Initialize(c: Config, s: LoggerState): (r: LoggerState)
    ensures r.globals.initialized
    ensures c.base == 0 || c.size < ADV_LOGGER_MIN_SIZE ==>
              r.block == s.block && r.entries == s.entries && (r.globals.infoPresent <==> c.base != 0)
    ensures ValidConfig(c) && c.base != 0 && c.size >= ADV_LOGGER_MIN_SIZE ==>
              && r.block == StampedBlock(c) && r.entries == map[]
              && r.globals.bufferSize == r.block.LogBufferSize
              && r.globals.maxAddress == c.base + c.size
              && BlockPassesChecks(c, r.globals, r.block)
  {
    if c.base == 0 || c.size < ADV_LOGGER_MIN_SIZE then
      s.(globals := s.globals.(initialized := true, infoPresent := c.base != 0))
    else
      LoggerState(
        Globals(true, StampedSize(c), (LogBufferAddress(c) + StampedSize(c)) % TWO64, true),
        StampedBlock(c),
        map[])
  }

  /** AdvancedLoggerGetLoggerInfo over a snapshot of the state. */
  function Acquire(c: Config, s: LoggerState): (r: Acquired)
    ensures r.state.globals.initialized
    ensures s.globals.initialized ==> r.state.block == s.block && r.state.entries == s.entries
    ensures r.present ==> BlockPassesChecks(c, r.state.globals, r.state.block)
  {
    var s1 := if s.globals.initialized then s else Initialize(c, s);
    if !s.globals.initialized && (c.base == 0 || c.size < ADV_LOGGER_MIN_SIZE) then
      Acquired(s1, false)
    else if !s1.globals.infoPresent then
      Acquired(s1, false)
    else if BlockPassesChecks(c, s1.globals, s1.block) then
      var latched := if s1.globals.bufferSize == 0 then s1.block.LogBufferSize else s1.globals.bufferSize;
      Acquired(s1.(globals := s1.globals.(bufferSize := latched)), true)
    else
      Acquired(s1.(globals := s1.globals.(infoPresent := false)), false)
  }

  /** What holds of the globals in every state the logger can reach, whatever
      less-trusted code does to the shared region. */
  predicate Reachable(c: Config, g: Globals)
  {
    && (!g.initialized ==> g == InitialGlobals)
    && (g.infoPresent ==> c.base != 0)
    && (g.maxAddress == 0 ==> g.bufferSize == 0)
    && (g.maxAddress != 0 ==>
          && c.size >= ADV_LOGGER_MIN_SIZE
          && g.maxAddress == LogBufferAddress(c) + StampedSize(c)
          && g.bufferSize == StampedSize(c))
  }

  /** The latched failure: initialisation is over and either mLoggerInfo is NULL or
      mMaxAddress lies below every LogBuffer the validation accepts. */
  predicate Dead(c: Config, g: Globals)
  {
    g.initialized && (!g.infoPresent || g.maxAddress < LogBufferAddress(c))
  }

  lemma AcquireKeepsReachable(c: Config, s: LoggerState)
    requires ValidConfig(c) && Reachable(c, s.globals)
    ensures Reachable(c, Acquire(c, s).state.globals)
  {
  }

  /** mBufferSize, once set, keeps its value through every later call. */
  lemma BufferSizeFixed(c: Config, s: LoggerState)
    requires ValidConfig(c) && Reachable(c, s.globals) && s.globals.bufferSize != 0
    ensures Acquire(c, s).state.globals.bufferSize == s.globals.bufferSize
  {
  }

  /** A call that returns NULL leaves the logger latched dead. */
  lemma FailureIsDead(c: Config, s: LoggerState)
    requires ValidConfig(c) && Reachable(c, s.globals)
    requires !Acquire(c, s).present
    ensures Dead(c, Acquire(c, s).state.globals)
  {
  }

  /** A dead logger returns NULL and stays dead, whatever the region holds. */
  lemma DeadStaysDead(c: Config, s: LoggerState)
    requires ValidConfig(c) && Dead(c, s.globals)
    ensures !Acquire(c, s).present && Dead(c, Acquire(c, s).state.globals)
  {
  }

  /** Calls to AdvancedLoggerGetLoggerInfo, each after less-trusted code has set the
      control block to the next element of `blocks`: what each call returns. */
  function AcquireRun(c: Config, s: LoggerState, blocks: seq<InfoBlock>): (r: seq<bool>)
    ensures |r| == |blocks|
    decreases |blocks|
  {
    if blocks == [] then []
    else
      var a := Acquire(c, s.(block := blocks[0]));
      [a.present] + AcquireRun(c, a.state, blocks[1..])
  }

  lemma {:induction false} DeadRunFails(c: Config, s: LoggerState, blocks: seq<InfoBlock>)
    requires ValidConfig(c) && Dead(c, s.globals)
    ensures forall i :: 0 <= i < |blocks| ==> !AcquireRun(c, s, blocks)[i]
    decreases |blocks|
  {
    if blocks != [] {
      var s0 := s.(block := blocks[0]);
      DeadStaysDead(c, s0);
      DeadRunFails(c, Acquire(c, s0).state, blocks[1..]);
    }
  }

  /** The fail-closed latch: once a call returns NULL, every later call returns NULL,
      whatever is written into the control block in between, including its original contents. */
  lemma {:induction false} FailClosedLatch(c: Config, s: LoggerState, blocks: seq<InfoBlock>, i: nat, j: nat)
    requires ValidConfig(c) && Reachable(c, s.globals)
    requires i < j < |blocks| && !AcquireRun(c, s, blocks)[i]
    ensures !AcquireRun(c, s, blocks)[j]
    decreases |blocks|
  {
    var s0 := s.(block := blocks[0]);
    var a := Acquire(c, s0);
    if i == 0 {
      FailureIsDead(c, s0);
      DeadRunFails(c, a.state, blocks[1..]);
    } else {
      AcquireKeepsReachable(c, s0);
      FailClosedLatch(c, a.state, blocks[1..], i - 1, j - 1);
    }
  }

  /** A region smaller than ADV_LOGGER_MIN_SIZE is never handed out: the first call
      fails in initialisation and every later call fails validation. */
  lemma SmallRegionNeverAvailable(c: Config, blocks: seq<InfoBlock>, entries: map<uint64, MessageEntry>, b: InfoBlock)
    requires ValidConfig(c) && c.size < ADV_LOGGER_MIN_SIZE
    ensures forall i :: 0 <= i < |blocks| ==> !AcquireRun(c, LoggerState(InitialGlobals, b, entries), blocks)[i]
  {
    var s := LoggerState(InitialGlobals, b, entries);
    if blocks != [] {
      var s0 := s.(block := blocks[0]);
      FailureIsDead(c, s0);
      DeadRunFails(c, Acquire(c, s0).state, blocks[1..]);
    }
  }

  /** The first call on a large enough region at a non-NULL base initialises it and returns it. */
  lemma FirstCallInitializes(c: Config, s: LoggerState)
    requires ValidConfig(c) && !s.globals.initialized
    requires c.base != 0 && c.size >= ADV_LOGGER_MIN_SIZE
    ensures var a := Acquire(c, s);
      && a.present
      && a.state.block.Signature == c.infoSignature
      && a.state.block.Version == c.version
      && a.state.block.LogBuffer == c.base + c.infoHeader
      && a.state.block.LogBufferSize == c.size - c.infoHeader
      && a.state.block.LogCurrent == a.state.block.LogBuffer
      && a.state.block.DiscardedSize == 0
      && !a.state.block.HdwPortDisabled
      && a.state.block.HdwPortInitialized && a.state.block.InPermanentRAM
      && a.state.entries == map[]
      && a.state.globals.maxAddress == a.state.block.LogBuffer + a.state.block.LogBufferSize
      && a.state.globals.bufferSize == a.state.block.LogBufferSize
  {
  }

  /** On a valid block that nobody touched, a later call returns the block again and
      changes nothing: neither the block nor the latched mBufferSize. */
  lemma AcquireStable(c: Config, s: LoggerState)
    requires ValidConfig(c) && Reachable(c, s.globals) && s.globals.initialized
    requires Acquire(c, s).present
    ensures Acquire(c, s).state == s
  {
  }

  /** Calling twice without interference is the same as calling once. */
  lemma AcquireIdempotent(c: Config, s: LoggerState)
    requires ValidConfig(c) && Reachable(c, s.globals)
    requires Acquire(c, s).present
    ensures Acquire(c, Acquire(c, s).state) == Acquire(c, s)
  {
    AcquireKeepsReachable(c, s);
    AcquireStable(c, Acquire(c, s).state);
  }

  /** A logger in use: initialised, and the next call hands out the block. */
  predicate Live(c: Config, s: LoggerState)
  {
    && ValidConfig(c)
    && Reachable(c, s.globals)
    && s.globals.initialized
    && BlockPassesChecks(c, s.globals, s.block)
  }

  /** On a logger in use, AdvancedLoggerGetLoggerInfo returns the block and changes nothing. */
  lemma LiveIsStable(c: Config, s: LoggerState)
    requires Live(c, s)
    ensures Acquire(c, s) == Acquired(s, true)
  {
    assert Acquire(c, s).present;
    AcquireStable(c, s);
  }

  /** The cursor lies within the payload region the block describes. */
  predicate CursorInBounds(b: InfoBlock)
  {
    b.LogBuffer <= b.LogCurrent <= b.LogBuffer + b.LogBufferSize
  }

  /** Whatever less-trusted code wrote into the control block, a block that passes
      validation describes the payload region of the initialised layout: it starts
      right after the control block, ends at the end of the region, and its cursor
      lies inside it. */
  lemma AcquiredBlockInRegion(c: Config, s: LoggerState)
    requires ValidConfig(c) && Reachable(c, s.globals) && Acquire(c, s).present
    ensures var b := Acquire(c, s).state.block;
      && c.size >= ADV_LOGGER_MIN_SIZE
      && b.LogBuffer == c.base + c.infoHeader
      && b.LogBufferSize == c.size - c.infoHeader
      && CursorInBounds(b)
    ensures Live(c, Acquire(c, s).state)
  {
    var a := Acquire(c, s);
    var g := a.state.globals;
    assert g.maxAddress >= LogBufferAddress(c) > 0;
    AcquireKeepsReachable(c, s);
    AcquireIdempotent(c, s);
  }

  /** AdvancedLoggerHdwPortWrite: puts the bytes to the port one at a time, in order,
      and returns how many were sent. The port is the output sequence. */
  method HdwPortWrite(debugLevel: uint64, buffer: seq<uint8>, numberOfBytes: uint64)
    returns (numberReturned: uint64, emitted: seq<uint8>)
    requires numberOfBytes <= |buffer|
    ensures numberReturned == numberOfBytes
    ensures emitted == buffer[..numberOfBytes]
  {
    numberReturned := 0;
    emitted := [];
    while numberReturned < numberOfBytes
      invariant numberReturned <= numberOfBytes
      invariant emitted == buffer[..numberReturned]
    {
      emitted := emitted + [buffer[numberReturned]];
      numberReturned := numberReturned + 1;
    }
  }

  /** The field stores of the initialisation block: the whole region is zeroed, then the
      header fields are written, LogBufferSize as BufferSize - sizeof (ADVANCED_LOGGER_INFO). */
  method StampInfo(info: LoggerInfo, c: Config)
    modifies info
    ensures info.Block() == StampedBlock(c) && info.Entries == map[]
  {
    var size32: uint32 := c.size % TWO32;
    info.ZeroMem();
    info.Signature := c.infoSignature;
    info.Version := c.version;
    info.LogBuffer := LogBufferAddress(c);
    info.LogBufferSize := (size32 - c.infoHeader) % TWO32;
    info.LogCurrent := info.LogBuffer;
    info.HdwPortInitialized := true;
    info.InPermanentRAM := true;
  }

  /** The module globals of one logger instance, and the region at ADV_LOGGER_BASE. */
  class Logger {
    const cfg: Config
    /** The memory at ADV_LOGGER_BASE. */
    const info: LoggerInfo
    /** mLoggerInfo */
    var loggerInfo: LoggerInfo?
    /** mBufferSize */
    var bufferSize: uint32
    /** mMaxAddress */
    var maxAddress: uint64
    /** mInitialized */
    var initialized: bool
    /** Every byte sent to the hardware port so far. */
    ghost var hdwOut: seq<uint8>

    ghost predicate Valid()
      reads this
    {
      && ValidConfig(cfg)
      && (loggerInfo == null || loggerInfo == info)
      && Reachable(cfg, ModuleGlobals())
    }

    function ModuleGlobals(): Globals
      reads this
    {
      Globals(loggerInfo != null, bufferSize, maxAddress, initialized)
    }

    function State(): LoggerState
      reads this, info
    {
      LoggerState(ModuleGlobals(), info.Block(), info.Entries)
    }

    /** The globals at their static initial values, over a region with arbitrary contents. */
    constructor (c: Config, memory: LoggerInfo)
      requires ValidConfig(c)
      ensures Valid() && cfg == c && info == memory
      ensures ModuleGlobals() == InitialGlobals && hdwOut == []
    {
      cfg := c;
      info := memory;
      loggerInfo := null;
      bufferSize := 0;
      maxAddress := 0;
      initialized := false;
      hdwOut := [];
    }

    /** ValidateInfoBlock: all checks on the block mLoggerInfo points to; latches
        mBufferSize on the first successful check if it is still 0. */
    method ValidateInfoBlock() returns (ok: bool)
      requires loggerInfo == null || loggerInfo == info
      modifies this`bufferSize
      ensures ok <==> && loggerInfo != null
                      && info.Signature == cfg.infoSignature
                      && info.LogBuffer == LogBufferAddress(cfg)
                      && info.LogBuffer <= info.LogCurrent <= maxAddress
                      && (old(bufferSize) == 0 || info.LogBufferSize == old(bufferSize))
      ensures bufferSize == if ok && old(bufferSize) == 0 then info.LogBufferSize else old(bufferSize)
    {
      if loggerInfo == null {
        return false;
      }
      if loggerInfo.Signature != cfg.infoSignature {
        return false;
      }
      if loggerInfo.LogBuffer != LogBufferAddress(cfg) {
        return false;
      }
      if loggerInfo.LogCurrent > maxAddress || loggerInfo.LogCurrent < loggerInfo.LogBuffer {
        return false;
      }
      if bufferSize == 0 {
        bufferSize := loggerInfo.LogBufferSize;
      } else if loggerInfo.LogBufferSize != bufferSize {
        return false;
      }
      return true;
    }

    /** The stores of a successful initialisation: ZeroMem over the region, the
        stamped fields of the control block, and the derived mMaxAddress and mBufferSize. */
    method StampRegion()
      requires ValidConfig(cfg) && cfg.base != 0 && cfg.size >= ADV_LOGGER_MIN_SIZE
      requires initialized && loggerInfo == info
      modifies this`maxAddress, this`bufferSize, info
      ensures State() == Initialize(cfg, old(State()))
    {
      StampInfo(info, cfg);
      maxAddress := (info.LogBuffer + info.LogBufferSize) % TWO64;
      bufferSize := info.LogBufferSize;
    }

    /** AdvancedLoggerGetLoggerInfo: initialises at most once, then re-validates the
        block on every call and drops it for good on the first failed check. */
    method GetLoggerInfo() returns (r: LoggerInfo?)
      requires Valid()
      modifies this, info
      ensures Valid() && hdwOut == old(hdwOut)
      ensures State() == Acquire(cfg, old(State())).state
      ensures (r != null) == Acquire(cfg, old(State())).present
      ensures r != null ==> r == info
    {
      ghost var s0 := State();
      if !initialized {
        initialized := true;
        loggerInfo := if cfg.base == 0 then null else info;
        if loggerInfo == null || cfg.size < ADV_LOGGER_MIN_SIZE {
          assert State() == Initialize(cfg, s0);
          return null;
        }
        StampRegion();
      }
      ghost var s1 := State();
      assert s1 == if s0.globals.initialized then s0 else Initialize(cfg, s0);
      if loggerInfo != null {
        var ok := ValidateInfoBlock();
        if !ok {
          loggerInfo := null;
        }
      }
      r := loggerInfo;
    }
  }
}
