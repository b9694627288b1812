/** The data the Advanced Logger keeps in its memory region: the control block
    (ADVANCED_LOGGER_INFO), the message entries (ADVANCED_LOGGER_MESSAGE_ENTRY)
    and the layout constants. AdvancedLoggerInternal.h, which defines them, is not
    part of this model, so header sizes, signatures and the version are parameters
    gathered in a Config, and addresses are plain 64-bit numbers. */
module AdvancedLoggerInternal {
  import opened BaseTypes

  /** The build-time constants of one logger instance. */
  datatype Config = Config(
    base: uint64,           // ADV_LOGGER_BASE: address of the control block
    size: uint64,           // ADV_LOGGER_SIZE: bytes in the whole region
    infoHeader: nat,        // sizeof (ADVANCED_LOGGER_INFO)
    entryHeader: nat,       // bytes of an entry before its MessageText
    entryAlignShift: nat,   // entries are rounded up to 2^entryAlignShift bytes
    infoSignature: uint32,  // ADVANCED_LOGGER_SIGNATURE
    version: uint16,        // ADVANCED_LOGGER_VERSION
    entrySignature: uint32  // MESSAGE_ENTRY_SIGNATURE
  )

  /** The entry layout keeps every entry size far below 2^64. */
  predicate EntryLayoutOk(c: Config)
  {
    c.entryHeader < TWO32 && c.entryAlignShift < 32
  }

  /** MESSAGE_ENTRY_SIZE(n): header plus message, rounded up with ALIGN_VALUE. */
  function EntrySize(c: Config, n: uint16): (s: uint64)
    requires EntryLayoutOk(c)
    ensures c.entryHeader + n <= s < c.entryHeader + n + Pow2(c.entryAlignShift)
  {
    EntrySizeFacts(c, n);
    var a: uint64 := Pow2(c.entryAlignShift);
    AlignValue(c.entryHeader + n, a)
  }

  /** The header plus message, rounded up to the entry alignment, is the least multiple of
      the alignment that holds them. */
  lemma EntrySizeFacts(c: Config, n: uint16)
    requires EntryLayoutOk(c)
    ensures Pow2(c.entryAlignShift) < TWO32
    ensures var s := AlignValue(c.entryHeader + n, Pow2(c.entryAlignShift));
      && c.entryHeader + n <= s < c.entryHeader + n + Pow2(c.entryAlignShift)
      && s % Pow2(c.entryAlignShift) == 0
  {
    Pow2Monotone(c.entryAlignShift + 1, 32);
    Pow2Of32();
    var a := Pow2(c.entryAlignShift);
    assert Pow2(c.entryAlignShift + 1) == 2 * a;
    assert c.entryHeader + n + a <= TWO64;
    AlignValueRoundsUp(c.entryHeader + n, a, c.entryAlignShift);
  }

  /** Every entry size is a multiple of the entry alignment. */
  lemma EntrySizeAligned(c: Config, n: uint16)
    requires EntryLayoutOk(c)
    ensures EntrySize(c, n) % Pow2(c.entryAlignShift) == 0
  {
    EntrySizeFacts(c, n);
  }

  /** One log record (ADVANCED_LOGGER_MESSAGE_ENTRY) as stored in the payload region. */
  datatype MessageEntry = MessageEntry(
    Signature: uint32,
    TimeStamp: uint64,
    DebugLevel: uint32,
    MessageLen: uint16,
    MessageText: seq<uint8>
  )

  /** A snapshot of the control block's fields. */
  datatype InfoBlock = InfoBlock(
    Signature: uint32,
    Version: uint16,
    LogBuffer: uint64,
    LogBufferSize: uint32,
    LogCurrent: uint64,
    DiscardedSize: uint32,
    HdwPortDisabled: bool,
    HdwPortInitialized: bool,
    InPermanentRAM: bool
  )

  /** The control block as ZeroMem leaves it. */
  const ZeroedBlock: InfoBlock := InfoBlock(0, 0, 0, 0, 0, 0, false, false, false)

  /** Whether an entry stored at `k` lies entirely outside the byte range [lo, hi). */
  predicate Apart(c: Config, k: uint64, e: MessageEntry, lo: int, hi: int)
    requires EntryLayoutOk(c)
  {
    k + EntrySize(c, e.MessageLen) <= lo || hi <= k
  }

  /** The payload region after `e` is written at `at`: every entry the new one overlaps
      is gone, and nothing outside [at, at + EntrySize) changes. */
  function Place(c: Config, entries: map<uint64, MessageEntry>, at: uint64, e: MessageEntry)
    : (m: map<uint64, MessageEntry>)
    requires EntryLayoutOk(c)
    ensures at in m && m[at] == e
    ensures forall k :: k in m && k != at ==>
              k in entries && m[k] == entries[k] && Apart(c, k, entries[k], at, at + EntrySize(c, e.MessageLen))
    ensures forall k :: k in entries && k != at && Apart(c, k, entries[k], at, at + EntrySize(c, e.MessageLen)) ==>
              k in m && m[k] == entries[k]
  {
    var hi := at + EntrySize(c, e.MessageLen);
    (map k | k in entries && Apart(c, k, entries[k], at, hi) :: entries[k])[at := e]
  }

  /** The control block (ADVANCED_LOGGER_INFO) in the shared region, followed by the
      payload region. Code outside the logger can write every field at any time. */
  class LoggerInfo {
    var Signature: uint32
    var Version: uint16
    var LogBuffer: uint64
    var LogBufferSize: uint32
    var LogCurrent: uint64
    var DiscardedSize: uint32
    var HdwPortDisabled: bool
    var HdwPortInitialized: bool
    var InPermanentRAM: bool
    /** The payload region: the entries it holds, by address. */
    var Entries: map<uint64, MessageEntry>

    function Block(): InfoBlock
      reads this
    {
      InfoBlock(Signature, Version, LogBuffer, LogBufferSize, LogCurrent, DiscardedSize,
                HdwPortDisabled, HdwPortInitialized, InPermanentRAM)
    }

    /** A region whose contents are whatever the memory held before the logger ran. */
    constructor (b: InfoBlock, entries: map<uint64, MessageEntry>)
      ensures Block() == b && Entries == entries
    {
      Signature, Version := b.Signature, b.Version;
      LogBuffer, LogBufferSize, LogCurrent := b.LogBuffer, b.LogBufferSize, b.LogCurrent;
      DiscardedSize := b.DiscardedSize;
      HdwPortDisabled, HdwPortInitialized, InPermanentRAM := b.HdwPortDisabled, b.HdwPortInitialized, b.InPermanentRAM;
      Entries := entries;
    }

    /** Less-trusted code overwrites the region. */
    method Tamper(b: InfoBlock, entries: map<uint64, MessageEntry>)
      modifies this
      ensures Block() == b && Entries == entries
    {
      Signature, Version := b.Signature, b.Version;
      LogBuffer, LogBufferSize, LogCurrent := b.LogBuffer, b.LogBufferSize, b.LogCurrent;
      DiscardedSize := b.DiscardedSize;
      HdwPortDisabled, HdwPortInitialized, InPermanentRAM := b.HdwPortDisabled, b.HdwPortInitialized, b.InPermanentRAM;
      Entries := entries;
    }

    /** ZeroMem over the whole region: every field is zero and no entry is left. */
    method ZeroMem()
      modifies this
      ensures Block() == ZeroedBlock && Entries == map[]
    {
      Signature, Version := 0, 0;
      LogBuffer, LogBufferSize, LogCurrent := 0, 0, 0;
      DiscardedSize := 0;
      HdwPortDisabled, HdwPortInitialized, InPermanentRAM := false, false, false;
      Entries := map[];
    }

    /** InterlockedCompareExchange64 on LogCurrent, as one atomic step: returns the
        value found and stores `exchange` only if that value was `compare`. */
    method CompareExchangeLogCurrent(compare: uint64, exchange: uint64) returns (original: uint64)
      modifies this`LogCurrent
      ensures original == old(LogCurrent)
      ensures LogCurrent == if original == compare then exchange else original
    {
      original := LogCurrent;
      if original == compare {
        LogCurrent := exchange;
      }
    }

    /** InterlockedCompareExchange32 on DiscardedSize, as one atomic step. */
    method CompareExchangeDiscardedSize(compare: uint32, exchange: uint32) returns (original: uint32)
      modifies this`DiscardedSize
      ensures original == old(DiscardedSize)
      ensures DiscardedSize == if original == compare then exchange else original
    {
      original := DiscardedSize;
      if original == compare {
        DiscardedSize := exchange;
      }
    }

    /** Fills the reserved slot at `at`: TimeStamp, DebugLevel, MessageLen, the copied
        MessageText and, last, the entry's Signature. */
    method StoreEntry(c: Config, at: uint64, e: MessageEntry)
      requires EntryLayoutOk(c)
      modifies this`Entries
      ensures Entries == Place(c, old(Entries), at, e)
    {
      Entries := Place(c, Entries, at, e);
    }
  }
}
