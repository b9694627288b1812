/** AdvancedLoggerCommon.c: the in-memory entry writer with its discard accounting,
    and the writer that fans a message out to the memory log and the hardware port.

    MemoryWrite and LoggerWrite specify the two writers over snapshots of the state;
    MemoryLoggerWrite and Write are the imperative code, proved to follow them. Walk
    is the log as a reader sees it: the chain of entries from LogBuffer to LogCurrent. */
module AdvancedLoggerCommon {
  import opened BaseTypes
  import opened AdvancedLoggerInternal
  import opened AdvancedLoggerLib

  /** The caller's Buffer holds NumberOfBytes bytes whenever the writer reads it. */
  predicate Readable(buffer: Option<seq<uint8>>, n: uint64)
  {
    buffer.Some? && 0 < n <= MAX_UINT16 ==> n <= |buffer.value|
  }

  /** A length the writer accepts, with a non-NULL buffer. */
  predicate Acceptable(buffer: Option<seq<uint8>>, n: uint64)
  {
    buffer.Some? && 0 < n <= MAX_UINT16
  }

  /** UsedSize: bytes of the payload region below the cursor, in 64-bit arithmetic. */
  function UsedSize(b: InfoBlock): (u: uint64)
    ensures b.LogBuffer <= b.LogCurrent ==> u == b.LogCurrent - b.LogBuffer
  {
    (b.LogCurrent - b.LogBuffer) % TWO64
  }

  /** The reservation test: an entry for `n` message bytes fits in what is left. */
  predicate Fits(c: Config, b: InfoBlock, n: uint16): (ok: bool)
    requires EntryLayoutOk(c)
    ensures b.LogBuffer <= b.LogCurrent ==>
              (ok <==> b.LogCurrent < b.LogBuffer + b.LogBufferSize
                       && b.LogCurrent + EntrySize(c, n) <= b.LogBuffer + b.LogBufferSize)
  {
    UsedSize(b) < b.LogBufferSize && b.LogBufferSize - UsedSize(b) >= EntrySize(c, n)
  }

  /** The entry the writer fills in for a message. */
  function EntryFor(c: Config, level: uint64, text: seq<uint8>, timeStamp: uint64): MessageEntry
    requires |text| <= MAX_UINT16
  {
    MessageEntry(c.entrySignature, timeStamp, level % TWO32, |text|, text)
  }

  /** The reserve-or-discard step on a block that passed validation: only LogCurrent,
      DiscardedSize and the payload region can change. */
  function Append(c: Config, s: LoggerState, level: uint64, text: seq<uint8>, timeStamp: uint64)
    : (t: LoggerState)
    requires EntryLayoutOk(c) && 0 < |text| <= MAX_UINT16
    ensures t.globals == s.globals
    ensures t.block == s.block.(LogCurrent := t.block.LogCurrent, DiscardedSize := t.block.DiscardedSize)
  {
    var n := |text|;
    if Fits(c, s.block, n) then
      var cur := s.block.LogCurrent;
      s.(block := s.block.(LogCurrent := (cur + EntrySize(c, n)) % TWO64),
         entries := Place(c, s.entries, cur, EntryFor(c, level, text, timeStamp)))
    else
      s.(block := s.block.(DiscardedSize := (s.block.DiscardedSize + n % TWO32) % TWO32))
  }

  /** AdvancedLoggerMemoryLoggerWrite over a snapshot of the state: the new state, and
      whether the block was returned. */
  function MemoryWrite(c: Config, s: LoggerState, level: uint64, buffer: Option<seq<uint8>>,
                       n: uint64, timeStamp: uint64): (r: Acquired)
    requires ValidConfig(c) && Readable(buffer, n)
    ensures r.present ==> Acceptable(buffer, n)
    ensures r.state.globals.initialized || r.state == s
  {
    if n == 0 || buffer.None? then Acquired(s, false)
    else if n > MAX_UINT16 then Acquired(s, false)
    else
      var a := Acquire(c, s);
      if a.present then Acquired(Append(c, a.state, level, buffer.value[..n], timeStamp), true)
      else a
  }

  /** A zero length, a NULL buffer or a length above MAX_UINT16 returns NULL before the
      control block is even looked up, so nothing changes; every other length reaches
      AdvancedLoggerGetLoggerInfo, and the block is returned exactly when that call returns it. */
  lemma WritePresentIff(c: Config, s: LoggerState, level: uint64, buffer: Option<seq<uint8>>,
                        n: uint64, timeStamp: uint64)
    requires ValidConfig(c) && Readable(buffer, n)
    ensures !Acceptable(buffer, n) ==> MemoryWrite(c, s, level, buffer, n, timeStamp) == Acquired(s, false)
    ensures MemoryWrite(c, s, level, buffer, n, timeStamp).present <==> Acceptable(buffer, n) && Acquire(c, s).present
    ensures Acceptable(buffer, n) && !Acquire(c, s).present ==>
              MemoryWrite(c, s, level, buffer, n, timeStamp) == Acquire(c, s)
  {
  }

  /** MAX_UINT16 is the longest message accepted: 65535 bytes reach the logger, 65536 do not. */
  lemma LengthBoundary(c: Config, s: LoggerState, level: uint64, text: seq<uint8>, timeStamp: uint64)
    requires ValidConfig(c) && |text| >= 0xFFFF
    ensures MemoryWrite(c, s, level, Some(text), 0xFFFF, timeStamp).present == Acquire(c, s).present
    ensures MemoryWrite(c, s, level, Some(text), 0x1_0000, timeStamp) == Acquired(s, false)
  {
    WritePresentIff(c, s, level, Some(text), 0xFFFF, timeStamp);
  }

  /** On a block whose cursor lies in its payload region and whose region ends below 2^64,
      a fitting entry is reserved without wrap-around and ends inside the region. */
  lemma AppendReserves(c: Config, s: LoggerState, level: uint64, text: seq<uint8>, timeStamp: uint64)
    requires EntryLayoutOk(c) && 0 < |text| <= MAX_UINT16
    requires CursorInBounds(s.block) && s.block.LogBuffer + s.block.LogBufferSize < TWO64
    requires Fits(c, s.block, |text|)
    ensures var at := s.block.LogCurrent;
      && at + EntrySize(c, |text|) <= s.block.LogBuffer + s.block.LogBufferSize
      && Append(c, s, level, text, timeStamp) ==
           s.(block := s.block.(LogCurrent := at + EntrySize(c, |text|)),
              entries := Place(c, s.entries, at, EntryFor(c, level, text, timeStamp)))
  {
    var b := s.block;
    var sz := EntrySize(c, |text|);
    assert UsedSize(b) == b.LogCurrent - b.LogBuffer;
    assert b.LogCurrent + sz <= b.LogBuffer + b.LogBufferSize;
    assert (b.LogCurrent + sz) % TWO64 == b.LogCurrent + sz;
  }

  /** When the entry fits, the writer reserves [LogCurrent, LogCurrent + EntrySize) inside the
      region: LogCurrent advances by exactly EntrySize, DiscardedSize and the other fields stay,
      the reserved slot holds the message, and the payload region changes nowhere else. */
  lemma WriteReserves(c: Config, s: LoggerState, level: uint64, buffer: Option<seq<uint8>>,
                      n: uint64, timeStamp: uint64)
    requires ValidConfig(c) && Reachable(c, s.globals) && Readable(buffer, n)
    requires Acceptable(buffer, n) && Acquire(c, s).present
    requires Fits(c, Acquire(c, s).state.block, n)
    ensures var before := Acquire(c, s).state;
      var at := before.block.LogCurrent;
      var after := MemoryWrite(c, s, level, buffer, n, timeStamp).state;
      && c.base + c.infoHeader <= at
      && at + EntrySize(c, n) <= c.base + c.size
      && after.globals == before.globals
      && after.block == before.block.(LogCurrent := at + EntrySize(c, n))
      && at in after.entries
      && after.entries[at].Signature == c.entrySignature
      && after.entries[at].TimeStamp == timeStamp
      && after.entries[at].DebugLevel == level % TWO32
      && after.entries[at].MessageLen == n
      && after.entries[at].MessageText == buffer.value[..n]
      && (forall k :: k in after.entries && k != at ==>
            k in before.entries && after.entries[k] == before.entries[k]
            && Apart(c, k, before.entries[k], at, at + EntrySize(c, n)))
      && (forall k :: k in before.entries && k != at && Apart(c, k, before.entries[k], at, at + EntrySize(c, n)) ==>
            k in after.entries && after.entries[k] == before.entries[k])
  {
    var before := Acquire(c, s).state;
    var text := buffer.value[..n];
    AcquiredBlockInRegion(c, s);
    AppendReserves(c, before, level, text, timeStamp);
    assert MemoryWrite(c, s, level, buffer, n, timeStamp).state == Append(c, before, level, text, timeStamp);
  }

  /** When the entry does not fit, the cursor and the payload region stay as they were,
      DiscardedSize grows by the message length modulo 2^32, and the block is still returned. */
  lemma WriteOverflows(c: Config, s: LoggerState, level: uint64, buffer: Option<seq<uint8>>,
                       n: uint64, timeStamp: uint64)
    requires ValidConfig(c) && Readable(buffer, n)
    requires Acceptable(buffer, n) && Acquire(c, s).present
    requires !Fits(c, Acquire(c, s).state.block, n)
    ensures var before := Acquire(c, s).state;
      var r := MemoryWrite(c, s, level, buffer, n, timeStamp);
      && r.present
      && r.state.globals == before.globals
      && r.state.entries == before.entries
      && r.state.block == before.block.(DiscardedSize := (before.block.DiscardedSize + n) % TWO32)
  {
    var before := Acquire(c, s).state;
    var text := buffer.value[..n];
    assert MemoryWrite(c, s, level, buffer, n, timeStamp) == Acquired(Append(c, before, level, text, timeStamp), true);
    AppendDiscards(c, before, level, text, timeStamp);
  }

  /** LogBuffer <= LogCurrent <= LogBuffer + LogBufferSize holds after every write that
      returns the block, whatever the block held before, and every write keeps it. */
  lemma WriteKeepsCursorInBounds(c: Config, s: LoggerState, level: uint64, buffer: Option<seq<uint8>>,
                                 n: uint64, timeStamp: uint64)
    requires ValidConfig(c) && Reachable(c, s.globals) && Readable(buffer, n)
    ensures var r := MemoryWrite(c, s, level, buffer, n, timeStamp);
      && (r.present ==> CursorInBounds(r.state.block))
      && (CursorInBounds(s.block) ==> CursorInBounds(r.state.block))
  {
    var r := MemoryWrite(c, s, level, buffer, n, timeStamp);
    if Acceptable(buffer, n) && Acquire(c, s).present {
      var before := Acquire(c, s).state;
      var text := buffer.value[..n];
      AcquiredBlockInRegion(c, s);
      assert r.state == Append(c, before, level, text, timeStamp);
      if Fits(c, before.block, n) {
        AppendReserves(c, before, level, text, timeStamp);
      }
    } else if Acceptable(buffer, n) {
      assert r.state == Acquire(c, s).state;
    }
  }

  /** A logger in use stays in use: the next call finds the block valid and unchanged. */
  lemma WriteKeepsLive(c: Config, s: LoggerState, level: uint64, buffer: Option<seq<uint8>>,
                       n: uint64, timeStamp: uint64)
    requires Live(c, s) && Readable(buffer, n)
    ensures Live(c, MemoryWrite(c, s, level, buffer, n, timeStamp).state)
  {
    LiveIsStable(c, s);
    AcquiredBlockInRegion(c, s);
    if Acceptable(buffer, n) {
      var t := MemoryWrite(c, s, level, buffer, n, timeStamp).state;
      assert CursorInBounds(t.block) by {
        WriteKeepsCursorInBounds(c, s, level, buffer, n, timeStamp);
      }
      assert BlockPassesChecks(c, t.globals, t.block);
    }
  }

  /** The entries a reader finds when it walks the payload region from `p`, stepping
      over each entry by its EntrySize, until it lands exactly on `end`; None when the
      walk reaches an address that holds no entry, or steps past `end`. */
  function Walk(c: Config, entries: map<uint64, MessageEntry>, p: int, end: int): Option<seq<MessageEntry>>
    requires EntryLayoutOk(c)
    decreases end - p
  {
    if p == end then Some([])
    else if p < 0 || p > end || p >= TWO64 || p !in entries then None
    else
      var next := p + EntrySize(c, entries[p].MessageLen);
      if next <= p then None
      else match Walk(c, entries, next, end)
        case None => None
        case Some(rest) => Some([entries[p]] + rest)
  }

  /** The log a reader recovers from the region: the entries from LogBuffer to LogCurrent. */
  function Log(c: Config, s: LoggerState): Option<seq<MessageEntry>>
    requires EntryLayoutOk(c)
  {
    Walk(c, s.entries, s.block.LogBuffer, s.block.LogCurrent)
  }

  /** The bytes a sequence of entries occupies. */
  function SumSizes(c: Config, es: seq<MessageEntry>): nat
    requires EntryLayoutOk(c)
  {
    if es == [] then 0 else EntrySize(c, es[0].MessageLen) + SumSizes(c, es[1..])
  }

  /** A walk that lands on `end` has covered exactly the bytes of the entries it found. */
  lemma {:induction false} WalkSpan(c: Config, m: map<uint64, MessageEntry>, p: int, end: int)
    requires EntryLayoutOk(c) && Walk(c, m, p, end).Some?
    ensures end - p == SumSizes(c, Walk(c, m, p, end).value)
    decreases end - p
  {
    if p != end {
      var next := p + EntrySize(c, m[p].MessageLen);
      WalkSpan(c, m, next, end);
      assert Walk(c, m, p, end).value[1..] == Walk(c, m, next, end).value;
    }
  }

  /** A walk depends only on the entries that lie wholly below its end. */
  lemma {:induction false} WalkAgrees(c: Config, m: map<uint64, MessageEntry>, m': map<uint64, MessageEntry>,
                                      p: int, end: int)
    requires EntryLayoutOk(c) && Walk(c, m, p, end).Some?
    requires forall k :: k in m && k < end && k + EntrySize(c, m[k].MessageLen) <= end ==> k in m' && m'[k] == m[k]
    ensures Walk(c, m', p, end) == Walk(c, m, p, end)
    decreases end - p
  {
    if p != end {
      var next := p + EntrySize(c, m[p].MessageLen);
      assert next <= end;
      WalkAgrees(c, m, m', next, end);
    }
  }

  /** Writing an entry at the end of a walk leaves the walk as it was: every entry on
      it lies wholly below the new one. */
  lemma WalkSurvivesPlace(c: Config, m: map<uint64, MessageEntry>, p: int, end: uint64, e: MessageEntry)
    requires EntryLayoutOk(c) && Walk(c, m, p, end).Some?
    ensures Walk(c, Place(c, m, end, e), p, end) == Walk(c, m, p, end)
  {
    var placed := Place(c, m, end, e);
    forall k | k in m && k < end && k + EntrySize(c, m[k].MessageLen) <= end
      ensures k in placed && placed[k] == m[k]
    {
      assert Apart(c, k, m[k], end, end + EntrySize(c, e.MessageLen));
    }
    WalkAgrees(c, m, placed, p, end);
  }

  /** A walk that lands on an entry of non-zero size extends over it. */
  lemma {:induction false} WalkExtend(c: Config, m: map<uint64, MessageEntry>, p: int, end: uint64)
    requires EntryLayoutOk(c) && Walk(c, m, p, end).Some?
    requires end in m && EntrySize(c, m[end].MessageLen) > 0
    ensures Walk(c, m, p, end + EntrySize(c, m[end].MessageLen)) == Some(Walk(c, m, p, end).value + [m[end]])
    decreases end - p
  {
    var last := end + EntrySize(c, m[end].MessageLen);
    if p == end {
      var e := m[end];
      assert Walk(c, m, end, end) == Some([]);
      assert Walk(c, m, last, last) == Some([]);
      assert Walk(c, m, end, last) == Some([e] + []);
      assert [e] + [] == [] + [e];
    } else {
      var next := p + EntrySize(c, m[p].MessageLen);
      var tail := Walk(c, m, next, end);
      assert tail.Some? && Walk(c, m, p, end).value == [m[p]] + tail.value;
      WalkExtend(c, m, next, end);
      assert Walk(c, m, next, last) == Some(tail.value + [m[end]]);
      assert Walk(c, m, p, last) == Some([m[p]] + (tail.value + [m[end]]));
      assert [m[p]] + (tail.value + [m[end]]) == ([m[p]] + tail.value) + [m[end]];
    }
  }

  /** On a logger in use the next call finds the block as it is, so an accepted write is
      the reserve-or-discard step on the current state. */
  lemma LiveWriteIsAppend(c: Config, s: LoggerState, level: uint64, buffer: Option<seq<uint8>>,
                          n: uint64, timeStamp: uint64)
    requires Live(c, s) && Readable(buffer, n) && Acceptable(buffer, n)
    ensures Acquire(c, s) == Acquired(s, true)
    ensures MemoryWrite(c, s, level, buffer, n, timeStamp) == Acquired(Append(c, s, level, buffer.value[..n], timeStamp), true)
    ensures CursorInBounds(s.block) && s.block.LogBuffer + s.block.LogBufferSize < TWO64
  {
    LiveIsStable(c, s);
    AcquiredBlockInRegion(c, s);
  }

  /** The reserve-or-discard step appends the stored entry to the log a reader recovers,
      and leaves the log as it was when the entry is discarded. */
  lemma AppendExtendsLog(c: Config, s: LoggerState, level: uint64, text: seq<uint8>, timeStamp: uint64)
    requires EntryLayoutOk(c) && 0 < |text| <= MAX_UINT16
    requires CursorInBounds(s.block) && s.block.LogBuffer + s.block.LogBufferSize < TWO64
    requires Log(c, s).Some?
    ensures Log(c, Append(c, s, level, text, timeStamp)) ==
              if Fits(c, s.block, |text|) then Some(Log(c, s).value + [EntryFor(c, level, text, timeStamp)])
              else Log(c, s)
  {
    if Fits(c, s.block, |text|) {
      StoredExtendsLog(c, s, level, text, timeStamp);
    }
  }

  lemma StoredExtendsLog(c: Config, s: LoggerState, level: uint64, text: seq<uint8>, timeStamp: uint64)
    requires EntryLayoutOk(c) && 0 < |text| <= MAX_UINT16
    requires CursorInBounds(s.block) && s.block.LogBuffer + s.block.LogBufferSize < TWO64
    requires Log(c, s).Some? && Fits(c, s.block, |text|)
    ensures Log(c, Append(c, s, level, text, timeStamp)) == Some(Log(c, s).value + [EntryFor(c, level, text, timeStamp)])
  {
    var e, at := EntryFor(c, level, text, timeStamp), s.block.LogCurrent;
    var t := Append(c, s, level, text, timeStamp);
    AppendReserves(c, s, level, text, timeStamp);
    assert t.entries == Place(c, s.entries, at, e);
    assert t.block.LogCurrent == at + EntrySize(c, e.MessageLen);
    PlaceExtendsWalk(c, s.entries, s.block.LogBuffer, at, e, Log(c, s).value);
  }

  /** Writing an entry where a walk ends extends the walk over the new entry. */
  lemma PlaceExtendsWalk(c: Config, m: map<uint64, MessageEntry>, p: int, end: uint64, e: MessageEntry,
                         found: seq<MessageEntry>)
    requires EntryLayoutOk(c) && Walk(c, m, p, end) == Some(found) && EntrySize(c, e.MessageLen) > 0
    ensures Walk(c, Place(c, m, end, e), p, end + EntrySize(c, e.MessageLen)) == Some(found + [e])
  {
    var placed := Place(c, m, end, e);
    WalkSurvivesPlace(c, m, p, end, e);
    assert end in placed && placed[end] == e;
    WalkExtend(c, placed, p, end);
  }

  /** A write to a logger in use appends the stored entry to the log a reader recovers,
      and leaves the log as it was when the entry is discarded. */
  lemma WriteAppendsToLog(c: Config, s: LoggerState, level: uint64, buffer: Option<seq<uint8>>,
                          n: uint64, timeStamp: uint64)
    requires Live(c, s) && Readable(buffer, n) && Acceptable(buffer, n) && Log(c, s).Some?
    ensures var after := MemoryWrite(c, s, level, buffer, n, timeStamp).state;
      Log(c, after) == if Fits(c, s.block, n)
                       then Some(Log(c, s).value + [EntryFor(c, level, buffer.value[..n], timeStamp)])
                       else Log(c, s)
  {
    LiveWriteIsAppend(c, s, level, buffer, n, timeStamp);
    AppendExtendsLog(c, s, level, buffer.value[..n], timeStamp);
  }

  /** One call to the writer. */
  datatype Request = Request(level: uint64, buffer: Option<seq<uint8>>, n: uint64, timeStamp: uint64)

  predicate AllReadable(reqs: seq<Request>)
  {
    forall i :: 0 <= i < |reqs| ==> Readable(reqs[i].buffer, reqs[i].n)
  }

  /** What becomes of one request, judged from the state before it. */
  datatype Outcome = Refused | Stored(entry: MessageEntry) | Discarded(length: nat)

  function Classify(c: Config, s: LoggerState, q: Request): Outcome
    requires ValidConfig(c) && Readable(q.buffer, q.n)
  {
    if !Acceptable(q.buffer, q.n) || !Acquire(c, s).present then Refused
    else if Fits(c, Acquire(c, s).state.block, q.n) then Stored(EntryFor(c, q.level, q.buffer.value[..q.n], q.timeStamp))
    else Discarded(q.n)
  }

  /** The state after a single-threaded sequence of writes, and what became of each. */
  datatype Run = Run(state: LoggerState, outcomes: seq<Outcome>)

  function WriteRun(c: Config, s: LoggerState, reqs: seq<Request>): (r: Run)
    requires ValidConfig(c) && AllReadable(reqs)
    ensures |r.outcomes| == |reqs|
    decreases |reqs|
  {
    if reqs == [] then Run(s, [])
    else
      var q := reqs[0];
      var rest := WriteRun(c, MemoryWrite(c, s, q.level, q.buffer, q.n, q.timeStamp).state, reqs[1..]);
      Run(rest.state, [Classify(c, s, q)] + rest.outcomes)
  }

  /** The entries an outcome adds to the log. */
  function Kept(o: Outcome): seq<MessageEntry>
  {
    if o.Stored? then [o.entry] else []
  }

  /** The bytes an outcome adds to DiscardedSize. */
  function Dropped(o: Outcome): nat
  {
    if o.Discarded? then o.length else 0
  }

  function StoredEntries(outs: seq<Outcome>): seq<MessageEntry>
  {
    if outs == [] then [] else Kept(outs[0]) + StoredEntries(outs[1..])
  }

  function DiscardedBytes(outs: seq<Outcome>): nat
  {
    if outs == [] then 0 else Dropped(outs[0]) + DiscardedBytes(outs[1..])
  }

  /** One write to a logger in use, whatever its payload region holds: the logger stays in
      use, LogBuffer is kept, DiscardedSize grows by the discarded length and the request is
      refused exactly for a bad length or buffer. */
  lemma LiveStep(c: Config, s: LoggerState, q: Request)
    requires Live(c, s) && Readable(q.buffer, q.n)
    ensures var t := MemoryWrite(c, s, q.level, q.buffer, q.n, q.timeStamp).state;
      var o := Classify(c, s, q);
      && Live(c, t)
      && t.block.LogBuffer == s.block.LogBuffer
      && t.block.DiscardedSize == (s.block.DiscardedSize + Dropped(o)) % TWO32
      && (o.Refused? <==> !Acceptable(q.buffer, q.n))
  {
    WriteKeepsLive(c, s, q.level, q.buffer, q.n, q.timeStamp);
    if Acceptable(q.buffer, q.n) {
      LiveWriteIsAppend(c, s, q.level, q.buffer, q.n, q.timeStamp);
      AppendDiscards(c, s, q.level, q.buffer.value[..q.n], q.timeStamp);
    }
  }

  /** One write to a logger in use whose log can be read back: the log grows by the
      stored entry, and by nothing when the entry is discarded or the request refused. */
  lemma WriteStep(c: Config, s: LoggerState, q: Request)
    requires Live(c, s) && Log(c, s).Some? && Readable(q.buffer, q.n)
    ensures var t := MemoryWrite(c, s, q.level, q.buffer, q.n, q.timeStamp).state;
      Log(c, t) == Some(Log(c, s).value + Kept(Classify(c, s, q)))
  {
    if Acceptable(q.buffer, q.n) {
      AcceptedStep(c, s, q, MemoryWrite(c, s, q.level, q.buffer, q.n, q.timeStamp).state, Classify(c, s, q));
    } else {
      assert Log(c, s).value + [] == Log(c, s).value;
    }
  }

  lemma AcceptedStep(c: Config, s: LoggerState, q: Request, t: LoggerState, o: Outcome)
    requires Live(c, s) && Log(c, s).Some? && Readable(q.buffer, q.n) && Acceptable(q.buffer, q.n)
    requires t == MemoryWrite(c, s, q.level, q.buffer, q.n, q.timeStamp).state
    requires o == Classify(c, s, q)
    ensures Log(c, t) == Some(Log(c, s).value + Kept(o))
  {
    LiveWriteIsAppend(c, s, q.level, q.buffer, q.n, q.timeStamp);
    AppendStep(c, s, q.level, q.buffer.value[..q.n], q.timeStamp, t, o);
  }

  /** The reserve-or-discard step grows the log by exactly the entry its outcome keeps. */
  lemma AppendStep(c: Config, s: LoggerState, level: uint64, text: seq<uint8>, timeStamp: uint64,
                   t: LoggerState, o: Outcome)
    requires EntryLayoutOk(c) && 0 < |text| <= MAX_UINT16
    requires CursorInBounds(s.block) && s.block.LogBuffer + s.block.LogBufferSize < TWO64
    requires Log(c, s).Some?
    requires t == Append(c, s, level, text, timeStamp)
    requires o == if Fits(c, s.block, |text|) then Stored(EntryFor(c, level, text, timeStamp)) else Discarded(|text|)
    ensures Log(c, t) == Some(Log(c, s).value + Kept(o))
  {
    AppendExtendsLog(c, s, level, text, timeStamp);
    if !Fits(c, s.block, |text|) {
      assert Log(c, s).value + [] == Log(c, s).value;
    }
  }

  /** DiscardedSize grows by the message length, modulo 2^32, exactly when the entry does not fit. */
  lemma AppendDiscards(c: Config, s: LoggerState, level: uint64, text: seq<uint8>, timeStamp: uint64)
    requires EntryLayoutOk(c) && 0 < |text| <= MAX_UINT16
    ensures Append(c, s, level, text, timeStamp).block.DiscardedSize ==
              (s.block.DiscardedSize + if Fits(c, s.block, |text|) then 0 else |text|) % TWO32
  {
    assert |text| % TWO32 == |text|;
  }

  /** Over a single-threaded sequence of writes to a logger in use, the log grows by
      exactly the stored entries, in order. */
  lemma {:induction false} RunLog(c: Config, s: LoggerState, reqs: seq<Request>)
    requires Live(c, s) && Log(c, s).Some? && AllReadable(reqs)
    ensures var r := WriteRun(c, s, reqs);
      Log(c, r.state) == Some(Log(c, s).value + StoredEntries(r.outcomes))
    decreases |reqs|
  {
    if reqs == [] {
      assert Log(c, s).value + [] == Log(c, s).value;
    } else {
      var t, o := RunStep(c, s, reqs);
      RunLog(c, t, reqs[1..]);
      var rest := WriteRun(c, t, reqs[1..]);
      LogCompose(Log(c, s).value, o, Log(c, t), Log(c, rest.state), rest.outcomes);
    }
  }

  /** Two consecutive extensions of a log are one extension by both. */
  lemma LogCompose(before: seq<MessageEntry>, o: Outcome, mid: Option<seq<MessageEntry>>,
                   last: Option<seq<MessageEntry>>, rest: seq<Outcome>)
    requires mid == Some(before + Kept(o)) && last == Some(mid.value + StoredEntries(rest))
    ensures last == Some(before + StoredEntries([o] + rest))
  {
    StoredEntriesCons(o, rest);
    assert before + Kept(o) + StoredEntries(rest) == before + (Kept(o) + StoredEntries(rest));
  }

  /** The first write of a run on a logger in use, as LiveStep describes it, and the run
      of the rest from the state it leaves. */
  lemma LiveRunStep(c: Config, s: LoggerState, reqs: seq<Request>) returns (t: LoggerState, o: Outcome)
    requires Live(c, s) && AllReadable(reqs) && reqs != []
    ensures AllReadable(reqs[1..])
    ensures WriteRun(c, s, reqs) == Run(WriteRun(c, t, reqs[1..]).state, [o] + WriteRun(c, t, reqs[1..]).outcomes)
    ensures Live(c, t)
    ensures t.block.DiscardedSize == (s.block.DiscardedSize + Dropped(o)) % TWO32
    ensures o.Refused? <==> !Acceptable(reqs[0].buffer, reqs[0].n)
  {
    var q := reqs[0];
    t := MemoryWrite(c, s, q.level, q.buffer, q.n, q.timeStamp).state;
    o := Classify(c, s, q);
    LiveStep(c, s, q);
    TailReadable(reqs);
  }

  /** The same first write when the log can be read back: the log grows by its entry. */
  lemma RunStep(c: Config, s: LoggerState, reqs: seq<Request>) returns (t: LoggerState, o: Outcome)
    requires Live(c, s) && Log(c, s).Some? && AllReadable(reqs) && reqs != []
    ensures AllReadable(reqs[1..])
    ensures WriteRun(c, s, reqs) == Run(WriteRun(c, t, reqs[1..]).state, [o] + WriteRun(c, t, reqs[1..]).outcomes)
    ensures Live(c, t) && Log(c, t) == Some(Log(c, s).value + Kept(o))
  {
    var q := reqs[0];
    t := MemoryWrite(c, s, q.level, q.buffer, q.n, q.timeStamp).state;
    o := Classify(c, s, q);
    LiveStep(c, s, q);
    WriteStep(c, s, q);
    TailReadable(reqs);
  }

  lemma StoredEntriesCons(o: Outcome, outs: seq<Outcome>)
    ensures StoredEntries([o] + outs) == Kept(o) + StoredEntries(outs)
  {
    assert ([o] + outs)[1..] == outs;
  }

  /** Over a single-threaded sequence of writes, a logger in use stays in use: no write
      ever trips the fail-closed latch. */
  lemma {:induction false} RunStaysLive(c: Config, s: LoggerState, reqs: seq<Request>)
    requires Live(c, s) && AllReadable(reqs)
    ensures Live(c, WriteRun(c, s, reqs).state)
    decreases |reqs|
  {
    if reqs != [] {
      var t, o := LiveRunStep(c, s, reqs);
      RunStaysLive(c, t, reqs[1..]);
    }
  }

  /** DiscardedSize after each discarded length of `outs` is added in turn, wrapping at 2^32
      as every single addition does. */
  function AddDiscards(ds: uint32, outs: seq<Outcome>): uint32
    decreases |outs|
  {
    if outs == [] then ds else AddDiscards((ds + Dropped(outs[0])) % TWO32, outs[1..])
  }

  lemma AddDiscardsCons(ds: uint32, o: Outcome, outs: seq<Outcome>)
    ensures AddDiscards(ds, [o] + outs) == AddDiscards((ds + Dropped(o)) % TWO32, outs)
  {
    assert ([o] + outs)[1..] == outs;
  }

  /** Wrapping at every addition is the same as wrapping the total once. */
  lemma {:induction false} AddDiscardsSum(ds: uint32, outs: seq<Outcome>)
    ensures AddDiscards(ds, outs) == (ds + DiscardedBytes(outs)) % TWO32
    decreases |outs|
  {
    if outs != [] {
      var mid := (ds + Dropped(outs[0])) % TWO32;
      AddDiscardsSum(mid, outs[1..]);
      ModAddTwice(ds, Dropped(outs[0]), DiscardedBytes(outs[1..]), TWO32, mid, AddDiscards(ds, outs));
    }
  }

  /** Over a single-threaded sequence of writes to a logger in use, DiscardedSize grows by
      the length of each discarded message in turn, with 32-bit wrap-around. */
  lemma {:induction false} RunDiscarded(c: Config, s: LoggerState, reqs: seq<Request>)
    requires Live(c, s) && AllReadable(reqs)
    ensures var r := WriteRun(c, s, reqs);
      r.state.block.DiscardedSize == AddDiscards(s.block.DiscardedSize, r.outcomes)
    decreases |reqs|
  {
    if reqs == [] {
      assert WriteRun(c, s, reqs) == Run(s, []);
    } else {
      var t, o := LiveRunStep(c, s, reqs);
      RunDiscarded(c, t, reqs[1..]);
      AddDiscardsCons(s.block.DiscardedSize, o, WriteRun(c, t, reqs[1..]).outcomes);
    }
  }

  lemma TailReadable(reqs: seq<Request>)
    requires AllReadable(reqs) && reqs != []
    ensures AllReadable(reqs[1..])
  {
    forall i | 0 <= i < |reqs[1..]|
      ensures Readable(reqs[1..][i].buffer, reqs[1..][i].n)
    {
      assert reqs[1..][i] == reqs[i + 1];
    }
  }

  /** Over a single-threaded sequence of writes to a logger in use, a request is refused
      exactly when its length or buffer is bad. */
  lemma {:induction false} RunRefusesOnlyBadLengths(c: Config, s: LoggerState, reqs: seq<Request>)
    requires Live(c, s) && AllReadable(reqs)
    ensures var r := WriteRun(c, s, reqs);
      forall i :: 0 <= i < |reqs| ==> (r.outcomes[i].Refused? <==> !Acceptable(reqs[i].buffer, reqs[i].n))
    decreases |reqs|
  {
    if reqs != [] {
      var t, o := LiveRunStep(c, s, reqs);
      RunRefusesOnlyBadLengths(c, t, reqs[1..]);
      var rest := WriteRun(c, t, reqs[1..]);
      forall i | 0 < i < |reqs|
        ensures ([o] + rest.outcomes)[i].Refused? <==> !Acceptable(reqs[i].buffer, reqs[i].n)
      {
        assert ([o] + rest.outcomes)[i] == rest.outcomes[i - 1];
        assert reqs[i] == reqs[1..][i - 1];
      }
    }
  }

  /** A freshly initialised logger holds an empty log, no discarded bytes, and is in use. */
  lemma FreshLoggerIsEmpty(c: Config, s: LoggerState)
    requires ValidConfig(c) && s.globals == InitialGlobals
    requires c.base != 0 && c.size >= ADV_LOGGER_MIN_SIZE
    ensures var t := Acquire(c, s).state;
      && Live(c, t)
      && Log(c, t) == Some([])
      && t.block.LogCurrent == t.block.LogBuffer
      && t.block.DiscardedSize == 0
  {
    AcquiredBlockInRegion(c, s);
  }

  /** From a freshly initialised logger, any single-threaded sequence of writes leaves
      LogCurrent - LogBuffer equal to the total EntrySize of the stored entries, DiscardedSize
      equal to the total length of the discarded messages modulo 2^32, and a log that reads
      back exactly the stored entries, in order. */
  lemma FreshRun(c: Config, s: LoggerState, reqs: seq<Request>)
    requires ValidConfig(c) && s.globals == InitialGlobals
    requires c.base != 0 && c.size >= ADV_LOGGER_MIN_SIZE && AllReadable(reqs)
    ensures var r := WriteRun(c, Acquire(c, s).state, reqs);
      && Log(c, r.state) == Some(StoredEntries(r.outcomes))
      && r.state.block.LogCurrent - r.state.block.LogBuffer == SumSizes(c, StoredEntries(r.outcomes))
      && r.state.block.DiscardedSize == DiscardedBytes(r.outcomes) % TWO32
  {
    var t := Acquire(c, s).state;
    FreshLoggerIsEmpty(c, s);
    RunLog(c, t, reqs);
    RunDiscarded(c, t, reqs);
    var r := WriteRun(c, t, reqs);
    AddDiscardsSum(0, r.outcomes);
    assert [] + StoredEntries(r.outcomes) == StoredEntries(r.outcomes);
    WalkSpan(c, r.state.entries, r.state.block.LogBuffer, r.state.block.LogCurrent);
  }

  /** What AdvancedLoggerWrite does: the memory write, and the bytes sent to the port. */
  datatype Fanned = Fanned(state: LoggerState, sent: seq<uint8>)

  /** AdvancedLoggerWrite over a snapshot of the state. */
  function LoggerWrite(c: Config, s: LoggerState, level: uint64, buffer: Option<seq<uint8>>,
                       n: uint64, timeStamp: uint64): (r: Fanned)
    requires ValidConfig(c) && Readable(buffer, n)
    ensures r.state == MemoryWrite(c, s, level, buffer, n, timeStamp).state
  {
    var w := MemoryWrite(c, s, level, buffer, n, timeStamp);
    if w.present && !w.state.block.HdwPortDisabled then Fanned(w.state, buffer.value[..n])
    else Fanned(w.state, [])
  }

  /** The message reaches the hardware port exactly when the memory write returned the
      block and HdwPortDisabled is clear, and then the port gets all of its bytes. */
  lemma PortFanOut(c: Config, s: LoggerState, level: uint64, buffer: Option<seq<uint8>>,
                   n: uint64, timeStamp: uint64)
    requires ValidConfig(c) && Readable(buffer, n)
    ensures var w := MemoryWrite(c, s, level, buffer, n, timeStamp);
      var sent := LoggerWrite(c, s, level, buffer, n, timeStamp).sent;
      && (sent != [] <==> w.present && !w.state.block.HdwPortDisabled)
      && (sent != [] ==> sent == buffer.value[..n])
  {
  }

  /** Whether the port gets the message depends only on the validated block's
      HdwPortDisabled, not on whether the entry was stored or discarded. */
  lemma PortIndependentOfStorage(c: Config, s: LoggerState, level: uint64, buffer: Option<seq<uint8>>,
                                 n: uint64, timeStamp: uint64)
    requires ValidConfig(c) && Readable(buffer, n) && Acceptable(buffer, n) && Acquire(c, s).present
    ensures LoggerWrite(c, s, level, buffer, n, timeStamp).sent ==
              if Acquire(c, s).state.block.HdwPortDisabled then [] else buffer.value[..n]
  {
  }

  /** The discard path of AdvancedLoggerMemoryLoggerWrite: adds the message length to
      DiscardedSize with a compare-exchange loop. */
  method AddDiscarded(lg: Logger, n: uint16)
    modifies lg.info
    ensures lg.State() == old(lg.State()).(block := old(lg.State()).block.(
              DiscardedSize := (old(lg.info.DiscardedSize) + n % TWO32) % TWO32))
  {
    var info := lg.info;
    var settled := false;
    while !settled
      invariant info.Entries == old(info.Entries)
      invariant info.Block() == if settled then old(info.Block()).(DiscardedSize := (old(info.DiscardedSize) + n % TWO32) % TWO32)
                                else old(info.Block())
      decreases if settled then 0 else 1
    {
      var currentSize := info.DiscardedSize;
      var newSize := (currentSize + n % TWO32) % TWO32;
      var oldSize := info.CompareExchangeDiscardedSize(currentSize, newSize);
      settled := oldSize == currentSize;
    }
  }

  /** The body of AdvancedLoggerMemoryLoggerWrite once the block is acquired: reserves an
      entry with a compare-exchange loop on LogCurrent and fills it, or takes the discard path. */
  method ReserveOrDiscard(lg: Logger, level: uint64, text: seq<uint8>, timeStamp: uint64)
    requires EntryLayoutOk(lg.cfg) && 0 < |text| <= MAX_UINT16
    modifies lg.info
    ensures lg.State() == Append(lg.cfg, old(lg.State()), level, text, timeStamp)
  {
    var info := lg.info;
    var n: uint16 := |text|;
    var entrySize := EntrySize(lg.cfg, n);
    var current: uint64 := info.LogCurrent;
    var done := false;
    while !done
      invariant info.Entries == old(info.Entries)
      invariant !done ==> info.Block() == old(info.Block())
      invariant done ==> && Fits(lg.cfg, old(info.Block()), n) && current == old(info.LogCurrent)
                         && info.Block() == old(info.Block()).(LogCurrent := (current + entrySize) % TWO64)
      decreases if done then 0 else 1
    {
      current := info.LogCurrent;
      var used := (current - info.LogBuffer) % TWO64;
      if used >= info.LogBufferSize || info.LogBufferSize - used < entrySize {
        AddDiscarded(lg, n);
        return;
      }
      var newBuffer := (current + entrySize) % TWO64;
      var oldValue := info.CompareExchangeLogCurrent(current, newBuffer);
      done := oldValue == current;
    }
    info.StoreEntry(lg.cfg, current, EntryFor(lg.cfg, level, text, timeStamp));
  }

  /** AdvancedLoggerMemoryLoggerWrite: rejects bad lengths, acquires the block, then
      reserves and fills an entry or counts the message as discarded. Each compare-exchange
      succeeds on its first attempt in this single-threaded model. */
  method MemoryLoggerWrite(lg: Logger, level: uint64, buffer: Option<seq<uint8>>, n: uint64, timeStamp: uint64)
    returns (r: LoggerInfo?)
    requires lg.Valid() && Readable(buffer, n)
    modifies lg, lg.info
    ensures lg.Valid() && lg.hdwOut == old(lg.hdwOut)
    ensures lg.State() == MemoryWrite(lg.cfg, old(lg.State()), level, buffer, n, timeStamp).state
    ensures (r != null) == MemoryWrite(lg.cfg, old(lg.State()), level, buffer, n, timeStamp).present
    ensures r != null ==> r == lg.info
  {
    if n == 0 || buffer.None? {
      return null;
    }
    if n > MAX_UINT16 {
      return null;
    }
    r := lg.GetLoggerInfo();
    if r != null {
      ReserveOrDiscard(lg, level, buffer.value[..n], timeStamp);
    }
  }

  /** AdvancedLoggerWrite: every message goes to the memory log; it also goes to the
      hardware port when the memory write returned the block and the port is not disabled. */
  method Write(lg: Logger, level: uint64, buffer: Option<seq<uint8>>, n: uint64, timeStamp: uint64)
    requires lg.Valid() && Readable(buffer, n)
    modifies lg, lg.info
    ensures lg.Valid()
    ensures lg.State() == LoggerWrite(lg.cfg, old(lg.State()), level, buffer, n, timeStamp).state
    ensures lg.hdwOut == old(lg.hdwOut) + LoggerWrite(lg.cfg, old(lg.State()), level, buffer, n, timeStamp).sent
  {
    var info := MemoryLoggerWrite(lg, level, buffer, n, timeStamp);
    if info != null && !info.HdwPortDisabled {
      var count, emitted := HdwPortWrite(level, buffer.value, n);
      lg.hdwOut := lg.hdwOut + emitted;
    }
  }
}
