/** The O-RU downlink write path: parallel readers number and time-stamp symbols, one writer
    coalesces completed symbols into calls that stay inside a slot. */
module DownlinkWriter {
  import opened Arithmetic
  import opened SymbolTime
  import opened SampleGrid
  import opened SlotGrid

  ghost predicate Fits(p: Parms) {
    Ok(p) && p.SlotsPerFrame() > 0
  }

  /** The sample at which absolute symbol `a` starts, by division and remainder. */
  function TimeOf(p: Parms, startTs: int, a: nat): int
    requires p.mu != 0 ==> p.Half() > 0
    requires p.SlotsPerFrame() > 0
  {
    var slot := SlotOf(a, p.SlotsPerFrame());
    startTs + FrameOf(a, p.SlotsPerFrame()) * p.Frame() + SlotTimestamp(p, slot) + SymbolTimestamp(p, slot, SymbolOf(a))
  }

  // ------------------------------------------------------------------ readers and writer agree

  /** What a reader computes for a symbol of hyper-frame `hyper`. */
  function ReaderSymbol(p: Parms, hyper: nat, startHyper: nat, frame: nat, slot: nat, symbol: nat): nat
    requires startHyper <= hyper
  {
    ((hyper - startHyper) * FRAMES + frame) * (p.SlotsPerFrame() * SYMBOLS) + slot * SYMBOLS + symbol
  }

  function ReaderTime(p: Parms, startTs: int, hyper: nat, startHyper: nat, frame: nat, slot: nat, symbol: nat): int
    requires startHyper <= hyper && symbol <= SYMBOLS && (p.mu != 0 ==> p.Half() > 0)
  {
    startTs + ((hyper - startHyper) * FRAMES + frame) * p.Frame()
    + SlotTimestamp(p, slot) + SymbolTimestamp(p, slot, symbol)
  }

  /** For every hyper-frame, frame, slot and symbol, the writer recovers from the reader's symbol
      number the same frame, slot, symbol and timestamp. */
  lemma ReaderWriterAgree(p: Parms, startTs: int, hyper: nat, startHyper: nat, frame: nat, slot: nat, symbol: nat)
    requires Fits(p) && startHyper <= hyper && InFrame(frame, slot, symbol, p.SlotsPerFrame())
    ensures var a := ReaderSymbol(p, hyper, startHyper, frame, slot, symbol);
            && FrameOf(a, p.SlotsPerFrame()) % FRAMES == frame
            && SlotOf(a, p.SlotsPerFrame()) == slot && SymbolOf(a) == symbol
            && TimeOf(p, startTs, a) == ReaderTime(p, startTs, hyper, startHyper, frame, slot, symbol)
  {
    var frames := (hyper - startHyper) * FRAMES + frame;
    MulAssociates(frames, p.SlotsPerFrame(), SYMBOLS);
    DecodeInvertsEncode(frames, slot, symbol, p.SlotsPerFrame());
    DivModUnique(hyper - startHyper, FRAMES, frame);
  }

  const WORD := 0x1_0000_0000

  /** The anchor as the first reader publishes it; the subtracted sample count is a 32-bit product
      and sum. */
  function AnchorStart(p: Parms, anchorTs: int, startFrame: nat, startSlot: nat): int
    requires p.mu != 0 ==> p.Half() > 0
  {
    anchorTs - (startFrame * p.Frame() + SlotTimestamp(p, startSlot)) % WORD
  }

  /** The published start index maps back to the anchor timestamp exactly when the sample count
      before the anchor fits in 32 bits. */
  lemma AnchorMapsBack(p: Parms, anchorTs: int, startFrame: nat, startSlot: nat)
    requires Fits(p) && startSlot < p.SlotsPerFrame()
    ensures TimeOf(p, AnchorStart(p, anchorTs, startFrame, startSlot),
                   AbsSymbol(startFrame, startSlot, 0, p.SlotsPerFrame())) == anchorTs
       <==> startFrame * p.Frame() + SlotTimestamp(p, startSlot) < WORD
  {
    DecodeInvertsEncode(startFrame, startSlot, 0, p.SlotsPerFrame());
    SlotsIncrease(p, 0, startSlot);
    MulMonotone(0, startFrame, p.Frame());
    var x := startFrame * p.Frame() + SlotTimestamp(p, startSlot);
    FitsExactly(x);
  }

  lemma FitsExactly(x: nat)
    ensures x % WORD == x <==> x < WORD
  {
  }

  /** The 32-bit count does overflow for a 491.52 MHz carrier anchored late in the hyper-frame. */
  lemma AnchorCanOverflow()
    ensures var p := Parms(3, 4096, 288, 544);
            Fits(p) && 1000 * p.Frame() >= WORD
  {
    var p := Parms(3, 4096, 288, 544);
    assert Pow2(1) == 2 && Pow2(2) == 4 && Pow2(3) == 8;
    AlwaysOk(p);
  }

  // ------------------------------------------------------------------ symbol times tile the sample axis

  lemma SymbolCounts(a: nat, spf: nat)
    requires spf > 0
    ensures a == (FrameOf(a, spf) * spf + SlotOf(a, spf)) * SYMBOLS + SymbolOf(a)
    ensures SlotOf(a, spf) < spf && SymbolOf(a) < SYMBOLS
  {
    var q, within := Divide(a, spf * SYMBOLS);
    var slot, symbol := Divide(within, SYMBOLS);
    QuotientBelow(within, slot, symbol, spf, SYMBOLS);
    MulAssociates(q, spf, SYMBOLS);
    MulDistributes(q * spf, slot, SYMBOLS);
    DivModUnique(q * spf + slot, SYMBOLS, symbol);
  }

  lemma TimestampIsSum(p: Parms, slot: nat, symbol: nat)
    requires Ok(p) && symbol <= SYMBOLS
    ensures SymbolTimestamp(p, slot, symbol) == SymbolSum(p, slot, 0, symbol)
  {
    if symbol > 0 {
      DurationIsSum(p, slot, 0, symbol);
    }
  }

  /** Within a slot, symbol offsets advance by durations, up to the slot's length. */
  lemma OffsetsAdvance(p: Parms, slot: nat, symbol: nat, count: nat)
    requires Ok(p) && 1 <= count && symbol + count <= SYMBOLS
    ensures SymbolDuration(p, slot, symbol, count) > 0
    ensures SymbolTimestamp(p, slot, symbol) + SymbolDuration(p, slot, symbol, count)
         == if symbol + count < SYMBOLS then SymbolTimestamp(p, slot, symbol + count) else SamplesPerSlot(p, slot)
  {
    DurationIsSum(p, slot, symbol, count);
    SumOfSymbols(p, slot, symbol, count);
    MulMonotone(1, count, p.Normal());
    SumSplits(p, slot, 0, symbol, count);
    TimestampIsSum(p, slot, symbol);
    TimestampIsSum(p, slot, symbol + count);
    SlotIsSum(p, slot);
  }

  lemma RunInsideSlot(p: Parms, startTs: int, frame: nat, slot: nat, symbol: nat, count: nat)
    requires Fits(p) && 1 <= count && symbol + count < SYMBOLS && slot < p.SlotsPerFrame()
    ensures var a := AbsSymbol(frame, slot, symbol, p.SlotsPerFrame());
            TimeOf(p, startTs, a + count) == TimeOf(p, startTs, a) + SymbolDuration(p, slot, symbol, count)
  {
    DecodeInvertsEncode(frame, slot, symbol, p.SlotsPerFrame());
    DecodeInvertsEncode(frame, slot, symbol + count, p.SlotsPerFrame());
    OffsetsAdvance(p, slot, symbol, count);
  }

  lemma RunToSlotEnd(p: Parms, startTs: int, frame: nat, slot: nat, symbol: nat, count: nat)
    requires Fits(p) && 1 <= count && symbol + count == SYMBOLS && slot < p.SlotsPerFrame()
    ensures var a := AbsSymbol(frame, slot, symbol, p.SlotsPerFrame());
            TimeOf(p, startTs, a + count) == TimeOf(p, startTs, a) + SymbolDuration(p, slot, symbol, count)
  {
    var a := AbsSymbol(frame, slot, symbol, p.SlotsPerFrame());
    DecodeInvertsEncode(frame, slot, symbol, p.SlotsPerFrame());
    OffsetsAdvance(p, slot, symbol, count);
    NextSlot(p, slot);
    SlotRollsOver(p, frame, slot, a + count);
  }

  /** The symbol after `count` symbols of one slot starts where they end. */
  lemma RunEndsAt(p: Parms, startTs: int, a: nat, count: nat)
    requires Fits(p) && 1 <= count <= SYMBOLS - SymbolOf(a)
    ensures TimeOf(p, startTs, a + count)
         == TimeOf(p, startTs, a) + SymbolDuration(p, SlotOf(a, p.SlotsPerFrame()), SymbolOf(a), count)
    ensures SymbolDuration(p, SlotOf(a, p.SlotsPerFrame()), SymbolOf(a), count) > 0
  {
    var spf := p.SlotsPerFrame();
    var frame, slot, symbol := FrameOf(a, spf), SlotOf(a, spf), SymbolOf(a);
    SymbolCounts(a, spf);
    assert a == AbsSymbol(frame, slot, symbol, spf);
    OffsetsAdvance(p, slot, symbol, count);
    if symbol + count < SYMBOLS {
      RunInsideSlot(p, startTs, frame, slot, symbol, count);
    } else {
      RunToSlotEnd(p, startTs, frame, slot, symbol, count);
    }
  }

  lemma SlotRollsOver(p: Parms, frame: nat, slot: nat, a: nat)
    requires Fits(p) && slot < p.SlotsPerFrame()
    requires a == (frame * p.SlotsPerFrame() + slot) * SYMBOLS + SYMBOLS
    ensures SymbolOf(a) == 0
    ensures FrameOf(a, p.SlotsPerFrame()) * p.Frame() + SlotTimestamp(p, SlotOf(a, p.SlotsPerFrame()))
         == frame * p.Frame() + SlotTimestamp(p, slot + 1)
  {
    var spf := p.SlotsPerFrame();
    if slot + 1 < spf {
      DecodeInvertsEncode(frame, slot + 1, 0, spf);
    } else {
      TotalsAddUp(p);
      MulDistributes(frame, 1, spf);
      MulDistributes(frame, 1, p.Frame());
      DecodeInvertsEncode(frame + 1, 0, 0, spf);
    }
  }

  // ------------------------------------------------------------------ the writer

  /** One call to the radio; `first` is the absolute symbol it starts at. */
  datatype Call = Call(first: nat, frame: nat, slot: nat, symbol: nat, count: nat, timestamp: int)

  ghost predicate CallOk(p: Parms, startTs: int, c: Call)
    requires Fits(p)
  {
    && c.frame == FrameOf(c.first, p.SlotsPerFrame()) % FRAMES
    && c.slot == SlotOf(c.first, p.SlotsPerFrame())
    && c.symbol == SymbolOf(c.first)
    && 1 <= c.count <= SYMBOLS - c.symbol
    && c.timestamp == TimeOf(p, startTs, c.first) >= 0
  }

  /** The calls cover the symbols from `first` up to `end` once each, in order. */
  ghost predicate Tiled(p: Parms, startTs: int, calls: seq<Call>, first: nat, end: nat)
    requires Fits(p)
  {
    if calls == [] then first == end
    else
      var last := calls[|calls| - 1];
      CallOk(p, startTs, last) && last.first + last.count == end
      && Tiled(p, startTs, calls[..|calls| - 1], first, last.first)
  }

  /** Consecutive calls are contiguous in samples as well: each timestamp is the previous one plus
      the duration of the previous call's symbols. */
  lemma {:induction false} CallsAreContiguous(p: Parms, startTs: int, calls: seq<Call>, first: nat, end: nat, i: nat)
    requires Fits(p) && Tiled(p, startTs, calls, first, end) && i + 1 < |calls|
    ensures 1 <= calls[i].count && calls[i].symbol + calls[i].count <= SYMBOLS
    ensures calls[i + 1].first == calls[i].first + calls[i].count
    ensures calls[i + 1].timestamp
         == calls[i].timestamp + SymbolDuration(p, calls[i].slot, calls[i].symbol, calls[i].count)
  {
    var n := |calls| - 1;
    if i + 1 < n {
      CallsAreContiguous(p, startTs, calls[..n], first, calls[n].first, i);
    } else {
      assert calls[..n][i] == calls[i];
      RunEndsAt(p, startTs, calls[i].first, calls[i].count);
    }
  }

  /** The writer's position: what it has skipped, what it has sent, what comes next. */
  ghost predicate Written(p: Parms, startTs: int, start: nat, first: nat, calls: seq<Call>, next: nat)
    requires Fits(p)
  {
    && start <= first <= next
    && Tiled(p, startTs, calls, first, next)
    && (forall a :: start <= a < first ==> TimeOf(p, startTs, a) < 0)
    && (calls != [] ==> TimeOf(p, startTs, next) >= 0)
  }

  /** A call stops only at the end of its slot or at the high-water mark. */
  predicate Coalesced(c: Call, latest: nat) {
    c.symbol + c.count == SYMBOLS || c.first + c.count == latest + 1
  }

  /** Send everything up to the high-water mark `latest`. */
  method Flush(p: Parms, startTs: int, start: nat, latest: nat, calls: seq<Call>, next: nat, ghost first: nat)
    returns (calls': seq<Call>, next': nat, ghost first': nat)
    requires Fits(p) && Written(p, startTs, start, first, calls, next)
    ensures Written(p, startTs, start, first', calls', next')
    ensures next' == if latest < next then next else latest + 1
    ensures calls <= calls' && (calls != [] ==> first' == first)
    ensures forall i :: |calls| <= i < |calls'| ==> Coalesced(calls'[i], latest)
  {
    calls', next', first' := calls, next, first;
    while next' <= latest
      invariant next <= next' && (latest + 1 < next' ==> next' == next)
      invariant Written(p, startTs, start, first', calls', next')
      invariant calls <= calls' && (calls != [] ==> first' == first)
      invariant forall i :: |calls| <= i < |calls'| ==> Coalesced(calls'[i], latest)
      decreases latest + 1 - next'
    {
      calls', next', first' := WriteNext(p, startTs, start, latest, calls', next', first');
    }
  }

  /** Skip one symbol before time zero, or send one call. */
  method WriteNext(p: Parms, startTs: int, start: nat, latest: nat, calls: seq<Call>, next: nat, ghost first: nat)
    returns (calls': seq<Call>, next': nat, ghost first': nat)
    requires Fits(p) && Written(p, startTs, start, first, calls, next) && next <= latest
    ensures Written(p, startTs, start, first', calls', next') && next < next' <= latest + 1
    ensures calls' == calls || (|calls'| == |calls| + 1 && calls <= calls' && Coalesced(calls'[|calls|], latest))
    ensures calls != [] ==> first' == first
  {
    if TimeOf(p, startTs, next) < 0 {
      calls', next', first' := calls, next + 1, next + 1;
    } else {
      var c := NextCall(p, startTs, next, latest);
      calls' := Append(p, startTs, calls, c, first);
      next', first' := next + c.count, first;
    }
  }

  /** The call for the next symbols of one slot. */
  method NextCall(p: Parms, startTs: int, next: nat, latest: nat) returns (c: Call)
    requires Fits(p) && TimeOf(p, startTs, next) >= 0 && next <= latest
    ensures CallOk(p, startTs, c) && Coalesced(c, latest) && c.first == next && next + c.count <= latest + 1
    ensures TimeOf(p, startTs, next + c.count) >= 0
  {
    var spf := p.SlotsPerFrame();
    var symbol := SymbolOf(next);
    var remaining, inSlot := latest - next + 1, SYMBOLS - symbol;
    var count := if remaining < inSlot then remaining else inSlot;
    RunEndsAt(p, startTs, next, count);
    c := Call(next, FrameOf(next, spf) % FRAMES, SlotOf(next, spf), symbol, count, TimeOf(p, startTs, next));
  }

  method Append(p: Parms, startTs: int, calls: seq<Call>, c: Call, ghost first: nat) returns (calls': seq<Call>)
    requires Fits(p) && Tiled(p, startTs, calls, first, c.first) && CallOk(p, startTs, c)
    ensures calls' == calls + [c] && Tiled(p, startTs, calls', first, c.first + c.count)
  {
    calls' := calls + [c];
    assert calls'[..|calls|] == calls;
  }

  /** The highest of the marks, or the symbol before `next`. */
  function Highest(marks: seq<nat>, next: nat): nat {
    if marks == [] then next
    else
      var h := Highest(marks[..|marks| - 1], next);
      if marks[|marks| - 1] < h then h else marks[|marks| - 1] + 1
  }

  /** A call stops only at the end of its slot or at one of the marks. */
  predicate StopsAtMark(c: Call, marks: seq<nat>) {
    exists k :: 0 <= k < |marks| && Coalesced(c, marks[k])
  }

  /** For every sequence of high-water marks: the calls tile the symbols from the first one with a
      non-negative timestamp up to the highest mark, each as long as its slot and the mark it was sent
      for allow, and what is skipped before them is exactly the prefix with negative timestamps. */
  method SouthWrite(p: Parms, startTs: int, start: nat, marks: seq<nat>)
    returns (calls: seq<Call>, next: nat, ghost first: nat)
    requires p.Valid() && Fits(p)
    ensures Written(p, startTs, start, first, calls, next)
    ensures next == Highest(marks, start)
    ensures forall n :: 0 <= n < |calls| ==> StopsAtMark(calls[n], marks)
  {
    calls, next, first := [], start, start;
    var i := 0;
    while i < |marks|
      invariant 0 <= i <= |marks|
      invariant Written(p, startTs, start, first, calls, next)
      invariant next == Highest(marks[..i], start)
      invariant forall n :: 0 <= n < |calls| ==> StopsAtMark(calls[n], marks)
    {
      calls, next, first := Flush(p, startTs, start, marks[i], calls, next, first);
      assert marks[..i + 1][..i] == marks[..i];
      i := i + 1;
    }
    assert marks[..i] == marks;
  }
}
