/** The NR radio unit's receive timebase: slot reads with drift absorption, frame and slot recovery and
    the first alignment to a slot boundary, with the transmit slot prepared in each turn. */
module NrTimebase {
  import opened Arithmetic
  import opened SymbolTime
  import opened SampleGrid
  import opened SlotGrid
  import LookAhead

  /** The length of the slot before `slot`, computed as the code does: the index of the slot before
      slot 0 is -1, and the remainder of -1 keeps its sign. */
  function PreviousSamples(p: Parms, slot: nat): int
    requires p.mu != 0 ==> p.Half() > 0
  {
    if slot > 0 then SamplesPerSlot(p, slot - 1)
    else if p.mu == 0 then p.Subframe()
    else
      var remainder := if p.Half() == 1 then 0 else -1;
      if remainder != 0 then p.SlotN0() else p.Slot0()
  }

  /** That is the length of the last slot of the frame, although -1 is not that slot's index. */
  lemma PreviousIsLast(p: Parms, n: nat)
    requires Ok(p) && p.SlotsPerFrame() > 0
    ensures PreviousSamples(p, (n + 1) % p.SlotsPerFrame()) == SamplesPerSlot(p, n % p.SlotsPerFrame())
  {
    var spf := p.SlotsPerFrame();
    var q, s := Divide(n, spf);
    if s + 1 < spf {
      DivModUnique(q, spf, s + 1);
    } else {
      MulDistributes(q, 1, spf);
      DivModUnique(q + 1, spf, 0);
      if p.mu != 0 {
        HalfOfSubframe(p);
        DivModUnique(19, p.Half(), p.Half() - 1);
      }
    }
  }

  /** Whether the first alignment steps from the last slot of frame 1023 into the next frame. */
  predicate RollsOver(p: Parms, ts: nat)
    requires p.Valid() && (p.mu != 0 ==> p.Half() > 0) && p.Subframe() > 1
  {
    && (ts / p.Frame()) % FRAMES == FRAMES - 1
    && SlotFromTimestamp(p, ts) == p.SlotsPerFrame() - 1
    && ts % p.Frame() != SlotTimestamp(p, p.SlotsPerFrame() - 1)
  }

  /** Where a first timestamp falls. */
  lemma FirstSlot(p: Parms, ts: nat) returns (m: nat, x: nat)
    requires Ok(p) && p.SlotsPerFrame() > 0
    ensures var spf, slot := p.SlotsPerFrame(), SlotFromTimestamp(p, ts);
            && 0 <= slot < spf && m / spf == ts / p.Frame() && m % spf == slot
            && ts % p.Frame() - SlotTimestamp(p, slot) == x
            && 0 <= SlotStart(p, m) == ts - x && SlotStart(p, m + 1) == ts - x + SamplesPerSlot(p, slot) > ts
            && (m > 0 ==> SlotStart(p, m - 1) < SlotStart(p, m))
            && (RollsOver(p, ts) <==> x > 0 && (m / spf) % FRAMES == FRAMES - 1 && slot + 1 == spf)
  {
    m, x := Locate(p, ts);
    DecodeSlot(p, m, 0);
    SlotStartNext(p, m);
    if m > 0 {
      SlotStartNext(p, m - 1);
    }
  }

  /** What skipping from slot `m` into slot `m + 1` does to the counters. */
  lemma SkippedCounts(m: nat, spf: nat, frame: nat, slot: nat)
    requires spf > 0
    requires if m % spf + 1 == spf then frame == (m / spf) % FRAMES + 1 && slot == 0
             else frame == (m / spf) % FRAMES && slot == m % spf + 1
    ensures slot == (m + 1) % spf
    ensures if (m / spf) % FRAMES == FRAMES - 1 && m % spf + 1 == spf
            then frame == FRAMES && ((m + 1) / spf) % FRAMES == 0
            else frame == ((m + 1) / spf) % FRAMES
  {
    NextSlotCounts(m, spf);
  }

  /** Whether a timestamp is the start of a slot. */
  ghost predicate Aligned(p: Parms, ts: nat)
    requires Ok(p)
  {
    var slot := SlotFromTimestamp(p, ts);
    slot >= 0 && ts % p.Frame() == SlotTimestamp(p, slot)
  }

  /** Skip to the first slot boundary at or after `ts`, counting a skipped slot. */
  method Align(p: Parms, ts: nat) returns (timestamp: int, frame: nat, slot: nat, ghost m: nat, ghost n: nat)
    requires Ok(p) && p.SlotsPerFrame() > 0
    ensures timestamp == SlotStart(p, n) && ts <= SlotStart(p, n) && (n > 0 ==> SlotStart(p, n - 1) < ts)
    ensures slot == n % p.SlotsPerFrame() < p.SlotsPerFrame()
    ensures frame == if RollsOver(p, ts) then FRAMES else (n / p.SlotsPerFrame()) % FRAMES
    ensures RollsOver(p, ts) ==> slot == 0 && (n / p.SlotsPerFrame()) % FRAMES == 0
    ensures slot == SlotFromTimestamp(p, ts) <==> timestamp == ts
    ensures m / p.SlotsPerFrame() == ts / p.Frame() && m % p.SlotsPerFrame() == SlotFromTimestamp(p, ts)
    ensures timestamp == ts <==> Aligned(p, ts)
    ensures n == if Aligned(p, ts) then m else m + 1
  {
    var spf, at := p.SlotsPerFrame(), SlotFromTimestamp(p, ts);
    ghost var x;
    m, x := FirstSlot(p, ts);
    FrameIsTen(p);
    timestamp, frame, slot := Skip(ts, (ts / p.Frame()) % FRAMES, at, ts % p.Frame() - SlotTimestamp(p, at),
                                   SamplesPerSlot(p, at), spf);
    n := m;
    if x > 0 {
      SkippedCounts(m, spf, frame, slot);
      n := m + 1;
    }
  }

  /** Skip the rest of a slot that has already begun. */
  method Skip(ts: nat, frameRx: nat, ttiRx: nat, offset: int, length: int, spf: nat)
    returns (timestamp: int, frame: nat, slot: nat)
    requires ttiRx < spf && offset < length && spf >= 10
    ensures offset > 0 ==> && timestamp == ts - offset + length
                           && (if ttiRx + 1 == spf then frame == frameRx + 1 && slot == 0
                               else frame == frameRx && slot == ttiRx + 1)
    ensures offset <= 0 ==> timestamp == ts && frame == frameRx && slot == ttiRx
  {
    timestamp, frame, slot := ts, frameRx, ttiRx;
    if offset > 0 {
      var toBoundary := length - offset;
      timestamp := timestamp + toBoundary;
      if slot + 1 >= spf {
        frame := frame + 1;
      }
      slot := (slot + 1) % spf;
    }
  }

  /** Whatever the device timestamp did, the local timestamp advances by the slot just read, and the
      offset takes the rest. */
  method Absorb(ts: int, offset: int, oldTs: int, previous: int) returns (timestamp: int, newOffset: int)
    ensures timestamp == oldTs + previous && ts == timestamp + newOffset
  {
    timestamp, newOffset := ts - offset, offset;
    if timestamp - oldTs != previous {
      newOffset := offset + (timestamp - oldTs - previous);
      timestamp := ts - newOffset;
    }
  }

  lemma AdvanceSlot(p: Parms, n: nat)
    requires Ok(p) && p.SlotsPerFrame() > 0
    ensures var start := SlotStart(p, n) + PreviousSamples(p, (n + 1) % p.SlotsPerFrame());
            && start == SlotStart(p, n + 1) >= 0
            && start / p.Frame() == (n + 1) / p.SlotsPerFrame()
            && SlotFromTimestamp(p, start) == (n + 1) % p.SlotsPerFrame()
  {
    PreviousIsLast(p, n);
    SlotStartNext(p, n);
    SlotIsSum(p, (n + 1) % p.SlotsPerFrame());
    DecodeSlot(p, n + 1, 0);
  }

  class RadioUnit {
    const p: Parms
    var timestampRx: int
    var tsOffset: int
    var frameRx: int
    var ttiRx: int
    var firstRx: bool
    var frame: nat
    var slot: nat
    var exited: bool
    var timestampTx: int
    var frameTx: nat
    var ttiTx: nat
    /** The number of the slot read last, counted from sample 0, and of the slot `frameRx` and `ttiRx`
        name, which the first alignment can leave one behind. */
    ghost var n: nat
    ghost var named: nat

    ghost predicate Valid()
      reads this
    {
      && p.Valid() && Ok(p) && p.SlotsPerFrame() > 0 && slot < p.SlotsPerFrame()
      && (firstRx ==> tsOffset == 0 && !exited)
      && (!firstRx ==>
            && timestampRx == SlotStart(p, n) && SlotStart(p, n) >= 0 && (n == named || n == named + 1)
            && ttiRx == named % p.SlotsPerFrame() && frameRx == (named / p.SlotsPerFrame()) % FRAMES)
    }

    /** The local counters name the slot that was read. */
    ghost predicate Synced()
      requires Valid()
      reads this
    {
      && !firstRx && !exited
      && frame == (n / p.SlotsPerFrame()) % FRAMES && slot == n % p.SlotsPerFrame()
    }

    constructor (p: Parms)
      requires p.Valid()
      ensures Valid() && firstRx && this.p == p && slot == p.SlotsPerFrame() - 1 && frame == FRAMES - 1
    {
      AlwaysOk(p);
      this.p := p;
      timestampRx, tsOffset, frameRx, ttiRx, firstRx, exited := 0, 0, 0, 0, true, false;
      timestampTx, frameTx, ttiTx, n, named := 0, 0, 0, 0, 0;
      slot, frame := p.SlotsPerFrame() - 1, FRAMES - 1;
    }

    /** The first read: adopt the device's frame and slot, and skip to the next slot boundary. */
    method RxFirst(ts: nat)
      requires Valid() && firstRx
      modifies this
      ensures Valid() && !firstRx && !exited && tsOffset == 0
      ensures Synced() <==> !RollsOver(p, ts)
      ensures !Synced() ==> AtRollOver()
      ensures ts <= timestampRx && (n > 0 ==> SlotStart(p, n - 1) < ts)
      ensures ttiRx == slot <==> timestampRx == ts
      ensures ttiRx == SlotFromTimestamp(p, ts) && n == if Aligned(p, ts) then named else named + 1
    {
      firstRx := false;
      frameRx := ((ts - tsOffset) / p.Frame()) % FRAMES;
      ttiRx := SlotFromTimestamp(p, ts - tsOffset);
      timestampRx, frame, slot, named, n := Align(p, ts - tsOffset);
    }

    /** A later read: absorb whatever the device timestamp drifted, then compare. */
    method RxNext(ts: int)
      requires Valid() && !firstRx && slot == (n + 1) % p.SlotsPerFrame()
      modifies this
      ensures Valid() && !firstRx && n == old(n) + 1 && frame == old(frame) && slot == old(slot)
      ensures ts == timestampRx + tsOffset
      ensures ttiRx == slot && frameRx == (n / p.SlotsPerFrame()) % FRAMES && named == n
      ensures exited == (old(exited) || frame != (n / p.SlotsPerFrame()) % FRAMES)
    {
      timestampRx, tsOffset := Absorb(ts, tsOffset, timestampRx, PreviousSamples(p, slot));
      AdvanceSlot(p, n);
      n, named := n + 1, n + 1;
      frameRx := (timestampRx / p.Frame()) % FRAMES;
      ttiRx := SlotFromTimestamp(p, timestampRx);
      if ttiRx != slot {
        exited := true;
      }
      if frameRx != frame {
        exited := true;
      }
    }

    /** One turn of the RU thread's loop after the first. */
    method NextRead(ts: int)
      requires Valid() && !firstRx && (Synced() || exited || AtRollOver())
      requires exited ==> slot == n % p.SlotsPerFrame()
      modifies this
      ensures Valid() && !firstRx && n == old(n) + 1 == named && ts == timestampRx + tsOffset
      ensures slot == n % p.SlotsPerFrame()
      ensures old(Synced()) ==> Synced() && frameRx == frame && ttiRx == slot
      ensures !old(Synced()) ==> exited
    {
      NextSlotCounts(n, p.SlotsPerFrame());
      FrameIsTen(p);
      Count();
      RxNext(ts);
    }

    /** The loop's own slot and frame counters. */
    method Count()
      requires Valid()
      modifies this`slot, this`frame
      ensures slot == if old(slot) == p.SlotsPerFrame() - 1 then 0 else old(slot) + 1
      ensures frame == if old(slot) == p.SlotsPerFrame() - 1 then (old(frame) + 1) % FRAMES else old(frame)
    {
      if slot == p.SlotsPerFrame() - 1 {
        slot := 0;
        frame := (frame + 1) % FRAMES;
      } else {
        slot := slot + 1;
      }
    }

    /** Prepare the transmit slot `ahead` slots after the one the counters name. */
    method Prepare(ahead: nat)
      requires Valid() && !firstRx
      modifies this`timestampTx, this`frameTx, this`ttiTx
      ensures Valid() && timestampTx >= 0 && ttiTx == (named + ahead) % p.SlotsPerFrame()
      ensures timestampTx == SlotStart(p, named + ahead) <==> n == named
      ensures ttiTx == SlotFromTimestamp(p, timestampTx)
         <==> n == named || SamplesPerSlot(p, ttiRx) < SamplesPerSlot(p, ttiTx)
      ensures var more := if LookAhead.Spills(p, ttiRx, ttiTx, n != named) then 1 else 0;
              frameTx == (timestampTx / p.Frame()) % FRAMES <==> (ahead / p.SlotsPerFrame() + more) % FRAMES == 0
    {
      timestampTx, frameTx, ttiTx := LookAhead.TransmitSlot(p, timestampRx, frameRx, ttiRx, ahead, named, n);
    }

    /** The same in terms of the slot the counters name, with the frame for look-aheads below a frame. */
    method PrepareNear(ahead: nat)
      requires Valid() && !firstRx
      modifies this`timestampTx, this`frameTx, this`ttiTx
      ensures Valid() && timestampTx >= 0 && ttiTx == (ttiRx + ahead) % p.SlotsPerFrame()
      ensures timestampTx == SlotStart(p, named + ahead) <==> n == named
      ensures ttiTx == SlotFromTimestamp(p, timestampTx)
         <==> n == named || SamplesPerSlot(p, ttiRx) < SamplesPerSlot(p, ttiTx)
      ensures ahead < p.SlotsPerFrame() ==>
                (frameTx == (timestampTx / p.Frame()) % FRAMES <==> !LookAhead.Spills(p, ttiRx, ttiTx, n != named))
    {
      Prepare(ahead);
      SlotAfter(named, ahead, p.SlotsPerFrame());
    }

    /** The first turn of the RU thread. Whatever the first timestamp and the look-ahead, what is announced
        for transmission is the slot `ahead` after the slot of that timestamp. The transmit timestamp is the
        start of that slot exactly when the first read was aligned; otherwise it still decodes to it exactly
        when the skipped slot is shorter than the announced one. */
    method FirstTurn(first: nat, ahead: nat)
      requires Valid() && firstRx
      modifies this
      ensures Valid() && !firstRx && !exited && tsOffset == 0
      ensures Synced() <==> !RollsOver(p, first)
      ensures !Synced() ==> AtRollOver()
      ensures SlotStart(p, n) >= first && (n > 0 ==> SlotStart(p, n - 1) < first)
      ensures ttiRx == SlotFromTimestamp(p, first) && ttiTx == (ttiRx + ahead) % p.SlotsPerFrame() && timestampTx >= 0
      ensures timestampTx == SlotStart(p, named + ahead) <==> Aligned(p, first)
      ensures ttiTx == SlotFromTimestamp(p, timestampTx)
         <==> Aligned(p, first) || SamplesPerSlot(p, ttiRx) < SamplesPerSlot(p, ttiTx)
      ensures ahead < p.SlotsPerFrame() ==>
                (frameTx == (timestampTx / p.Frame()) % FRAMES
                 <==> !LookAhead.Spills(p, ttiRx, ttiTx, !Aligned(p, first)))
    {
      Count();
      RxFirst(first);
      PrepareNear(ahead);
    }

    /** The state a first alignment past frame 1023 leaves. */
    ghost predicate AtRollOver()
      requires Valid()
      reads this
    {
      frame == FRAMES && slot == 0 && n % p.SlotsPerFrame() == 0 && (n / p.SlotsPerFrame()) % FRAMES == 0
    }

    /** The RU thread from its start over any sequence of device timestamps: the mismatch exits are
        taken exactly when the first alignment rolled past frame 1023 and another slot is read. In every
        turn after the first the transmit timestamp is the start of the slot `ahead` after the one just
        read and decodes to the announced slot. */
    method Run(first: nat, later: seq<int>, ahead: nat)
      requires Valid() && firstRx
      modifies this
      ensures Valid() && !firstRx
      ensures exited <==> RollsOver(p, first) && later != []
      ensures !RollsOver(p, first) ==> Synced()
      ensures later != [] ==> timestampRx == SlotStart(p, n) && later[|later| - 1] == timestampRx + tsOffset
      ensures n >= |later| && SlotStart(p, n - |later|) >= first
              && (n > |later| ==> SlotStart(p, n - |later| - 1) < first)
      ensures later != [] ==>
                && 0 <= timestampTx == SlotStart(p, n + ahead) && ttiTx == SlotFromTimestamp(p, timestampTx)
                && (frameTx == (timestampTx / p.Frame()) % FRAMES <==> (ahead / p.SlotsPerFrame()) % FRAMES == 0)
    {
      FirstTurn(first, ahead);
      ghost var n0 := n;
      var i := 0;
      while i < |later|
        invariant 0 <= i <= |later| && Valid() && !firstRx && n == n0 + i
        invariant RollsOver(p, first) ==> if i == 0 then !exited && AtRollOver()
                                          else exited && slot == n % p.SlotsPerFrame()
        invariant !RollsOver(p, first) ==> Synced()
        invariant i > 0 ==> later[i - 1] == timestampRx + tsOffset && Prepared(ahead)
      {
        NextRead(later[i]);
        Prepare(ahead);
        i := i + 1;
      }
    }

    /** The transmit fields name the slot `ahead` after the one just read, the frame if it can be reached
        by carrying once. */
    ghost predicate Prepared(ahead: nat)
      requires Valid()
      reads this
    {
      && 0 <= timestampTx == SlotStart(p, n + ahead) && ttiTx == SlotFromTimestamp(p, timestampTx)
      && (frameTx == (timestampTx / p.Frame()) % FRAMES <==> (ahead / p.SlotsPerFrame()) % FRAMES == 0)
    }
  }

  /** The last slot of a hyper-frame ends with it. */
  lemma LastSlot(p: Parms) returns (n: nat)
    requires p.Valid() && Ok(p) && p.SlotsPerFrame() > 0
    ensures var last := p.SlotsPerFrame() - 1;
            && n % p.SlotsPerFrame() == last && SlotTimestamp(p, last) == p.Frame() - SamplesPerSlot(p, last)
            && SlotStart(p, n) == FRAMES * p.Frame() - SamplesPerSlot(p, last)
  {
    var last := p.SlotsPerFrame() - 1;
    n := (FRAMES - 1) * p.SlotsPerFrame() + last;
    DivModUnique(FRAMES - 1, p.SlotsPerFrame(), last);
    TotalsAddUp(p);
    NextSlot(p, last);
    MulDistributes(FRAMES - 1, 1, p.Frame());
  }

  /** The last sample of a hyper-frame is a first timestamp that rolls over, for every carrier. */
  lemma LastSampleRollsOver(p: Parms)
    requires p.Valid() && Ok(p) && p.SlotsPerFrame() > 0
    ensures FRAMES * p.Frame() - 1 >= 0 && RollsOver(p, FRAMES * p.Frame() - 1)
  {
    var frame, last := p.Frame(), p.SlotsPerFrame() - 1;
    var n := LastSlot(p);
    SlotLongerThanOne(p, last);
    DecodeSlot(p, n, SamplesPerSlot(p, last) - 1);
    MulDistributes(FRAMES - 1, 1, frame);
    DivModUnique(FRAMES - 1, frame, frame - 1);
  }

  /** A first timestamp one sample into the first slot of a 15 kHz carrier, whose slots are all equally long:
      it is not aligned, and for every look-ahead the transmit timestamp of the first turn decodes to the
      slot after the announced one. */
  lemma MisalignedFirstMisses(p: Parms, ahead: nat)
    requires p.Valid() && Ok(p) && p.SlotsPerFrame() > 0 && p.mu == 0
    ensures SlotFromTimestamp(p, 1) == 0 && !Aligned(p, 1)
    ensures var t := SlotStart(p, 1) + (SlotStart(p, ahead) - SlotStart(p, 0));
            t >= 0 && SlotFromTimestamp(p, t) == (ahead + 1) % p.SlotsPerFrame() != ahead % p.SlotsPerFrame()
  {
    SlotLongerThanOne(p, 0);
    DecodeSlot(p, 0, 1);
    DivModUnique(0, p.Frame(), 1);
    LookAhead.StaleCountersMiss(p, 0, ahead);
  }

  lemma SlotLongerThanOne(p: Parms, slot: nat)
    requires p.Valid() && Ok(p)
    ensures SamplesPerSlot(p, slot) > 1
  {
    WholeSlot(p, slot);
  }

  lemma SlotAfter(n: nat, ahead: nat, spf: nat)
    requires spf > 0
    ensures (n + ahead) % spf == (n % spf + ahead) % spf
    ensures ahead < spf ==> ahead / spf == 0
  {
    ModAdd(n, ahead, spf);
    if ahead < spf {
      DivModUnique(0, spf, ahead);
    }
  }

  lemma FrameIsTen(p: Parms)
    ensures p.SlotsPerFrame() >= 10
  {
  }
}
