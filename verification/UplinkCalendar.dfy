/** The uplink calendar as the south reader keeps it: a fixed array of entries updated in place,
    proved against the ring of `CalendarModel`. */
module UplinkCalendar {
  import opened Arithmetic
  import opened SymbolTime
  import opened CalendarModel
  import opened CalendarBatches

  datatype Entry = Entry(parked: Parked, active: bool)

  function ReparkOne(s: Ring, p: Parked, r: nat): (t: Ring)
    requires |s.rows| == ENTRIES
    ensures |t.rows| == ENTRIES
  {
    if p.sent + 1 < p.job.numSymbols then RingPark(s, Parked(p.job, p.sent + 1), r + 1) else s
  }

  function Upto(i: nat, ps: seq<Parked>): (n: nat)
    ensures n <= |ps|
  {
    if i < |ps| then i else |ps|
  }

  function Jobs(ps: seq<Parked>): seq<Job> {
    seq(|ps|, k requires 0 <= k < |ps| => ps[k].job)
  }

  lemma RowStep(s: Ring, ps: seq<Parked>, i: nat, r: nat, m: Mode, c: Config)
    requires |s.rows| == ENTRIES && i < |ps| && c.Valid()
    ensures RingRepark(s, ps[..i + 1], r) == ReparkOne(RingRepark(s, ps[..i], r), ps[i], r)
    ensures Singles(TickWorks(ps[..i + 1], r, m, c))
         == Singles(TickWorks(ps[..i], r, m, c)) + [[TickWork(ps[i], r, m, c)]]
    ensures Jobs(ps[..i + 1]) == Jobs(ps[..i]) + [ps[i].job]
  {
    assert ps[..i + 1][..i] == ps[..i];
    SinglesAppend(TickWorks(ps[..i], r, m, c), TickWork(ps[i], r, m, c));
    assert TickWorks(ps[..i + 1], r, m, c) == TickWorks(ps[..i], r, m, c) + [TickWork(ps[i], r, m, c)];
  }

  lemma SinglesAppend(ws: seq<Work>, w: Work)
    ensures Singles(ws + [w]) == Singles(ws) + [[w]]
  {
    assert (ws + [w])[..|ws|] == ws;
  }

  lemma ReparkOneDependsOn(s: Ring, t: Ring, p: Parked, r: nat)
    requires |s.rows| == ENTRIES && s.rows == t.rows && s.log.cut == t.log.cut
    ensures ReparkOne(s, p, r).rows == ReparkOne(t, p, r).rows
    ensures ReparkOne(s, p, r).log.cut == ReparkOne(t, p, r).log.cut
  {
  }

  /** One FFT job: every job of the symbol under the symbol's own coordinates. */
  function Batch(frame: nat, slot: nat, symbol: nat, jobs: seq<Job>): seq<Work> {
    seq(|jobs|, k requires 0 <= k < |jobs| => Work(frame, slot, symbol, jobs[k]))
  }

  lemma BatchIsTick(ps: seq<Parked>, r: nat, c: Config)
    requires c.Valid()
    ensures Batch(FrameOf(r, c.slotsPerFrame), SlotOf(r, c.slotsPerFrame), SymbolOf(r), Jobs(ps))
         == TickWorks(ps, r, Codebook, c)
  {
  }

  class Calendar {
    const config: Config
    const mode: Mode
    const entries: array2<Entry>
    var overflowDropped: nat
    var symbolsMissed: nat
    var horizonDropped: nat
    /** The calls to the dispatchers, in order, with the job-symbols each of them hands over. */
    var calls: seq<seq<Work>>

    ghost var rows: seq<seq<Parked>>
    ghost var cut: seq<Parked>
    ghost var missed: seq<Job>
    ghost var beyond: seq<Job>

    ghost function State(): Ring
      reads this
    {
      Ring(rows, Log(Flatten(calls), cut, missed, beyond))
    }

    /** Row `i` holds `row` in its first entries; the others are inactive. */
    ghost predicate RowHolds(i: nat, row: seq<Parked>)
      requires entries.Length0 == ENTRIES && entries.Length1 == JOBS_PER_SYMBOL && i < ENTRIES
      reads entries
    {
      && |row| <= JOBS_PER_SYMBOL
      && (forall b :: 0 <= b < |row| ==> entries[i, b] == Entry(row[b], true))
      && (forall b :: |row| <= b < JOBS_PER_SYMBOL ==> !entries[i, b].active)
    }

    ghost predicate Shape()
      reads this
    {
      && config.Valid()
      && entries.Length0 == ENTRIES && entries.Length1 == JOBS_PER_SYMBOL && |rows| == ENTRIES
      && overflowDropped == |cut| && symbolsMissed == |missed| && horizonDropped == |beyond|
    }

    ghost predicate Valid()
      reads this, entries
    {
      Shape() && forall i :: 0 <= i < ENTRIES ==> RowHolds(i, rows[i])
    }

    constructor (config: Config, mode: Mode)
      requires config.Valid()
      ensures Valid() && fresh(entries) && this.config == config && this.mode == mode
      ensures State() == EmptyRing
    {
      this.config, this.mode := config, mode;
      var nothing := Entry(Parked(Job(0, 0, 0, 0, 0), 0), false);
      entries := new Entry[ENTRIES, JOBS_PER_SYMBOL]((i, b) => nothing);
      overflowDropped, symbolsMissed, horizonDropped, calls := 0, 0, 0, [];
      rows, cut, missed, beyond := EmptyRing.rows, [], [], [];
    }

    /** Park on the first free entry of the due symbol's row, or count an overflow. */
    method Park(p: Parked, abs: nat) returns (parked: bool)
      requires Shape() && RowHolds(abs % ENTRIES, rows[abs % ENTRIES])
      modifies this`rows, this`cut, this`overflowDropped, entries
      ensures Shape() && RowHolds(abs % ENTRIES, rows[abs % ENTRIES])
      ensures State() == RingPark(old(State()), p, abs)
      ensures parked <==> |old(rows)[abs % ENTRIES]| < JOBS_PER_SYMBOL
      ensures overflowDropped == old(overflowDropped) + (if parked then 0 else 1)
      ensures forall i, b :: 0 <= i < ENTRIES && 0 <= b < JOBS_PER_SYMBOL && i != abs % ENTRIES ==>
                entries[i, b] == old(entries[i, b])
    {
      var idx := abs % ENTRIES;
      var b := 0;
      while b < JOBS_PER_SYMBOL && entries[idx, b].active
        invariant 0 <= b <= |rows[idx]|
      {
        b := b + 1;
      }
      parked := b < JOBS_PER_SYMBOL;
      if parked {
        entries[idx, b] := Entry(p, true);
        rows := rows[idx := rows[idx] + [p]];
      } else {
        overflowDropped := overflowDropped + 1;
        cut := cut + [p];
      }
    }

    /** Hand over the next `count` symbols of a job under its own coordinates, one call each. */
    method Dispatch(j: Job, sent: nat, count: nat)
      modifies this`calls
      ensures calls == old(calls) + Singles(Works(j, sent, count))
    {
      var k := 0;
      while k < count
        invariant 0 <= k <= count
        invariant calls == old(calls) + Singles(Works(j, sent, k))
      {
        var w := Work(j.frame, j.slot, j.symbol + sent + k, j);
        SinglesAppend(Works(j, sent, k), w);
        assert Works(j, sent, k + 1) == Works(j, sent, k) + [w];
        calls := calls + [[w]];
        k := k + 1;
      }
    }

    method Add(r: nat, j: Job)
      requires Valid()
      modifies this, entries
      ensures Valid() && State() == RingAdd(old(State()), r, j, config)
      ensures calls == old(calls) + AddBatches(r, j, config)
    {
      var abs := AbsSymbol(j.frame, j.slot, j.symbol, config.slotsPerFrame);
      var diff := SymbolDiff(abs, r, config.slotsPerFrame);
      if diff <= -SYMBOLS {
        symbolsMissed := symbolsMissed + 1;
        missed := missed + [j];
        return;
      }
      if diff >= ENTRIES {
        horizonDropped := horizonDropped + 1;
        beyond := beyond + [j];
        return;
      }
      AddIsBatches(State(), r, j, config);
      FlattenConcat(calls, AddBatches(r, j, config));
      AddInWindow(r, j, abs, diff);
    }

    /** Dispatch the symbols that are due already and park the rest. */
    method AddInWindow(r: nat, j: Job, abs: nat, diff: int)
      requires Valid() && !Refused(r, j, config)
      requires abs == JobAbs(j, config) && diff == SymbolDiff(abs, r, config.slotsPerFrame)
      modifies this, entries
      ensures Valid() && calls == old(calls) + AddBatches(r, j, config)
      ensures var s := RingAdd(old(State()), r, j, config);
              rows == s.rows && cut == s.log.cut && missed == s.log.missed && beyond == s.log.beyond
    {
      var due := if diff < 0 then -diff + 1 else 0;
      if due > j.numSymbols {
        due := j.numSymbols;
      }
      if due > 0 {
        Dispatch(j, 0, due);
      }
      assert calls == old(calls) + Singles(Works(j, 0, due));
      if due < j.numSymbols {
        var _ := Park(Parked(j, due), abs + due);
      }
    }

    /** Park the continuation of a job dispatched at symbol `r`, if it has one. */
    method Continue(p: Parked, r: nat)
      requires Shape() && forall k :: 0 <= k < ENTRIES && k != r % ENTRIES ==> RowHolds(k, rows[k])
      modifies this`rows, this`cut, this`overflowDropped, entries
      ensures Shape() && forall k :: 0 <= k < ENTRIES && k != r % ENTRIES ==> RowHolds(k, rows[k])
      ensures rows == ReparkOne(old(State()), p, r).rows && cut == ReparkOne(old(State()), p, r).log.cut
      ensures rows[r % ENTRIES] == old(rows)[r % ENTRIES]
      ensures forall b :: 0 <= b < JOBS_PER_SYMBOL ==> entries[r % ENTRIES, b] == old(entries[r % ENTRIES, b])
    {
      if p.sent + 1 < p.job.numSymbols {
        var _ := Park(Parked(p.job, p.sent + 1), r + 1);
      }
    }

    /** The row of symbol `r`, which held `ps`, has been visited up to entry `i`. */
    ghost predicate Visited(r: nat, i: nat, s: Ring, ps: seq<Parked>)
      requires |s.rows| == ENTRIES && i <= JOBS_PER_SYMBOL
      reads this, entries
    {
      var idx := r % ENTRIES;
      && Shape() && |ps| <= JOBS_PER_SYMBOL && rows[idx] == []
      && (forall k :: 0 <= k < ENTRIES && k != idx ==> RowHolds(k, rows[k]))
      && (forall b :: i <= b < |ps| ==> entries[idx, b] == Entry(ps[b], true))
      && (forall b :: 0 <= b < JOBS_PER_SYMBOL && (b < i || |ps| <= b) ==> !entries[idx, b].active)
      && rows == RingRepark(s, ps[..Upto(i, ps)], r).rows
      && cut == RingRepark(s, ps[..Upto(i, ps)], r).log.cut
    }

    /** Visit one entry of the current row: dispatch or batch its job, park the continuation on the
        next symbol, and free the entry. */
    method Visit(r: nat, i: nat, ghost s: Ring, ghost ps: seq<Parked>) returns (batched: seq<Job>)
      requires |s.rows| == ENTRIES && i < JOBS_PER_SYMBOL && Visited(r, i, s, ps)
      modifies this`rows, this`cut, this`overflowDropped, this`calls, entries
      ensures Visited(r, i + 1, s, ps)
      ensures batched == if i < |ps| && mode.Codebook? then [ps[i].job] else []
      ensures calls == old(calls) + if i < |ps| && mode.Passthrough? then [[TickWork(ps[i], r, mode, config)]] else []
    {
      batched := [];
      var entry := entries[r % ENTRIES, i];
      if !entry.active {
        return;
      }
      var p := entry.parked;
      assert p == ps[i];
      if mode.Codebook? {
        batched := [p.job];
      } else {
        Dispatch(p.job, p.sent, 1);
        SinglesAppend([], TickWork(p, r, mode, config));
        assert Works(p.job, p.sent, 1) == [] + [TickWork(p, r, mode, config)];
      }
      Leave(r, i, s, ps, p);
    }

    /** Park the continuation of the job at entry `i` and free the entry. */
    method Leave(r: nat, i: nat, ghost s: Ring, ghost ps: seq<Parked>, p: Parked)
      requires |s.rows| == ENTRIES && i < JOBS_PER_SYMBOL && Visited(r, i, s, ps) && i < |ps| && p == ps[i]
      modifies this`rows, this`cut, this`overflowDropped, entries
      ensures Visited(r, i + 1, s, ps)
    {
      RowStep(s, ps, i, r, mode, config);
      ReparkOneDependsOn(RingRepark(s, ps[..i], r), State(), p, r);
      Continue(p, r);
      entries[r % ENTRIES, i] := Entry(p, false);
    }

    /** What visiting the first `i` entries has asked for, on top of `before`. */
    ghost predicate Asked(r: nat, i: nat, ps: seq<Parked>, batch: seq<Job>, before: seq<seq<Work>>)
      requires config.Valid()
      reads this
    {
      var seen := ps[..Upto(i, ps)];
      && batch == (if mode.Codebook? then Jobs(seen) else [])
      && calls == before + (if mode.Codebook? then [] else Singles(TickWorks(seen, r, mode, config)))
    }

    method VisitNext(r: nat, i: nat, ghost s: Ring, ghost ps: seq<Parked>, batch: seq<Job>,
                     ghost before: seq<seq<Work>>)
      returns (more: seq<Job>)
      requires |s.rows| == ENTRIES && i < JOBS_PER_SYMBOL && Visited(r, i, s, ps) && Asked(r, i, ps, batch, before)
      modifies this`rows, this`cut, this`overflowDropped, this`calls, entries
      ensures Visited(r, i + 1, s, ps) && Asked(r, i + 1, ps, more, before)
    {
      if i < |ps| {
        RowStep(s, ps, i, r, mode, config);
      }
      var batched := Visit(r, i, s, ps);
      more := batch + batched;
    }

    /** Visit the whole row of the current symbol, first entry to last. */
    method DrainRow(r: nat, ghost s: Ring) returns (batch: seq<Job>)
      requires Valid()
      requires s.rows == rows[r % ENTRIES := []] && s.log.cut == cut
      modifies this`rows, this`cut, this`overflowDropped, this`calls, entries
      ensures Valid()
      ensures var ps := old(rows)[r % ENTRIES];
              && rows == RingRepark(s, ps, r).rows && cut == RingRepark(s, ps, r).log.cut
              && batch == (if mode.Codebook? then Jobs(ps) else [])
              && calls == old(calls) + (if mode.Codebook? then [] else Singles(TickWorks(ps, r, mode, config)))
    {
      batch := [];
      ghost var ps, before := rows[r % ENTRIES], calls;
      assert RowHolds(r % ENTRIES, ps) && ps[..0] == [];
      rows := rows[r % ENTRIES := []];
      var i := 0;
      while i < JOBS_PER_SYMBOL
        invariant 0 <= i <= JOBS_PER_SYMBOL && Visited(r, i, s, ps) && Asked(r, i, ps, batch, before)
      {
        batch := VisitNext(r, i, s, ps, batch, before);
        i := i + 1;
      }
      assert ps[..|ps|] == ps;
      assert RowHolds(r % ENTRIES, []);
    }

    method Tick(r: nat)
      requires Valid()
      modifies this, entries
      ensures Valid() && State() == RingTick(old(State()), r, mode, config)
      ensures calls == old(calls) + RowBatches(old(rows)[r % ENTRIES], r, mode, config)
    {
      ghost var ps := rows[r % ENTRIES];
      ghost var s := Ring(rows[r % ENTRIES := []],
                          Log(Flatten(calls) + TickWorks(ps, r, mode, config), cut, missed, beyond));
      FlattenRow(ps, r, mode, config);
      FlattenConcat(calls, RowBatches(ps, r, mode, config));
      BatchIsTick(ps, r, config);
      var batch := DrainRow(r, s);
      if |batch| > 0 {
        calls := calls
                 + [Batch(FrameOf(r, config.slotsPerFrame), SlotOf(r, config.slotsPerFrame), SymbolOf(r), batch)];
      }
      assert calls == old(calls) + RowBatches(ps, r, mode, config);
      ReparkKeeps(s, ps, r);
    }

    /** The south reader over `|arrivals|` symbols, starting at symbol 0 of a slot. */
    method SouthRead(startFrame: nat, startSlot: nat, arrivals: seq<seq<Job>>)
      requires Valid() && startFrame < FRAMES && startSlot < config.slotsPerFrame
      modifies this, entries
      ensures Valid()
      ensures State() == RingRun(old(State()), AbsSymbol(startFrame, startSlot, 0, config.slotsPerFrame), arrivals,
                                 mode, config)
      ensures calls == old(calls) + Batches(old(State()), AbsSymbol(startFrame, startSlot, 0, config.slotsPerFrame),
                                            arrivals, mode, config)
    {
      ghost var start := AbsSymbol(startFrame, startSlot, 0, config.slotsPerFrame);
      var frame, slot, symbol := startFrame, startSlot, 0;
      StartsAt(startFrame, startSlot, config.slotsPerFrame);
      var n := 0;
      while n < |arrivals|
        invariant 0 <= n <= |arrivals| && Valid()
        invariant 0 <= symbol && At(frame, slot, symbol, start, n, config.slotsPerFrame)
        invariant HasRun(old(State()), old(calls), start, arrivals[..n])
      {
        ReadNext(old(State()), old(calls), start, arrivals, n, frame, slot, symbol);
        AtNext(frame, slot, symbol, start, n, config.slotsPerFrame);
        frame, slot, symbol := NextSymbol(frame, slot, symbol, config.slotsPerFrame);
        n := n + 1;
      }
      assert arrivals[..n] == arrivals;
    }

    /** The reader has run over `arrivals` from state `s`, and its calls are on top of `was`. */
    ghost predicate HasRun(s: Ring, was: seq<seq<Work>>, start: nat, arrivals: seq<seq<Job>>)
      requires |s.rows| == ENTRIES && config.Valid()
      reads this
    {
      && State() == RingRun(s, start, arrivals, mode, config)
      && calls == was + Batches(s, start, arrivals, mode, config)
    }

    method ReadNext(ghost s: Ring, ghost was: seq<seq<Work>>, ghost start: nat, arrivals: seq<seq<Job>>, n: nat,
                    frame: nat, slot: nat, symbol: nat)
      requires Valid() && n < |arrivals| && |s.rows| == ENTRIES
      requires At(frame, slot, symbol, start, n, config.slotsPerFrame) && HasRun(s, was, start, arrivals[..n])
      modifies this, entries
      ensures Valid() && HasRun(s, was, start, arrivals[..n + 1])
    {
      ghost var r := After(start, n, config.slotsPerFrame);
      ghost var mid, more := calls, SymbolBatches(State(), r, arrivals[n], mode, config);
      RunStep(s, start, arrivals, n, mode, config);
      ReadSymbol(frame, slot, symbol, arrivals[n]);
      CallsGrow(was, mid, Batches(s, start, arrivals[..n], mode, config), more);
    }

    /** The calendar work of one received symbol. */
    method ReadSymbol(frame: nat, slot: nat, symbol: nat, jobs: seq<Job>)
      requires Valid() && InFrame(frame, slot, symbol, config.slotsPerFrame)
      modifies this, entries
      ensures Valid()
      ensures State() == RingSymbol(old(State()), AbsSymbol(frame, slot, symbol, config.slotsPerFrame), jobs,
                                    mode, config)
      ensures calls == old(calls) + SymbolBatches(old(State()), AbsSymbol(frame, slot, symbol, config.slotsPerFrame),
                                                  jobs, mode, config)
    {
      var r := AbsSymbol(frame, slot, symbol, config.slotsPerFrame);
      DecodeInvertsEncode(frame, slot, symbol, config.slotsPerFrame);
      assert config.uplink[slot] <==> IsUplink(r, config);
      Drain(r, jobs);
      CallsGrow(old(calls), calls, AddsBatches(r, jobs, config), TickBatches(State(), r, mode, config));
      if config.uplink[slot] {
        Tick(r);
      }
    }

    /** Poll every arrived job into the calendar. */
    method Drain(r: nat, jobs: seq<Job>)
      requires Valid()
      modifies this, entries
      ensures Valid() && State() == RingAdds(old(State()), r, jobs, config)
      ensures calls == old(calls) + AddsBatches(r, jobs, config)
    {
      var i := 0;
      while i < |jobs|
        invariant 0 <= i <= |jobs| && Valid()
        invariant State() == RingAdds(old(State()), r, jobs[..i], config)
        invariant calls == old(calls) + AddsBatches(r, jobs[..i], config)
      {
        ghost var mid := calls;
        AddsStep(old(State()), r, jobs, i, config);
        Add(r, jobs[i]);
        CallsGrow(old(calls), mid, AddsBatches(r, jobs[..i], config), AddBatches(r, jobs[i], config));
        i := i + 1;
      }
      assert jobs[..i] == jobs;
    }
  }

  /** The reader's counters stand at the `n`th symbol after `start`. */
  predicate At(frame: nat, slot: nat, symbol: nat, start: nat, n: nat, slotsPerFrame: nat) {
    && InFrame(frame, slot, symbol, slotsPerFrame)
    && AbsSymbol(frame, slot, symbol, slotsPerFrame) == After(start, n, slotsPerFrame)
  }

  lemma AtNext(frame: nat, slot: nat, symbol: nat, start: nat, n: nat, slotsPerFrame: nat)
    requires At(frame, slot, symbol, start, n, slotsPerFrame)
    ensures After(AbsSymbol(frame, slot, symbol, slotsPerFrame), 1, slotsPerFrame) == After(start, n + 1, slotsPerFrame)
  {
    AfterAfter(start, n, 1, slotsPerFrame);
  }

  /** The reader's counters after one symbol. */
  method NextSymbol(frame: nat, slot: nat, symbol: nat, slotsPerFrame: nat) returns (f: nat, s: nat, y: nat)
    requires InFrame(frame, slot, symbol, slotsPerFrame)
    ensures InFrame(f, s, y, slotsPerFrame)
    ensures AbsSymbol(f, s, y, slotsPerFrame) == After(AbsSymbol(frame, slot, symbol, slotsPerFrame), 1, slotsPerFrame)
  {
    f, s, y := frame, slot, symbol + 1;
    if y == SYMBOLS {
      y, s := 0, s + 1;
      if s == slotsPerFrame {
        s, f := 0, f + 1;
        if f == FRAMES {
          f := 0;
        }
      }
    }
    NextSymbolWraps(frame, slot, symbol, f, s, y, slotsPerFrame);
  }

  /** Counting symbol, slot and frame with their own limits is adding one on the wrapping counter. */
  lemma NextSymbolWraps(frame: nat, slot: nat, symbol: nat, f: nat, s: nat, y: nat, slotsPerFrame: nat)
    requires InFrame(frame, slot, symbol, slotsPerFrame)
    requires if symbol + 1 < SYMBOLS then f == frame && s == slot && y == symbol + 1
             else if slot + 1 < slotsPerFrame then f == frame && s == slot + 1 && y == 0
             else f == (if frame + 1 == FRAMES then 0 else frame + 1) && s == 0 && y == 0
    ensures AbsSymbol(f, s, y, slotsPerFrame) == After(AbsSymbol(frame, slot, symbol, slotsPerFrame), 1, slotsPerFrame)
  {
    var abs := AbsSymbol(frame, slot, symbol, slotsPerFrame);
    DecodeInvertsEncode(frame, slot, symbol, slotsPerFrame);
    DecodeInvertsEncode(f, s, y, slotsPerFrame);
    WrapOnce(abs + 1, slotsPerFrame);
    MulDistributes(frame, 1, slotsPerFrame);
  }

  lemma StartsAt(frame: nat, slot: nat, slotsPerFrame: nat)
    requires frame < FRAMES && slot < slotsPerFrame
    ensures var start := AbsSymbol(frame, slot, 0, slotsPerFrame);
            start < Total(slotsPerFrame) && After(start, 0, slotsPerFrame) == start
  {
    DecodeInvertsEncode(frame, slot, 0, slotsPerFrame);
    WrapOnce(AbsSymbol(frame, slot, 0, slotsPerFrame), slotsPerFrame);
  }

  lemma CallsGrow(was: seq<seq<Work>>, mid: seq<seq<Work>>, a: seq<seq<Work>>, b: seq<seq<Work>>)
    requires mid == was + a
    ensures mid + b == was + (a + b)
  {
  }

  lemma AddsStep(s: Ring, r: nat, jobs: seq<Job>, i: nat, c: Config)
    requires |s.rows| == ENTRIES && i < |jobs|
    ensures RingAdds(s, r, jobs[..i + 1], c) == RingAdd(RingAdds(s, r, jobs[..i], c), r, jobs[i], c)
    ensures AddsBatches(r, jobs[..i + 1], c) == AddsBatches(r, jobs[..i], c) + AddBatches(r, jobs[i], c)
  {
    assert jobs[..i + 1][..i] == jobs[..i];
  }

  lemma RunStep(s: Ring, start: nat, arrivals: seq<seq<Job>>, n: nat, m: Mode, c: Config)
    requires |s.rows| == ENTRIES && c.Valid() && n < |arrivals|
    ensures RingRun(s, start, arrivals[..n + 1], m, c)
         == RingSymbol(RingRun(s, start, arrivals[..n], m, c), After(start, n, c.slotsPerFrame), arrivals[n], m, c)
    ensures Batches(s, start, arrivals[..n + 1], m, c)
         == Batches(s, start, arrivals[..n], m, c)
            + SymbolBatches(RingRun(s, start, arrivals[..n], m, c), After(start, n, c.slotsPerFrame), arrivals[n], m, c)
  {
    assert arrivals[..n + 1][..n] == arrivals[..n];
  }
}
