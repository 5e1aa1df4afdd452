/** The ring calendar refines the flat pending list, for every run and across every wrap. */
module CalendarRefinement {
  import opened Arithmetic
  import opened SymbolTime
  import opened CalendarModel

  /** Distance of symbol `d` ahead of the reader on the wrapping counter. */
  function Ahead(d: nat, r: nat, c: Config): nat
    requires c.Valid() && r < Total(c.slotsPerFrame)
  {
    (d + Total(c.slotsPerFrame) - r) % Total(c.slotsPerFrame)
  }

  /** A parked job is unfinished and due inside the 56-symbol window ahead of the reader. */
  ghost predicate InWindow(p: Parked, r: nat, c: Config)
    requires c.Valid() && r < Total(c.slotsPerFrame)
  {
    && WellFormed(p.job, c)
    && p.sent < p.job.numSymbols
    && Ahead(Due(p, c), r, c) < ENTRIES
  }

  ghost predicate Windowed(ps: seq<Parked>, r: nat, c: Config)
    requires c.Valid() && r < Total(c.slotsPerFrame)
  {
    forall i :: 0 <= i < |ps| ==> InWindow(ps[i], r, c)
  }

  /** The ring row of the symbol `k` ahead is the flat list restricted to that symbol. */
  ghost predicate RowMatches(rows: seq<seq<Parked>>, ps: seq<Parked>, r: nat, k: nat, c: Config)
    requires c.Valid() && |rows| == ENTRIES
  {
    rows[(r + k) % ENTRIES] == DueAt(ps, After(r, k, c.slotsPerFrame), c)
  }

  ghost predicate Matches(s: Ring, f: Flat, r: nat, c: Config)
    requires c.Valid()
  {
    && |s.rows| == ENTRIES
    && s.log == f.log
    && r < Total(c.slotsPerFrame)
    && Windowed(f.pending, r, c)
    && forall k :: 0 <= k < ENTRIES ==> RowMatches(s.rows, f.pending, r, k, c)
  }

  // ------------------------------------------------------------------ arithmetic of the window

  lemma EntryOf(r: nat, k: nat, c: Config)
    requires c.Valid()
    ensures After(r, k, c.slotsPerFrame) % ENTRIES == (r + k) % ENTRIES
  {
    ModOfMultiple(r + k, ENTRIES, 256 * c.slotsPerFrame, Total(c.slotsPerFrame));
  }

  lemma AheadOfAfter(d: nat, r: nat, k: nat, c: Config)
    requires c.Valid()
    requires r < Total(c.slotsPerFrame) && d < Total(c.slotsPerFrame) && k < Total(c.slotsPerFrame)
    ensures d == After(r, k, c.slotsPerFrame) <==> Ahead(d, r, c) == k
  {
    WrapOnce(r + k, c.slotsPerFrame);
    WrapOnce(d + Total(c.slotsPerFrame) - r, c.slotsPerFrame);
  }

  lemma DueBound(p: Parked, c: Config)
    requires c.Valid() && WellFormed(p.job, c) && p.sent < p.job.numSymbols
    ensures Due(p, c) == AbsSymbol(p.job.frame, p.job.slot, p.job.symbol + p.sent, c.slotsPerFrame)
    ensures Due(p, c) < Total(c.slotsPerFrame)
    ensures IsUplink(Due(p, c), c)
    ensures TickWork(p, Due(p, c), Codebook, c) == TickWork(p, Due(p, c), Passthrough, c)
  {
    DecodeInvertsEncode(p.job.frame, p.job.slot, p.job.symbol + p.sent, c.slotsPerFrame);
  }

  // ------------------------------------------------------------------ the flat list's filters

  lemma {:induction false} DueAtSound(ps: seq<Parked>, d: nat, c: Config)
    ensures forall i :: 0 <= i < |DueAt(ps, d, c)| ==>
              DueAt(ps, d, c)[i] in ps && Due(DueAt(ps, d, c)[i], c) == d
    ensures (exists i :: 0 <= i < |ps| && Due(ps[i], c) == d) ==> DueAt(ps, d, c) != []
  {
    if ps != [] {
      DueAtSound(ps[..|ps| - 1], d, c);
      var init := ps[..|ps| - 1];
      assert forall x :: x in init ==> x in ps;
      if i :| 0 <= i < |ps| && Due(ps[i], c) == d {
        if i < |init| {
          assert Due(init[i], c) == d;
        }
      }
    }
  }

  lemma {:induction false} NotDueAtSubset(ps: seq<Parked>, d: nat, c: Config)
    ensures forall i :: 0 <= i < |NotDueAt(ps, d, c)| ==>
              NotDueAt(ps, d, c)[i] in ps && Due(NotDueAt(ps, d, c)[i], c) != d
  {
    if ps != [] {
      NotDueAtSubset(ps[..|ps| - 1], d, c);
      assert forall x :: x in ps[..|ps| - 1] ==> x in ps;
    }
  }

  lemma DueAtAppend(ps: seq<Parked>, p: Parked, d: nat, c: Config)
    ensures DueAt(ps + [p], d, c) == DueAt(ps, d, c) + (if Due(p, c) == d then [p] else [])
  {
  }

  lemma {:induction false} DueAtOfNotDueAt(ps: seq<Parked>, e: nat, d: nat, c: Config)
    ensures DueAt(NotDueAt(ps, e, c), d, c) == if d == e then [] else DueAt(ps, d, c)
  {
    if ps != [] {
      DueAtOfNotDueAt(ps[..|ps| - 1], e, d, c);
      DueAtAppend(NotDueAt(ps[..|ps| - 1], e, c), ps[|ps| - 1], d, c);
    }
  }

  lemma {:induction false} NoneDue(ps: seq<Parked>, d: nat, c: Config)
    requires forall i :: 0 <= i < |ps| ==> Due(ps[i], c) != d
    ensures DueAt(ps, d, c) == [] && NotDueAt(ps, d, c) == ps
  {
    if ps != [] {
      NoneDue(ps[..|ps| - 1], d, c);
    }
  }

  // ------------------------------------------------------------------ one operation at a time

  lemma EntriesDistinct(r: nat, j: nat, k: nat)
    requires j < ENTRIES && k < ENTRIES && j != k
    ensures (r + j) % ENTRIES != (r + k) % ENTRIES
  {
  }

  lemma ParkRow(rows: seq<seq<Parked>>, ps: seq<Parked>, r: nat, p: Parked, at: nat, k: nat, c: Config)
    requires c.Valid() && |rows| == ENTRIES && at < ENTRIES && k < ENTRIES && r < Total(c.slotsPerFrame)
    requires Due(p, c) == After(r, at, c.slotsPerFrame)
    requires RowMatches(rows, ps, r, k, c)
    ensures var i := (r + at) % ENTRIES;
            RowMatches(rows[i := rows[i] + [p]], ps + [p], r, k, c)
  {
    var d, e := After(r, at, c.slotsPerFrame), After(r, k, c.slotsPerFrame);
    DueAtAppend(ps, p, e, c);
    if k != at {
      EntriesDistinct(r, at, k);
      AheadOfAfter(d, r, at, c);
      AheadOfAfter(d, r, k, c);
    }
  }

  lemma WindowEntry(p: Parked, r: nat, c: Config) returns (at: nat)
    requires c.Valid() && r < Total(c.slotsPerFrame) && InWindow(p, r, c)
    ensures at < ENTRIES
    ensures Due(p, c) == After(r, at, c.slotsPerFrame) && Due(p, c) % ENTRIES == (r + at) % ENTRIES
  {
    at := Ahead(Due(p, c), r, c);
    DueBound(p, c);
    AheadOfAfter(Due(p, c), r, at, c);
    EntryOf(r, at, c);
  }

  lemma ParkMatches(s: Ring, f: Flat, r: nat, p: Parked, abs: nat, c: Config)
    requires c.Valid() && Matches(s, f, r, c)
    requires InWindow(p, r, c)
    requires abs % ENTRIES == Due(p, c) % ENTRIES
    ensures Matches(RingPark(s, p, abs), FlatPark(f, p, c), r, c)
  {
    var at := WindowEntry(p, r, c);
    var i := abs % ENTRIES;
    assert s.rows[i] == DueAt(f.pending, Due(p, c), c) by {
      assert RowMatches(s.rows, f.pending, r, at, c);
    }
    if |s.rows[i]| < JOBS_PER_SYMBOL {
      var rows := s.rows[i := s.rows[i] + [p]];
      forall k | 0 <= k < ENTRIES
        ensures RowMatches(rows, f.pending + [p], r, k, c)
      {
        ParkRow(s.rows, f.pending, r, p, at, k, c);
      }
      assert RingPark(s, p, abs) == s.(rows := rows);
      assert FlatPark(f, p, c) == f.(pending := f.pending + [p]);
      assert Windowed(f.pending + [p], r, c);
    }
  }

  lemma AddMatches(s: Ring, f: Flat, r: nat, j: Job, c: Config)
    requires c.Valid() && Matches(s, f, r, c) && WellFormed(j, c)
    ensures Matches(RingAdd(s, r, j, c), FlatAdd(f, r, j, c), r, c)
  {
    var abs := JobAbs(j, c);
    var diff := SymbolDiff(abs, r, c.slotsPerFrame);
    if -SYMBOLS < diff < ENTRIES {
      var due := DueSymbols(diff, j.numSymbols);
      var log := s.log.(dispatched := s.log.dispatched + Works(j, 0, due));
      var s1, f1 := s.(log := log), f.(log := log);
      assert Matches(s1, f1, r, c);
      if due < j.numSymbols {
        AddParksAhead(r, j, due, c);
        ParkMatches(s1, f1, r, Parked(j, due), abs + due, c);
      }
    }
  }

  /** A fresh arrival parks its first symbol that is not yet due, inside the window. */
  lemma AddParksAhead(r: nat, j: Job, due: nat, c: Config)
    requires c.Valid() && WellFormed(j, c) && r < Total(c.slotsPerFrame)
    requires -SYMBOLS < SymbolDiff(JobAbs(j, c), r, c.slotsPerFrame) < ENTRIES
    requires due == DueSymbols(SymbolDiff(JobAbs(j, c), r, c.slotsPerFrame), j.numSymbols) < j.numSymbols
    ensures InWindow(Parked(j, due), r, c)
  {
    var p := Parked(j, due);
    DueBound(p, c);
    DueBound(Parked(j, 0), c);
    var diff := SymbolDiff(JobAbs(j, c), r, c.slotsPerFrame);
    DiffIsCircular(JobAbs(j, c), r, diff, c.slotsPerFrame);
    var ahead := if diff < 0 then 1 else diff;
    WrapOnce(r + diff + Total(c.slotsPerFrame), c.slotsPerFrame);
    WrapOnce(r + ahead, c.slotsPerFrame);
    AheadOfAfter(Due(p, c), r, ahead, c);
  }

  lemma {:induction false} ReparkMatches(s: Ring, f: Flat, r: nat, ps: seq<Parked>, c: Config)
    requires c.Valid() && Matches(s, f, r, c)
    requires forall i :: 0 <= i < |ps| ==> InWindow(ps[i], r, c) && Due(ps[i], c) == r
    ensures Matches(RingRepark(s, ps, r), FlatRepark(f, ps, c), r, c)
    ensures RingRepark(s, ps, r).log.dispatched == s.log.dispatched
  {
    if ps != [] {
      var init, p := ps[..|ps| - 1], ps[|ps| - 1];
      ReparkMatches(s, f, r, init, c);
      if p.sent + 1 < p.job.numSymbols {
        var q := Parked(p.job, p.sent + 1);
        DueBound(q, c);
        WrapOnce(r + 1, c.slotsPerFrame);
        AheadOfAfter(Due(q, c), r, 1, c);
        ParkMatches(RingRepark(s, init, r), FlatRepark(f, init, c), r, q, r + 1, c);
      }
    }
  }

  /** All jobs of the current row are due now, so both modes ask for the same work. */
  lemma RowWorks(ps: seq<Parked>, r: nat, m: Mode, c: Config)
    requires c.Valid() && r < Total(c.slotsPerFrame)
    requires forall i :: 0 <= i < |ps| ==> InWindow(ps[i], r, c) && Due(ps[i], c) == r
    ensures TickWorks(ps, r, m, c) == TickWorks(ps, r, Passthrough, c)
  {
    forall i | 0 <= i < |ps|
      ensures TickWork(ps[i], r, m, c) == TickWork(ps[i], r, Passthrough, c)
    {
      DueBound(ps[i], c);
    }
  }

  lemma NowIsAfterZero(r: nat, c: Config)
    requires c.Valid() && r < Total(c.slotsPerFrame)
    ensures After(r, 0, c.slotsPerFrame) == r
  {
    WrapOnce(r, c.slotsPerFrame);
  }

  lemma DrainRow(rows: seq<seq<Parked>>, ps: seq<Parked>, r: nat, k: nat, c: Config)
    requires c.Valid() && |rows| == ENTRIES && k < ENTRIES && r < Total(c.slotsPerFrame)
    requires RowMatches(rows, ps, r, k, c)
    ensures RowMatches(rows[r % ENTRIES := []], NotDueAt(ps, r, c), r, k, c)
  {
    var e := After(r, k, c.slotsPerFrame);
    DueAtOfNotDueAt(ps, r, e, c);
    NowIsAfterZero(r, c);
    if k != 0 {
      EntriesDistinct(r, 0, k);
      AheadOfAfter(e, r, 0, c);
      AheadOfAfter(e, r, k, c);
    }
  }

  lemma TickMatches(s: Ring, f: Flat, r: nat, m: Mode, c: Config)
    requires c.Valid() && Matches(s, f, r, c)
    ensures Matches(RingTick(s, r, m, c), FlatTick(f, r, c), r, c)
  {
    var i, ps := r % ENTRIES, DueAt(f.pending, r, c);
    assert ps == s.rows[i] by {
      NowIsAfterZero(r, c);
      assert RowMatches(s.rows, f.pending, r, 0, c);
    }
    DueAtSound(f.pending, r, c);
    assert forall x :: x in f.pending ==> InWindow(x, r, c);
    RowWorks(ps, r, m, c);
    var log := s.log.(dispatched := s.log.dispatched + TickWorks(ps, r, m, c));
    var s1, f1 := Ring(s.rows[i := []], log), Flat(NotDueAt(f.pending, r, c), log);
    assert Matches(s1, f1, r, c) by {
      NotDueAtSubset(f.pending, r, c);
      forall k | 0 <= k < ENTRIES
        ensures RowMatches(s1.rows, f1.pending, r, k, c)
      {
        DrainRow(s.rows, f.pending, r, k, c);
      }
    }
    ReparkMatches(s1, f1, r, ps, c);
  }

  // ------------------------------------------------------------------ runs

  ghost predicate AllWellFormed(arrivals: seq<seq<Job>>, c: Config)
    requires c.Valid()
  {
    forall i, k :: 0 <= i < |arrivals| && 0 <= k < |arrivals[i]| ==> WellFormed(arrivals[i][k], c)
  }

  lemma {:induction false} AddsMatch(s: Ring, f: Flat, r: nat, jobs: seq<Job>, c: Config)
    requires c.Valid() && Matches(s, f, r, c)
    requires forall k :: 0 <= k < |jobs| ==> WellFormed(jobs[k], c)
    ensures Matches(RingAdds(s, r, jobs, c), FlatAdds(f, r, jobs, c), r, c)
  {
    if jobs != [] {
      var n := |jobs| - 1;
      AddsMatch(s, f, r, jobs[..n], c);
      AddMatches(RingAdds(s, r, jobs[..n], c), FlatAdds(f, r, jobs[..n], c), r, jobs[n], c);
    }
  }

  /** In a downlink slot nothing is due, so skipping the tick loses nothing. */
  lemma NothingDueInDownlink(f: Flat, r: nat, c: Config)
    requires c.Valid() && r < Total(c.slotsPerFrame) && Windowed(f.pending, r, c) && !IsUplink(r, c)
    ensures FlatTick(f, r, c) == f
  {
    forall i | 0 <= i < |f.pending|
      ensures Due(f.pending[i], c) != r
    {
      DueBound(f.pending[i], c);
    }
    NoneDue(f.pending, r, c);
  }

  ghost predicate NoneDueAt(ps: seq<Parked>, d: nat, c: Config) {
    forall i :: 0 <= i < |ps| ==> Due(ps[i], c) != d
  }

  lemma {:induction false} ReparkLeavesNoneDue(f: Flat, r: nat, ps: seq<Parked>, c: Config)
    requires forall i :: 0 <= i < |ps| ==> Due(ps[i], c) == r
    requires NoneDueAt(f.pending, r, c)
    ensures NoneDueAt(FlatRepark(f, ps, c).pending, r, c)
  {
    if ps != [] {
      var p := ps[|ps| - 1];
      ReparkLeavesNoneDue(f, r, ps[..|ps| - 1], c);
      assert Due(Parked(p.job, p.sent + 1), c) == Due(p, c) + 1;
    }
  }

  /** A tick leaves nothing due at the symbol it dispatched. */
  lemma TickDrains(f: Flat, r: nat, c: Config)
    requires c.Valid()
    ensures NoneDueAt(FlatTick(f, r, c).pending, r, c)
  {
    var ps := DueAt(f.pending, r, c);
    var f1 := Flat(NotDueAt(f.pending, r, c),
                   f.log.(dispatched := f.log.dispatched + TickWorks(ps, r, Passthrough, c)));
    NotDueAtSubset(f.pending, r, c);
    assert NoneDueAt(f1.pending, r, c);
    DueAtSound(f.pending, r, c);
    ReparkLeavesNoneDue(f1, r, ps, c);
  }

  lemma AdvanceParked(p: Parked, r: nat, c: Config)
    requires c.Valid() && r < Total(c.slotsPerFrame) && InWindow(p, r, c) && Due(p, c) != r
    ensures InWindow(p, After(r, 1, c.slotsPerFrame), c)
    ensures Due(p, c) != After(r, ENTRIES, c.slotsPerFrame)
  {
    var d, next := Due(p, c), After(r, 1, c.slotsPerFrame);
    var ahead := Ahead(d, r, c);
    DueBound(p, c);
    NowIsAfterZero(r, c);
    AheadOfAfter(d, r, 0, c);
    AheadOfAfter(d, r, ahead, c);
    AheadOfAfter(d, r, ENTRIES, c);
    AfterAfter(r, 1, ahead - 1, c.slotsPerFrame);
    AheadOfAfter(d, next, ahead - 1, c);
  }

  lemma NextEntry(r: nat, k: nat, c: Config)
    requires c.Valid()
    ensures (After(r, 1, c.slotsPerFrame) + k) % ENTRIES == (r + (k + 1)) % ENTRIES
  {
    EntryOf(r, 1, c);
    SameEntry(After(r, 1, c.slotsPerFrame), r + 1, k);
  }

  lemma SameEntry(a: nat, b: nat, k: nat)
    requires a % ENTRIES == b % ENTRIES
    ensures (a + k) % ENTRIES == (b + k) % ENTRIES
  {
    ModAdd(a, k, ENTRIES);
    ModAdd(b, k, ENTRIES);
  }

  lemma AdvanceRow(rows: seq<seq<Parked>>, ps: seq<Parked>, r: nat, k: nat, c: Config)
    requires c.Valid() && |rows| == ENTRIES && k < ENTRIES && r < Total(c.slotsPerFrame)
    requires forall i :: 0 <= i < ENTRIES ==> RowMatches(rows, ps, r, i, c)
    requires NoneDueAt(ps, r, c) && NoneDueAt(ps, After(r, ENTRIES, c.slotsPerFrame), c)
    ensures RowMatches(rows, ps, After(r, 1, c.slotsPerFrame), k, c)
  {
    var next := After(r, 1, c.slotsPerFrame);
    AfterAfter(r, 1, k, c.slotsPerFrame);
    NextEntry(r, k, c);
    if k < ENTRIES - 1 {
      assert RowMatches(rows, ps, r, k + 1, c);
    } else {
      NoneDue(ps, After(r, ENTRIES, c.slotsPerFrame), c);
      NoneDue(ps, r, c);
      NowIsAfterZero(r, c);
      assert RowMatches(rows, ps, r, 0, c);
      SameEntry(ENTRIES, 0, r);
    }
  }

  lemma AdvanceMatches(s: Ring, f: Flat, r: nat, c: Config)
    requires c.Valid() && Matches(s, f, r, c) && NoneDueAt(f.pending, r, c)
    ensures Matches(s, f, After(r, 1, c.slotsPerFrame), c)
  {
    forall i | 0 <= i < |f.pending|
      ensures InWindow(f.pending[i], After(r, 1, c.slotsPerFrame), c)
      ensures Due(f.pending[i], c) != After(r, ENTRIES, c.slotsPerFrame)
    {
      AdvanceParked(f.pending[i], r, c);
    }
    forall k | 0 <= k < ENTRIES
      ensures RowMatches(s.rows, f.pending, After(r, 1, c.slotsPerFrame), k, c)
    {
      AdvanceRow(s.rows, f.pending, r, k, c);
    }
  }

  lemma SymbolMatches(s: Ring, f: Flat, r: nat, jobs: seq<Job>, m: Mode, c: Config)
    requires c.Valid() && Matches(s, f, r, c)
    requires forall k :: 0 <= k < |jobs| ==> WellFormed(jobs[k], c)
    ensures Matches(RingSymbol(s, r, jobs, m, c), FlatSymbol(f, r, jobs, c), After(r, 1, c.slotsPerFrame), c)
  {
    AddsMatch(s, f, r, jobs, c);
    var s1, f1 := RingAdds(s, r, jobs, c), FlatAdds(f, r, jobs, c);
    if IsUplink(r, c) {
      TickMatches(s1, f1, r, m, c);
    } else {
      NothingDueInDownlink(f1, r, c);
    }
    TickDrains(f1, r, c);
    AdvanceMatches(RingSymbol(s, r, jobs, m, c), FlatSymbol(f, r, jobs, c), r, c);
  }

  /** Over every run of arrivals and ticks, in either mode and from any start symbol, the 56-entry
      ring and the unbounded flat list have the same rows, dispatch the same job-symbols in the same
      order, and refuse the same jobs. */
  lemma {:induction false} RingRefinesFlatList(start: nat, arrivals: seq<seq<Job>>, m: Mode, c: Config)
    requires c.Valid() && start < Total(c.slotsPerFrame) && AllWellFormed(arrivals, c)
    ensures Matches(RingRun(EmptyRing, start, arrivals, m, c), FlatRun(EmptyFlat, start, arrivals, c),
                    After(start, |arrivals|, c.slotsPerFrame), c)
  {
    if arrivals == [] {
      WrapOnce(start, c.slotsPerFrame);
    } else {
      var n := |arrivals| - 1;
      RingRefinesFlatList(start, arrivals[..n], m, c);
      SymbolMatches(RingRun(EmptyRing, start, arrivals[..n], m, c), FlatRun(EmptyFlat, start, arrivals[..n], c),
                    After(start, n, c.slotsPerFrame), arrivals[n], m, c);
      AfterAfter(start, n, 1, c.slotsPerFrame);
    }
  }

  /** Codebook batching and passthrough request the same work in the same order. */
  lemma ModesAgree(start: nat, arrivals: seq<seq<Job>>, c: Config)
    requires c.Valid() && start < Total(c.slotsPerFrame) && AllWellFormed(arrivals, c)
    ensures RingRun(EmptyRing, start, arrivals, Codebook, c).log
         == RingRun(EmptyRing, start, arrivals, Passthrough, c).log
  {
    RingRefinesFlatList(start, arrivals, Codebook, c);
    RingRefinesFlatList(start, arrivals, Passthrough, c);
  }

  /** The per-symbol decoding agrees with the job's own coordinates exactly while the job stays
      inside its slot. */
  lemma ModesAgreeOnlyInsideSlot(p: Parked, c: Config)
    requires c.Valid() && InFrame(p.job.frame, p.job.slot, p.job.symbol, c.slotsPerFrame)
    ensures TickWork(p, Due(p, c), Codebook, c) == TickWork(p, Due(p, c), Passthrough, c)
       <==> p.job.symbol + p.sent < SYMBOLS
  {
    if p.job.symbol + p.sent < SYMBOLS {
      DecodeInvertsEncode(p.job.frame, p.job.slot, p.job.symbol + p.sent, c.slotsPerFrame);
    }
  }

  /** A two-symbol job on the last symbol of a slot: its second symbol is requested under different
      coordinates in the two modes. */
  lemma LeavingSlotDiffers(tag: nat, c: Config)
    requires c.Valid()
    ensures var p := Parked(Job(tag, 0, 0, SYMBOLS - 1, 2), 1);
            TickWork(p, Due(p, c), Codebook, c) != TickWork(p, Due(p, c), Passthrough, c)
  {
    ModesAgreeOnlyInsideSlot(Parked(Job(tag, 0, 0, SYMBOLS - 1, 2), 1), c);
  }
}
