/** What the calendar hands over in one call: each symbol of a late job by itself; and of the jobs due at a
    symbol, in codebook mode all together and in passthrough each by itself. */
module CalendarBatches {
  import opened SymbolTime
  import opened CalendarModel
  import opened CalendarRefinement
  import opened CalendarJobs

  function Flatten(bs: seq<seq<Work>>): seq<Work> {
    if bs == [] then [] else Flatten(bs[..|bs| - 1]) + bs[|bs| - 1]
  }

  function Singles(ws: seq<Work>): seq<seq<Work>> {
    if ws == [] then [] else Singles(ws[..|ws| - 1]) + [[ws[|ws| - 1]]]
  }

  predicate Refused(r: nat, j: Job, c: Config) {
    !(-SYMBOLS < SymbolDiff(JobAbs(j, c), r, c.slotsPerFrame) < ENTRIES)
  }

  /** The symbols of an arriving job that are due already. */
  function DueWorks(r: nat, j: Job, c: Config): seq<Work> {
    Works(j, 0, DueSymbols(SymbolDiff(JobAbs(j, c), r, c.slotsPerFrame), j.numSymbols))
  }

  function AddBatches(r: nat, j: Job, c: Config): seq<seq<Work>> {
    if Refused(r, j, c) then [] else Singles(DueWorks(r, j, c))
  }

  function AddsBatches(r: nat, jobs: seq<Job>, c: Config): seq<seq<Work>> {
    if jobs == [] then [] else AddsBatches(r, jobs[..|jobs| - 1], c) + AddBatches(r, jobs[|jobs| - 1], c)
  }

  /** The calls for the jobs of the current row. */
  function RowBatches(ps: seq<Parked>, r: nat, m: Mode, c: Config): seq<seq<Work>>
    requires c.Valid()
  {
    match m
    case Passthrough => Singles(TickWorks(ps, r, Passthrough, c))
    case Codebook => if ps == [] then [] else [TickWorks(ps, r, Codebook, c)]
  }

  function TickBatches(s: Ring, r: nat, m: Mode, c: Config): seq<seq<Work>>
    requires |s.rows| == ENTRIES && c.Valid()
  {
    if IsUplink(r, c) then RowBatches(s.rows[r % ENTRIES], r, m, c) else []
  }

  function SymbolBatches(s: Ring, r: nat, jobs: seq<Job>, m: Mode, c: Config): seq<seq<Work>>
    requires |s.rows| == ENTRIES && c.Valid()
  {
    AddsBatches(r, jobs, c) + TickBatches(RingAdds(s, r, jobs, c), r, m, c)
  }

  /** The hand-overs of the reader's first `|arrivals|` symbols. */
  function Batches(s: Ring, start: nat, arrivals: seq<seq<Job>>, m: Mode, c: Config): seq<seq<Work>>
    requires |s.rows| == ENTRIES && c.Valid()
  {
    if arrivals == [] then []
    else
      var n := |arrivals| - 1;
      Batches(s, start, arrivals[..n], m, c)
      + SymbolBatches(RingRun(s, start, arrivals[..n], m, c), After(start, n, c.slotsPerFrame), arrivals[n], m, c)
  }

  // ------------------------------------------------------------------ they are what is dispatched

  lemma {:induction false} FlattenConcat(a: seq<seq<Work>>, b: seq<seq<Work>>)
    ensures Flatten(a + b) == Flatten(a) + Flatten(b)
  {
    if b == [] {
      assert a + b == a;
    } else {
      assert (a + b)[..|a + b| - 1] == a + b[..|b| - 1];
      FlattenConcat(a, b[..|b| - 1]);
    }
  }

  lemma {:induction false} FlattenSingles(ws: seq<Work>)
    ensures Flatten(Singles(ws)) == ws
  {
    if ws != [] {
      FlattenSingles(ws[..|ws| - 1]);
      assert Singles(ws)[..|Singles(ws)| - 1] == Singles(ws[..|ws| - 1]);
    }
  }

  lemma AddIsBatches(s: Ring, r: nat, j: Job, c: Config)
    requires |s.rows| == ENTRIES
    ensures RingAdd(s, r, j, c).log.dispatched == s.log.dispatched + Flatten(AddBatches(r, j, c))
  {
    FlattenSingles(DueWorks(r, j, c));
  }

  lemma {:induction false} AddsAreBatches(s: Ring, r: nat, jobs: seq<Job>, c: Config)
    requires |s.rows| == ENTRIES
    ensures RingAdds(s, r, jobs, c).log.dispatched == s.log.dispatched + Flatten(AddsBatches(r, jobs, c))
  {
    if jobs != [] {
      var init, j := jobs[..|jobs| - 1], jobs[|jobs| - 1];
      AddsAreBatches(s, r, init, c);
      AddIsBatches(RingAdds(s, r, init, c), r, j, c);
      FlattenConcat(AddsBatches(r, init, c), AddBatches(r, j, c));
    }
  }

  lemma FlattenRow(ps: seq<Parked>, r: nat, m: Mode, c: Config)
    requires c.Valid()
    ensures Flatten(RowBatches(ps, r, m, c)) == TickWorks(ps, r, m, c)
  {
    FlattenSingles(TickWorks(ps, r, Passthrough, c));
    assert [TickWorks(ps, r, m, c)][..0] == [];
  }

  lemma TickIsBatches(s: Ring, r: nat, m: Mode, c: Config)
    requires |s.rows| == ENTRIES && c.Valid()
    ensures (if IsUplink(r, c) then RingTick(s, r, m, c) else s).log.dispatched
         == s.log.dispatched + Flatten(TickBatches(s, r, m, c))
  {
    var i := r % ENTRIES;
    var ps := s.rows[i];
    var works := TickWorks(ps, r, m, c);
    var t := Ring(s.rows[i := []], s.log.(dispatched := s.log.dispatched + works));
    ReparkKeeps(t, ps, r);
    FlattenRow(ps, r, m, c);
  }

  lemma Regroup(a: seq<Work>, b: seq<Work>, d: seq<Work>)
    ensures (a + b) + d == a + (b + d)
  {
  }

  lemma SymbolIsBatches(s: Ring, r: nat, jobs: seq<Job>, m: Mode, c: Config)
    requires |s.rows| == ENTRIES && c.Valid()
    ensures RingSymbol(s, r, jobs, m, c).log.dispatched
         == s.log.dispatched + Flatten(SymbolBatches(s, r, jobs, m, c))
  {
    var t := RingAdds(s, r, jobs, c);
    var added, ticked := AddsBatches(r, jobs, c), TickBatches(t, r, m, c);
    AddsAreBatches(s, r, jobs, c);
    TickIsBatches(t, r, m, c);
    FlattenConcat(added, ticked);
    Regroup(s.log.dispatched, Flatten(added), Flatten(ticked));
  }

  /** The hand-overs, strung together, are the work the calendar dispatches. */
  lemma {:induction false} BatchesAreDispatched(s: Ring, start: nat, arrivals: seq<seq<Job>>, m: Mode, c: Config)
    requires |s.rows| == ENTRIES && c.Valid()
    ensures RingRun(s, start, arrivals, m, c).log.dispatched
         == s.log.dispatched + Flatten(Batches(s, start, arrivals, m, c))
  {
    if arrivals != [] {
      var n := |arrivals| - 1;
      var r, u := After(start, n, c.slotsPerFrame), RingRun(s, start, arrivals[..n], m, c);
      BatchesAreDispatched(s, start, arrivals[..n], m, c);
      SymbolIsBatches(u, r, arrivals[n], m, c);
      var before, last := Batches(s, start, arrivals[..n], m, c), SymbolBatches(u, r, arrivals[n], m, c);
      FlattenConcat(before, last);
      Regroup(s.log.dispatched, Flatten(before), Flatten(last));
    }
  }

  // ------------------------------------------------------------------ their sizes

  predicate RowsFit(s: Ring) {
    |s.rows| == ENTRIES && forall i :: 0 <= i < ENTRIES ==> |s.rows[i]| <= JOBS_PER_SYMBOL
  }

  lemma {:induction false} AddsFit(s: Ring, r: nat, jobs: seq<Job>, c: Config)
    requires RowsFit(s)
    ensures RowsFit(RingAdds(s, r, jobs, c))
  {
    if jobs != [] {
      AddsFit(s, r, jobs[..|jobs| - 1], c);
    }
  }

  lemma {:induction false} ReparkFits(s: Ring, ps: seq<Parked>, r: nat)
    requires RowsFit(s)
    ensures RowsFit(RingRepark(s, ps, r))
  {
    if ps != [] {
      ReparkFits(s, ps[..|ps| - 1], r);
    }
  }

  lemma {:induction false} RunFits(s: Ring, start: nat, arrivals: seq<seq<Job>>, m: Mode, c: Config)
    requires RowsFit(s) && c.Valid()
    ensures RowsFit(RingRun(s, start, arrivals, m, c))
  {
    if arrivals != [] {
      var n := |arrivals| - 1;
      var r, u := After(start, n, c.slotsPerFrame), RingRun(s, start, arrivals[..n], m, c);
      RunFits(s, start, arrivals[..n], m, c);
      AddsFit(u, r, arrivals[n], c);
      var t := RingAdds(u, r, arrivals[n], c);
      var i := r % ENTRIES;
      var ps := t.rows[i];
      ReparkFits(Ring(t.rows[i := []], t.log.(dispatched := t.log.dispatched + TickWorks(ps, r, m, c))), ps, r);
    }
  }

  predicate Sized(bs: seq<seq<Work>>) {
    forall i :: 0 <= i < |bs| ==> 1 <= |bs[i]| <= JOBS_PER_SYMBOL
  }

  lemma {:induction false} SinglesAre(ws: seq<Work>)
    ensures |Singles(ws)| == |ws| && forall i :: 0 <= i < |ws| ==> Singles(ws)[i] == [ws[i]]
  {
    if ws != [] {
      SinglesAre(ws[..|ws| - 1]);
    }
  }

  predicate AllSingle(bs: seq<seq<Work>>) {
    forall i :: 0 <= i < |bs| ==> |bs[i]| == 1
  }

  lemma {:induction false} AddsAreSingle(r: nat, jobs: seq<Job>, c: Config)
    ensures AllSingle(AddsBatches(r, jobs, c))
  {
    if jobs != [] {
      AddsAreSingle(r, jobs[..|jobs| - 1], c);
      SinglesAre(DueWorks(r, jobs[|jobs| - 1], c));
    }
  }

  lemma RowSized(ps: seq<Parked>, r: nat, m: Mode, c: Config)
    requires c.Valid() && |ps| <= JOBS_PER_SYMBOL
    ensures Sized(RowBatches(ps, r, m, c))
  {
    SinglesAre(TickWorks(ps, r, Passthrough, c));
  }

  /** Each hand-over has 1 to 10 jobs, as the FFT queue's items can hold. */
  lemma {:induction false} BatchesSized(s: Ring, start: nat, arrivals: seq<seq<Job>>, m: Mode, c: Config)
    requires RowsFit(s) && c.Valid()
    ensures Sized(Batches(s, start, arrivals, m, c))
  {
    if arrivals != [] {
      var n := |arrivals| - 1;
      var r, u := After(start, n, c.slotsPerFrame), RingRun(s, start, arrivals[..n], m, c);
      BatchesSized(s, start, arrivals[..n], m, c);
      AddsAreSingle(r, arrivals[n], c);
      RunFits(s, start, arrivals[..n], m, c);
      AddsFit(u, r, arrivals[n], c);
      RowSized(RingAdds(u, r, arrivals[n], c).rows[r % ENTRIES], r, m, c);
    }
  }

  // ------------------------------------------------------------------ one per symbol

  /** A symbol of a late arrival that is due already: the job begins 1 to 13 symbols before the reader's symbol,
      and symbol `i` of it is not after that. */
  predicate DueAlready(r: nat, j: Job, i: nat, c: Config) {
    var diff := SymbolDiff(JobAbs(j, c), r, c.slotsPerFrame);
    -14 < diff < 0 && i < j.numSymbols && diff + i <= 0
  }

  /** An arrival makes one call for each of its symbols that is due already, in order and by itself. */
  lemma LateCalls(r: nat, j: Job, i: nat, c: Config)
    ensures var calls := AddBatches(r, j, c);
            && (i < |calls| <==> DueAlready(r, j, i, c))
            && (i < |calls| ==> calls[i] == [Work(j.frame, j.slot, j.symbol + i, j)])
  {
    SinglesAre(DueWorks(r, j, c));
  }

  /** The calls for the pending jobs due at the reader's symbol: in codebook mode one call with all of them,
      under that symbol; in passthrough one call each, under the job's own coordinates. */
  predicate TickCalls(calls: seq<seq<Work>>, due: seq<Parked>, r: nat, m: Mode, c: Config)
    requires c.Valid()
  {
    match m
    case Codebook =>
      if due == [] then calls == []
      else
        && |calls| == 1 && |calls[0]| == |due|
        && forall k :: 0 <= k < |due| ==>
             calls[0][k] == Work(FrameOf(r, c.slotsPerFrame), SlotOf(r, c.slotsPerFrame), SymbolOf(r), due[k].job)
    case Passthrough =>
      && |calls| == |due|
      && forall k :: 0 <= k < |due| ==>
           var j := due[k].job;
           calls[k] == [Work(j.frame, j.slot, j.symbol + due[k].sent, j)]
  }

  lemma RowCalls(ps: seq<Parked>, r: nat, m: Mode, c: Config)
    requires c.Valid()
    ensures TickCalls(RowBatches(ps, r, m, c), ps, r, m, c)
  {
    SinglesAre(TickWorks(ps, r, Passthrough, c));
  }

  lemma TicksDue(s: Ring, f: Flat, r: nat, m: Mode, c: Config)
    requires c.Valid() && Matches(s, f, r, c)
    ensures TickCalls(TickBatches(s, r, m, c), DueAt(f.pending, r, c), r, m, c)
  {
    NowIsAfterZero(r, c);
    assert RowMatches(s.rows, f.pending, r, 0, c);
    RowCalls(s.rows[r % ENTRIES], r, m, c);
    if !IsUplink(r, c) {
      forall i | 0 <= i < |f.pending|
        ensures Due(f.pending[i], c) != r
      {
        DueBound(f.pending[i], c);
      }
      NoneDue(f.pending, r, c);
    }
  }

  /** At every symbol of every run the reader's calls are, first, one for each already due symbol of the late
      arrivals, and then those for the jobs the flat list has due at the symbol: in codebook mode exactly one,
      with all of them, if there are any. */
  lemma SymbolCalls(start: nat, arrivals: seq<seq<Job>>, next: seq<Job>, m: Mode, c: Config)
    returns (late: seq<seq<Work>>, ticked: seq<seq<Work>>)
    requires c.Valid() && start < Total(c.slotsPerFrame) && AllWellFormed(arrivals + [next], c)
    ensures Batches(EmptyRing, start, arrivals + [next], m, c)
         == Batches(EmptyRing, start, arrivals, m, c) + (late + ticked)
    ensures var r, f := After(start, |arrivals|, c.slotsPerFrame), FlatRun(EmptyFlat, start, arrivals, c);
            var g := FlatAdds(f, r, next, c);
            && AllSingle(late) && g.log.dispatched == f.log.dispatched + Flatten(late)
            && TickCalls(ticked, DueAt(g.pending, r, c), r, m, c)
  {
    var r, f := After(start, |arrivals|, c.slotsPerFrame), FlatRun(EmptyFlat, start, arrivals, c);
    var s := RingRun(EmptyRing, start, arrivals, m, c);
    RunExtends(start, arrivals, next, c);
    RingRefinesFlatList(start, arrivals, m, c);
    AddsMatch(s, f, r, next, c);
    late, ticked := AddsBatches(r, next, c), TickBatches(RingAdds(s, r, next, c), r, m, c);
    AddsAreSingle(r, next, c);
    AddsAreBatches(s, r, next, c);
    TicksDue(RingAdds(s, r, next, c), FlatAdds(f, r, next, c), r, m, c);
    assert (arrivals + [next])[..|arrivals|] == arrivals;
  }
}
