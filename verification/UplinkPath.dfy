/** The calendar and the worker pipeline together: what becomes of every job-symbol the calendar
    dispatches. */
module UplinkPath {
  import opened SymbolTime
  import opened CalendarModel
  import opened CalendarRefinement
  import opened CalendarJobs
  import opened CalendarBatches
  import opened WorkPipeline
  import opened PipelineSafety
  import opened PipelineProgress
  import opened PushLoop
  import opened PushLoopProgress
  import opened HandOvers
  import PushLoopRuns

  function Handed(m: Move): seq<Work> {
    match m
    case Hand(_, ws) => ws
    case Other(HandBeam(_, w)) => [w]
    case _ => []
  }

  /** The job-symbols the dispatchers hand to the pipeline, in order. */
  function HandedOver(ms: seq<Move>): seq<Work> {
    if ms == [] then [] else HandedOver(ms[..|ms| - 1]) + Handed(ms[|ms| - 1])
  }

  lemma MoveHands(c: Code, m: Move)
    requires Allowed(c, m)
    ensures Moved(c, m).base.handed == c.base.handed + multiset(Handed(m))
  {
  }

  lemma {:induction false} HandedIsHandedOver(fftDepth: nat, beamDepth: nat, cs: seq<Code>, ms: seq<Move>, n: nat)
    requires IsCodeRun(cs, ms) && cs[0] == Initial(fftDepth, beamDepth) && n <= |ms|
    ensures cs[n].base.handed == multiset(HandedOver(ms[..n]))
  {
    if n > 0 {
      HandedIsHandedOver(fftDepth, beamDepth, cs, ms, n - 1);
      assert ms[..n][..n - 1] == ms[..n - 1];
      MoveHands(cs[n - 1], ms[n - 1]);
    }
  }

  // ------------------------------------------------------------------ one job's symbols in the log

  /** The work carries its job's own frame and slot, and the job if it carries its tag. */
  predicate WorkOf(w: Work, j: Job) {
    w.frame == w.job.frame && w.slot == w.job.slot && (w.job.tag == j.tag ==> w.job == j)
  }

  /** Nothing in the list or the log carries the job's tag but the job. */
  predicate Marked(f: Flat, j: Job) {
    && (forall i :: 0 <= i < |f.log.dispatched| ==> WorkOf(f.log.dispatched[i], j))
    && (forall i :: 0 <= i < |f.pending| ==> f.pending[i].job.tag == j.tag ==> f.pending[i].job == j)
  }

  lemma {:induction false} AddsKeepMarks(f: Flat, r: nat, jobs: seq<Job>, j: Job, c: Config)
    requires Marked(f, j) && forall i :: 0 <= i < |jobs| ==> jobs[i].tag == j.tag ==> jobs[i] == j
    ensures Marked(FlatAdds(f, r, jobs, c), j)
  {
    if jobs != [] {
      AddsKeepMarks(f, r, jobs[..|jobs| - 1], j, c);
    }
  }

  lemma {:induction false} ReparkKeepsMarks(f: Flat, ps: seq<Parked>, j: Job, c: Config)
    requires Marked(f, j) && forall i :: 0 <= i < |ps| ==> ps[i].job.tag == j.tag ==> ps[i].job == j
    ensures Marked(FlatRepark(f, ps, c), j)
  {
    if ps != [] {
      ReparkKeepsMarks(f, ps[..|ps| - 1], j, c);
    }
  }

  lemma TickKeepsMarks(f: Flat, r: nat, j: Job, c: Config)
    requires c.Valid() && Marked(f, j)
    ensures Marked(FlatTick(f, r, c), j)
  {
    var ps := DueAt(f.pending, r, c);
    DueAtSound(f.pending, r, c);
    NotDueAtSubset(f.pending, r, c);
    forall i | 0 <= i < |ps|
      ensures ps[i].job.tag == j.tag ==> ps[i].job == j
    {
      assert ps[i] in f.pending;
    }
    var t := Flat(NotDueAt(f.pending, r, c),
                  f.log.(dispatched := f.log.dispatched + TickWorks(ps, r, Passthrough, c)));
    forall i | 0 <= i < |t.pending|
      ensures t.pending[i].job.tag == j.tag ==> t.pending[i].job == j
    {
      assert t.pending[i] in f.pending;
    }
    ReparkKeepsMarks(t, ps, j, c);
  }

  lemma {:induction false} RunKeepsMarks(start: nat, arrivals: seq<seq<Job>>, j: Job, c: Config)
    requires c.Valid()
    requires forall a, b :: 0 <= a < |arrivals| && 0 <= b < |arrivals[a]| ==>
               arrivals[a][b].tag == j.tag ==> arrivals[a][b] == j
    ensures Marked(FlatRun(EmptyFlat, start, arrivals, c), j)
  {
    if arrivals != [] {
      var n := |arrivals| - 1;
      RunKeepsMarks(start, arrivals[..n], j, c);
      var f, r := FlatRun(EmptyFlat, start, arrivals[..n], c), After(start, n, c.slotsPerFrame);
      AddsKeepMarks(f, r, arrivals[n], j, c);
      TickKeepsMarks(FlatAdds(f, r, arrivals[n], c), r, j, c);
    }
  }

  /** Symbol `i` of a job. */
  function SymbolWork(j: Job, i: nat): Work {
    Work(j.frame, j.slot, j.symbol + i, j)
  }

  lemma {:induction false} CountsOffsets(ws: seq<Work>, j: Job, i: nat)
    requires forall k :: 0 <= k < |ws| ==> WorkOf(ws[k], j)
    ensures multiset(ws)[SymbolWork(j, i)] == multiset(Offsets(ws, j.tag))[i]
  {
    if ws != [] {
      var init, w := ws[..|ws| - 1], ws[|ws| - 1];
      assert ws == init + [w];
      CountsOffsets(init, j, i);
    }
  }

  lemma {:induction false} UpToOnce(n: nat, i: nat)
    ensures multiset(UpTo(n))[i] == if i < n then 1 else 0
  {
    if n > 0 {
      assert UpTo(n) == UpTo(n - 1) + [n - 1];
      UpToOnce(n - 1, i);
    }
  }

  // ------------------------------------------------------------------ calendar and pipeline together

  predicate NoDirectHands(ms: seq<Move>) {
    forall i :: 0 <= i < |ms| ==> !(ms[i].Other? && ms[i].event.HandBeam?)
  }

  /** The pipeline's run is handed what the calendar dispatches: in passthrough each job-symbol goes to the beam
      queue; in codebook mode the batches go to the FFT queue, slot after slot. */
  ghost predicate FedBy(ms: seq<Move>, start: nat, arrivals: seq<seq<Job>>, m: Mode, c: Config, fftDepth: nat)
    requires c.Valid() && fftDepth > 0
  {
    match m
    case Passthrough =>
      Stream(ms) == [] && HandedOver(ms) == RingRun(EmptyRing, start, arrivals, Passthrough, c).log.dispatched
    case Codebook =>
      Stream(ms) == Batches(EmptyRing, start, arrivals, Codebook, c) && SlotsInOrder(ms, fftDepth) && NoDirectHands(ms)
  }

  /** No batch of the calendar has more jobs than an earlier one to the same FFT slot; passthrough has none. */
  ghost predicate Tame(start: nat, arrivals: seq<seq<Job>>, m: Mode, c: Config, fftDepth: nat)
    requires c.Valid() && fftDepth > 0
  {
    m.Codebook? ==> Unrising(Batches(EmptyRing, start, arrivals, Codebook, c), fftDepth)
  }

  lemma {:induction false} StreamIsHandedOver(ms: seq<Move>)
    requires NoDirectHands(ms)
    ensures HandedOver(ms) == Flatten(Stream(ms))
  {
    if ms != [] {
      var init, m := ms[..|ms| - 1], ms[|ms| - 1];
      StreamIsHandedOver(init);
      FlattenConcat(Stream(init), if m.Hand? then [m.works] else []);
      assert m.Hand? ==> [m.works][..0] == [];
    }
  }

  lemma {:induction false} NoHandsInOrder(ms: seq<Move>, depth: nat)
    requires depth > 0 && Stream(ms) == []
    ensures SlotsInOrder(ms, depth)
  {
    if ms != [] {
      NoHandsInOrder(ms[..|ms| - 1], depth);
    }
  }

  lemma FedIsDispatched(ms: seq<Move>, start: nat, arrivals: seq<seq<Job>>, m: Mode, c: Config, fftDepth: nat)
    requires c.Valid() && fftDepth > 0 && FedBy(ms, start, arrivals, m, c, fftDepth)
    ensures HandedOver(ms) == RingRun(EmptyRing, start, arrivals, m, c).log.dispatched
  {
    if m.Codebook? {
      StreamIsHandedOver(ms);
      BatchesAreDispatched(EmptyRing, start, arrivals, Codebook, c);
    }
  }

  /** Fed by the calendar, every run of the pipeline is safe in passthrough, and in codebook mode if the batches
      are tame. */
  lemma FedIsSafe(fftDepth: nat, beamDepth: nat, cs: seq<Code>, ms: seq<Move>, start: nat, arrivals: seq<seq<Job>>,
                  m: Mode, c: Config)
    requires IsCodeRun(cs, ms) && fftDepth > 0 && cs[0] == Initial(fftDepth, beamDepth) && c.Valid()
    requires FedBy(ms, start, arrivals, m, c, fftDepth) && Tame(start, arrivals, m, c, fftDepth)
    ensures NoneAstray(ms) && CodeInv(cs[|ms|]) && Conserved(cs[|ms|].base)
  {
    if m.Passthrough? {
      NoHandsInOrder(ms, fftDepth);
    }
    UnrisingIsSafe(fftDepth, beamDepth, cs, ms, Stream(ms));
  }

  /** For every run of the calendar in codebook mode and any queue depths: the pipeline it feeds is safe in all
      interleavings if and only if no batch has more jobs than an earlier one to the same FFT slot. */
  lemma CodebookIsSafeIffTame(start: nat, arrivals: seq<seq<Job>>, c: Config, z: PushLoopRuns.Depths)
    requires c.Valid() && z.Valid()
    ensures PushLoopRuns.AlwaysSafe(Batches(EmptyRing, start, arrivals, Codebook, c), z)
       <==> Tame(start, arrivals, Codebook, c, z.fft)
  {
    BatchesSized(EmptyRing, start, arrivals, Codebook, c);
    PushLoopRuns.SafeIffUnrising(Batches(EmptyRing, start, arrivals, Codebook, c), z);
  }

  /** For every run of the calendar and every interleaving of the pipeline that is handed what the calendar
      dispatches, in passthrough always and in codebook mode with tame batches: each symbol of a job is
      received once, refused once because its push met a slot in use, or queued once if it belongs to the
      dispatched prefix of the job, and none of these otherwise; and the rest of the job is accounted for by
      the calendar. */
  lemma EverySymbolHasOneFate(start: nat, arrivals: seq<seq<Job>>, n: nat, k: nat, j: Job, m: Mode, c: Config,
                              fftDepth: nat, beamDepth: nat, cs: seq<Code>, ms: seq<Move>, i: nat)
    requires c.Valid() && start < Total(c.slotsPerFrame) && AllWellFormed(arrivals, c) && ArrivesAt(arrivals, n, k, j)
    requires IsCodeRun(cs, ms) && fftDepth > 0 && cs[0] == Initial(fftDepth, beamDepth)
    requires FedBy(ms, start, arrivals, m, c, fftDepth) && Tame(start, arrivals, m, c, fftDepth)
    ensures var s, w := cs[|ms|].base, SymbolWork(j, i);
            var sent := |Offsets(HandedOver(ms), j.tag)|;
            && s.dropped[w] == MoveRefusals(cs, ms, |ms|, w)
            && s.received[w] + s.dropped[w] + InFft(s.fft, w) + InBeam(s.tasks, w) == (if i < sent then 1 else 0)
            && Accounted(FlatRun(EmptyFlat, start, arrivals, c), j)
  {
    assert ms[..|ms|] == ms;
    HandedIsHandedOver(fftDepth, beamDepth, cs, ms, |ms|);
    FedIsSafe(fftDepth, beamDepth, cs, ms, start, arrivals, m, c);
    CodeDropsMetOwner(fftDepth, beamDepth, cs, ms, |ms|, SymbolWork(j, i));
    assert ConservedFor(cs[|ms|].base, SymbolWork(j, i));
    FedIsDispatched(ms, start, arrivals, m, c, fftDepth);
    EveryJobIsAccounted(start, arrivals, n, k, j, m, c);
    RunKeepsMarks(start, arrivals, j, c);
    CountsOffsets(HandedOver(ms), j, i);
    UpToOnce(|Offsets(HandedOver(ms), j.tag)|, i);
  }

  /** And once everything is handed over, the workers come to an end under every schedule, with all slots free
      and each symbol of the dispatched prefix received once, or refused once because its push met a slot in
      use. */
  lemma EverySymbolIsReceivedOrRefused(start: nat, arrivals: seq<seq<Job>>, n: nat, k: nat, j: Job, m: Mode, c: Config,
                                       z: PushLoopRuns.Depths, cs: seq<Code>, ms: seq<Move>, done: nat, i: nat)
    requires c.Valid() && start < Total(c.slotsPerFrame) && AllWellFormed(arrivals, c) && ArrivesAt(arrivals, n, k, j)
    requires IsCodeRun(cs, ms) && z.Valid() && cs[0] == Initial(z.fft, z.beam)
    requires FedBy(ms, start, arrivals, m, c, z.fft) && Tame(start, arrivals, m, c, z.fft)
    requires done <= |ms| && forall a :: done <= a < |ms| ==> ByWorkers(ms[a])
    ensures |ms| - done <= MovesLeft(cs[done])
    ensures var s, w := cs[|ms|].base, SymbolWork(j, i);
            var sent := |Offsets(HandedOver(ms), j.tag)|;
            (forall a: Move :: ByWorkers(a) ==> !Allowed(cs[|ms|], a)) ==>
              && Quiescent(s)
              && s.received[w] + MoveRefusals(cs, ms, |ms|, w) == (if i < sent then 1 else 0)
  {
    var w := SymbolWork(j, i);
    FedIsSafe(z.fft, z.beam, cs, ms, start, arrivals, m, c);
    TasksFinish(z.fft, z.beam, cs, ms, done, w);
    EverySymbolHasOneFate(start, arrivals, n, k, j, m, c, z.fft, z.beam, cs, ms, i);
    if Quiescent(cs[|ms|].base) {
      QuiescentHoldsNothing(cs[|ms|].base, w);
    }
  }
}
