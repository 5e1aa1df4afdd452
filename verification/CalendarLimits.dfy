/** The calendar's limits in numbers: which arrivals it takes, and how many jobs a symbol holds. */
module CalendarLimits {
  import opened SymbolTime
  import opened CalendarModel
  import opened CalendarRefinement

  /** A job that begins `k` symbols ahead of the reader's symbol is parked whole up to 55 symbols ahead, and
      refused from 56 on. */
  lemma ArrivalAhead(s: Ring, f: Flat, r: nat, j: Job, k: nat, c: Config)
    requires c.Valid() && |s.rows| == ENTRIES && WellFormed(j, c) && r < Total(c.slotsPerFrame)
    requires k < Total(c.slotsPerFrame) / 2 && JobAbs(j, c) == After(r, k, c.slotsPerFrame)
    ensures k <= 55 ==>
              && RingAdd(s, r, j, c) == RingPark(s, Parked(j, 0), JobAbs(j, c))
              && FlatAdd(f, r, j, c) == FlatPark(f, Parked(j, 0), c)
    ensures k >= 56 ==>
              && RingAdd(s, r, j, c) == s.(log := s.log.(beyond := s.log.beyond + [j]))
              && FlatAdd(f, r, j, c) == f.(log := f.log.(beyond := f.log.beyond + [j]))
  {
    DiffAhead(r, j, k, c);
    assert s.log.dispatched + Works(j, 0, 0) == s.log.dispatched;
    assert f.log.dispatched + Works(j, 0, 0) == f.log.dispatched;
  }

  /** A job that began `k` symbols before the reader's symbol is taken up to 13 symbols late: its first `k + 1`
      symbols are dispatched at once and the next one is parked. From 14 on it is missed. */
  lemma ArrivalBehind(f: Flat, r: nat, j: Job, k: nat, c: Config)
    requires c.Valid() && WellFormed(j, c) && r < Total(c.slotsPerFrame)
    requires 1 <= k < Total(c.slotsPerFrame) / 2 && r == After(JobAbs(j, c), k, c.slotsPerFrame)
    ensures k <= 13 ==>
              var due := if k + 1 < j.numSymbols then k + 1 else j.numSymbols;
              var g := f.(log := f.log.(dispatched := f.log.dispatched + Works(j, 0, due)));
              FlatAdd(f, r, j, c) == if k + 1 < j.numSymbols then FlatPark(g, Parked(j, k + 1), c) else g
    ensures k >= 14 ==> FlatAdd(f, r, j, c) == f.(log := f.log.(missed := f.log.missed + [j]))
  {
    DiffBehind(r, j, k, c);
  }

  lemma DiffAhead(r: nat, j: Job, k: nat, c: Config)
    requires c.Valid() && WellFormed(j, c) && r < Total(c.slotsPerFrame)
    requires k < Total(c.slotsPerFrame) / 2 && JobAbs(j, c) == After(r, k, c.slotsPerFrame)
    ensures SymbolDiff(JobAbs(j, c), r, c.slotsPerFrame) == k
  {
    DueBound(Parked(j, 0), c);
    WrapOnce(r + k, c.slotsPerFrame);
    WrapOnce(r + k + Total(c.slotsPerFrame), c.slotsPerFrame);
    DiffIsCircular(JobAbs(j, c), r, k, c.slotsPerFrame);
  }

  lemma DiffBehind(r: nat, j: Job, k: int, c: Config)
    requires c.Valid() && WellFormed(j, c) && r < Total(c.slotsPerFrame)
    requires 1 <= k < Total(c.slotsPerFrame) / 2 && r == After(JobAbs(j, c), k, c.slotsPerFrame)
    ensures SymbolDiff(JobAbs(j, c), r, c.slotsPerFrame) == -k
  {
    DueBound(Parked(j, 0), c);
    WrapOnce(JobAbs(j, c) + k, c.slotsPerFrame);
    WrapOnce(r - k + Total(c.slotsPerFrame), c.slotsPerFrame);
    DiffIsCircular(JobAbs(j, c), r, -k, c.slotsPerFrame);
  }

  // ------------------------------------------------------------------ jobs of one symbol

  /** All jobs begin at the same symbol, `k` ahead of the reader's. */
  predicate BeginTogether(jobs: seq<Job>, r: nat, k: nat, c: Config)
    requires c.Valid()
  {
    forall i :: 0 <= i < |jobs| ==> WellFormed(jobs[i], c) && JobAbs(jobs[i], c) == After(r, k, c.slotsPerFrame)
  }

  /** The jobs, none of their symbols sent. */
  function Fresh(jobs: seq<Job>): seq<Parked> {
    if jobs == [] then [] else Fresh(jobs[..|jobs| - 1]) + [Parked(jobs[|jobs| - 1], 0)]
  }

  lemma {:induction false} FreshLength(jobs: seq<Job>)
    ensures |Fresh(jobs)| == |jobs|
  {
    if jobs != [] {
      FreshLength(jobs[..|jobs| - 1]);
    }
  }

  function FirstTen(jobs: seq<Job>): seq<Job> {
    if |jobs| <= 10 then jobs else jobs[..10]
  }

  function Others(jobs: seq<Job>): seq<Job> {
    if |jobs| <= 10 then [] else jobs[10..]
  }

  lemma OneMoreJob(jobs: seq<Job>)
    requires jobs != []
    ensures var init, j := jobs[..|jobs| - 1], jobs[|jobs| - 1];
            if |init| < 10 then FirstTen(jobs) == FirstTen(init) + [j] && Others(jobs) == Others(init) == []
            else FirstTen(jobs) == FirstTen(init) && Others(jobs) == Others(init) + [j]
  {
  }

  lemma FreshAppend(jobs: seq<Job>, j: Job)
    ensures Fresh(jobs + [j]) == Fresh(jobs) + [Parked(j, 0)]
  {
    assert (jobs + [j])[..|jobs|] == jobs;
  }

  /** Of the jobs that begin at one symbol the first ten are parked there, and every further one is cut. */
  lemma {:induction false} TenFit(r: nat, jobs: seq<Job>, k: nat, c: Config)
    requires c.Valid() && r < Total(c.slotsPerFrame) && k <= 55 && BeginTogether(jobs, r, k, c)
    ensures var t := RingAdds(EmptyRing, r, jobs, c);
            && t.rows[After(r, k, c.slotsPerFrame) % ENTRIES] == Fresh(FirstTen(jobs))
            && t.log == EmptyLog.(cut := Fresh(Others(jobs)))
  {
    if jobs != [] {
      var init, j := jobs[..|jobs| - 1], jobs[|jobs| - 1];
      TenFit(r, init, k, c);
      ArrivalAhead(RingAdds(EmptyRing, r, init, c), EmptyFlat, r, j, k, c);
      OneMoreJob(jobs);
      FreshLength(FirstTen(init));
      FreshAppend(FirstTen(init), j);
      FreshAppend(Others(init), j);
    }
  }

  /** When their symbol comes, exactly the first ten are dispatched, in either mode. */
  lemma TenAreDispatched(r: nat, jobs: seq<Job>, m: Mode, c: Config)
    requires c.Valid() && r < Total(c.slotsPerFrame) && BeginTogether(jobs, r, 0, c) && jobs != []
    ensures RingSymbol(EmptyRing, r, jobs, m, c).log.dispatched == Works0(FirstTen(jobs))
  {
    NowIsAfterZero(r, c);
    TenFit(r, jobs, 0, c);
    DueBound(Parked(jobs[0], 0), c);
    var t := RingAdds(EmptyRing, r, jobs, c);
    var i, ps := r % ENTRIES, Fresh(FirstTen(jobs));
    assert t.rows[i] == ps;
    ReparkKeeps(Ring(t.rows[i := []], t.log.(dispatched := t.log.dispatched + TickWorks(ps, r, m, c))), ps, r);
    FirstSymbols(FirstTen(jobs), r, m, c);
    assert [] + TickWorks(ps, r, m, c) == TickWorks(ps, r, m, c);
  }

  /** The first symbols of the jobs. */
  function Works0(jobs: seq<Job>): seq<Work> {
    if jobs == [] then []
    else
      var j := jobs[|jobs| - 1];
      Works0(jobs[..|jobs| - 1]) + [Work(j.frame, j.slot, j.symbol, j)]
  }

  lemma {:induction false} FirstSymbols(jobs: seq<Job>, r: nat, m: Mode, c: Config)
    requires c.Valid() && forall i :: 0 <= i < |jobs| ==> WellFormed(jobs[i], c) && JobAbs(jobs[i], c) == r
    ensures TickWorks(Fresh(jobs), r, m, c) == Works0(jobs)
  {
    if jobs != [] {
      var init, j := jobs[..|jobs| - 1], jobs[|jobs| - 1];
      FirstSymbols(init, r, m, c);
      DueBound(Parked(j, 0), c);
      assert TickWorks(Fresh(jobs), r, m, c) == TickWorks(Fresh(init), r, m, c) + [TickWork(Parked(j, 0), r, m, c)];
    }
  }
}
