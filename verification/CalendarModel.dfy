/** The O-RU uplink job calendar as values: the ring of 4 x 14 symbol entries, the flat pending list
    it replaced, and the run of both under the south reader's symbol loop. */
module CalendarModel {
  import opened SymbolTime

  const CAL_SLOTS := 4
  const JOBS_PER_SYMBOL := 10
  const ENTRIES := CAL_SLOTS * SYMBOLS

  /** An uplink job as declared on the C-plane. `tag` stands for the fields the calendar only copies
      (response payload, antenna or beam stream, beam and PRB range). */
  datatype Job = Job(tag: nat, frame: nat, slot: nat, symbol: nat, numSymbols: nat)

  /** A job waiting for its next symbol; `sent` of its symbols have been dispatched. */
  datatype Parked = Parked(job: Job, sent: nat)

  /** One job-symbol handed to the worker pipeline. */
  datatype Work = Work(frame: nat, slot: nat, symbol: nat, job: Job)

  datatype Mode = Passthrough | Codebook

  /** Numerology and TDD pattern of the carrier. */
  datatype Config = Config(slotsPerFrame: nat, uplink: seq<bool>) {
    predicate Valid() {
      slotsPerFrame > 0 && |uplink| == slotsPerFrame
    }
  }

  /** What the reader has done so far, apart from the jobs still parked. */
  datatype Log = Log(dispatched: seq<Work>, cut: seq<Parked>, missed: seq<Job>, beyond: seq<Job>)

  datatype Ring = Ring(rows: seq<seq<Parked>>, log: Log)

  datatype Flat = Flat(pending: seq<Parked>, log: Log)

  const EmptyLog: Log := Log([], [], [], [])
  function EmptyRows(n: nat): (rows: seq<seq<Parked>>)
    ensures |rows| == n && forall i :: 0 <= i < n ==> rows[i] == []
  {
    if n == 0 then [] else EmptyRows(n - 1) + [[]]
  }

  const EmptyRing: Ring := Ring(EmptyRows(ENTRIES), EmptyLog)
  const EmptyFlat: Flat := Flat([], EmptyLog)

  // ------------------------------------------------------------------ jobs

  /** What the reader relies on: the job lies inside one uplink or mixed slot. */
  predicate WellFormed(j: Job, c: Config)
    requires c.Valid()
  {
    && InFrame(j.frame, j.slot, j.symbol, c.slotsPerFrame)
    && 1 <= j.numSymbols <= SYMBOLS - j.symbol
    && c.uplink[j.slot]
  }

  function JobAbs(j: Job, c: Config): nat {
    AbsSymbol(j.frame, j.slot, j.symbol, c.slotsPerFrame)
  }

  function Due(p: Parked, c: Config): nat {
    JobAbs(p.job, c) + p.sent
  }

  /** The dispatch of symbols `sent`, ..., `sent + count - 1` of a job under its own coordinates. */
  function Works(j: Job, sent: nat, count: nat): seq<Work>
  {
    seq(count, k requires 0 <= k < count => Work(j.frame, j.slot, j.symbol + sent + k, j))
  }

  function DueSymbols(diff: int, numSymbols: nat): nat {
    var due := if diff < 0 then -diff + 1 else 0;
    if due > numSymbols then numSymbols else due
  }

  // ------------------------------------------------------------------ the ring

  function RingPark(s: Ring, p: Parked, abs: nat): (r: Ring)
    requires |s.rows| == ENTRIES
    ensures |r.rows| == ENTRIES
  {
    var i := abs % ENTRIES;
    if |s.rows[i]| < JOBS_PER_SYMBOL then s.(rows := s.rows[i := s.rows[i] + [p]])
    else s.(log := s.log.(cut := s.log.cut + [p]))
  }

  function RingAdd(s: Ring, r: nat, j: Job, c: Config): (t: Ring)
    requires |s.rows| == ENTRIES
    ensures |t.rows| == ENTRIES
  {
    var abs := JobAbs(j, c);
    var diff := SymbolDiff(abs, r, c.slotsPerFrame);
    if diff <= -SYMBOLS then s.(log := s.log.(missed := s.log.missed + [j]))
    else if diff >= ENTRIES then s.(log := s.log.(beyond := s.log.beyond + [j]))
    else
      var due := DueSymbols(diff, j.numSymbols);
      var t := s.(log := s.log.(dispatched := s.log.dispatched + Works(j, 0, due)));
      if due < j.numSymbols then RingPark(t, Parked(j, due), abs + due) else t
  }

  /** The work one parked job asks for at reader symbol `r`: passthrough uses the job's own
      coordinates, codebook batches under the decoded reader symbol. */
  function TickWork(p: Parked, r: nat, m: Mode, c: Config): Work
    requires c.Valid()
  {
    match m
    case Passthrough => Work(p.job.frame, p.job.slot, p.job.symbol + p.sent, p.job)
    case Codebook => Work(FrameOf(r, c.slotsPerFrame), SlotOf(r, c.slotsPerFrame), SymbolOf(r), p.job)
  }

  function TickWorks(ps: seq<Parked>, r: nat, m: Mode, c: Config): seq<Work>
    requires c.Valid()
  {
    seq(|ps|, k requires 0 <= k < |ps| => TickWork(ps[k], r, m, c))
  }

  /** Re-park the unfinished jobs of `ps`, first to last, on the symbol after `r`. */
  function RingRepark(s: Ring, ps: seq<Parked>, r: nat): (t: Ring)
    requires |s.rows| == ENTRIES
    ensures |t.rows| == ENTRIES
  {
    if ps == [] then s
    else
      var t := RingRepark(s, ps[..|ps| - 1], r);
      var p := ps[|ps| - 1];
      if p.sent + 1 < p.job.numSymbols then RingPark(t, Parked(p.job, p.sent + 1), r + 1) else t
  }

  /** Re-parking touches the rows and the overflow record only. */
  lemma {:induction false} ReparkKeeps(s: Ring, ps: seq<Parked>, r: nat)
    requires |s.rows| == ENTRIES
    ensures var t := RingRepark(s, ps, r);
            t.log == s.log.(cut := t.log.cut)
  {
    if ps != [] {
      ReparkKeeps(s, ps[..|ps| - 1], r);
    }
  }

  function RingTick(s: Ring, r: nat, m: Mode, c: Config): (t: Ring)
    requires |s.rows| == ENTRIES && c.Valid()
    ensures |t.rows| == ENTRIES
  {
    var i := r % ENTRIES;
    var ps := s.rows[i];
    var t := Ring(s.rows[i := []], s.log.(dispatched := s.log.dispatched + TickWorks(ps, r, m, c)));
    RingRepark(t, ps, r)
  }

  function RingAdds(s: Ring, r: nat, jobs: seq<Job>, c: Config): (t: Ring)
    requires |s.rows| == ENTRIES
    ensures |t.rows| == ENTRIES
  {
    if jobs == [] then s
    else RingAdd(RingAdds(s, r, jobs[..|jobs| - 1], c), r, jobs[|jobs| - 1], c)
  }

  predicate IsUplink(r: nat, c: Config)
    requires c.Valid()
  {
    SlotOf(r, c.slotsPerFrame) < c.slotsPerFrame && c.uplink[SlotOf(r, c.slotsPerFrame)]
  }

  /** One symbol of the south reader: drain the arrived jobs, then tick in uplink and mixed slots. */
  function RingSymbol(s: Ring, r: nat, jobs: seq<Job>, m: Mode, c: Config): (t: Ring)
    requires |s.rows| == ENTRIES && c.Valid()
    ensures |t.rows| == ENTRIES
  {
    var t := RingAdds(s, r, jobs, c);
    if IsUplink(r, c) then RingTick(t, r, m, c) else t
  }

  /** The reader after `|arrivals|` symbols, the first of them at absolute symbol `start`. */
  function RingRun(s: Ring, start: nat, arrivals: seq<seq<Job>>, m: Mode, c: Config): (t: Ring)
    requires |s.rows| == ENTRIES && c.Valid()
    ensures |t.rows| == ENTRIES
  {
    if arrivals == [] then s
    else
      var n := |arrivals| - 1;
      RingSymbol(RingRun(s, start, arrivals[..n], m, c), After(start, n, c.slotsPerFrame), arrivals[n], m, c)
  }

  // ------------------------------------------------------------------ the flat list

  /** The pending jobs due at one symbol, in the order they were parked. */
  function DueAt(ps: seq<Parked>, d: nat, c: Config): seq<Parked> {
    if ps == [] then []
    else
      var init := DueAt(ps[..|ps| - 1], d, c);
      if Due(ps[|ps| - 1], c) == d then init + [ps[|ps| - 1]] else init
  }

  function NotDueAt(ps: seq<Parked>, d: nat, c: Config): seq<Parked> {
    if ps == [] then []
    else
      var init := NotDueAt(ps[..|ps| - 1], d, c);
      if Due(ps[|ps| - 1], c) == d then init else init + [ps[|ps| - 1]]
  }

  function FlatPark(s: Flat, p: Parked, c: Config): Flat {
    if |DueAt(s.pending, Due(p, c), c)| < JOBS_PER_SYMBOL then s.(pending := s.pending + [p])
    else s.(log := s.log.(cut := s.log.cut + [p]))
  }

  function FlatAdd(s: Flat, r: nat, j: Job, c: Config): Flat {
    var diff := SymbolDiff(JobAbs(j, c), r, c.slotsPerFrame);
    if diff <= -SYMBOLS then s.(log := s.log.(missed := s.log.missed + [j]))
    else if diff >= ENTRIES then s.(log := s.log.(beyond := s.log.beyond + [j]))
    else
      var due := DueSymbols(diff, j.numSymbols);
      var t := s.(log := s.log.(dispatched := s.log.dispatched + Works(j, 0, due)));
      if due < j.numSymbols then FlatPark(t, Parked(j, due), c) else t
  }

  function FlatRepark(s: Flat, ps: seq<Parked>, c: Config): Flat {
    if ps == [] then s
    else
      var t := FlatRepark(s, ps[..|ps| - 1], c);
      var p := ps[|ps| - 1];
      if p.sent + 1 < p.job.numSymbols then FlatPark(t, Parked(p.job, p.sent + 1), c) else t
  }

  /** Dispatch exactly the pending jobs due now and queue their continuations. */
  function FlatTick(s: Flat, r: nat, c: Config): Flat
    requires c.Valid()
  {
    var ps := DueAt(s.pending, r, c);
    var t := Flat(NotDueAt(s.pending, r, c),
                  s.log.(dispatched := s.log.dispatched + TickWorks(ps, r, Passthrough, c)));
    FlatRepark(t, ps, c)
  }

  function FlatAdds(s: Flat, r: nat, jobs: seq<Job>, c: Config): Flat {
    if jobs == [] then s
    else FlatAdd(FlatAdds(s, r, jobs[..|jobs| - 1], c), r, jobs[|jobs| - 1], c)
  }

  /** The flat list ticks on every symbol: it has no slot pattern and no window. */
  function FlatSymbol(s: Flat, r: nat, jobs: seq<Job>, c: Config): Flat
    requires c.Valid()
  {
    FlatTick(FlatAdds(s, r, jobs, c), r, c)
  }

  function FlatRun(s: Flat, start: nat, arrivals: seq<seq<Job>>, c: Config): Flat
    requires c.Valid()
  {
    if arrivals == [] then s
    else
      var n := |arrivals| - 1;
      FlatSymbol(FlatRun(s, start, arrivals[..n], c), After(start, n, c.slotsPerFrame), arrivals[n], c)
  }
}
