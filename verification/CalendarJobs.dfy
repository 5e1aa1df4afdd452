/** The life of one uplink job in the calendar: which of its symbols are dispatched, when, and how a
    job that is cut short is accounted for. */
module CalendarJobs {
  import opened SymbolTime
  import opened CalendarModel
  import opened CalendarRefinement

  /** The offsets, within the job, of the dispatched symbols carrying this tag, in dispatch order. */
  function Offsets(ws: seq<Work>, tag: nat): seq<int> {
    if ws == [] then []
    else
      var init := Offsets(ws[..|ws| - 1], tag);
      var w := ws[|ws| - 1];
      if w.job.tag == tag then init + [w.symbol - w.job.symbol] else init
  }

  function UpTo(n: nat): seq<int> {
    seq(n, i => i)
  }

  function ParkedWith(ps: seq<Parked>, tag: nat): seq<Parked> {
    if ps == [] then []
    else
      var init := ParkedWith(ps[..|ps| - 1], tag);
      if ps[|ps| - 1].job.tag == tag then init + [ps[|ps| - 1]] else init
  }

  function JobsWith(js: seq<Job>, tag: nat): seq<Job> {
    if js == [] then []
    else
      var init := JobsWith(js[..|js| - 1], tag);
      if js[|js| - 1].tag == tag then init + [js[|js| - 1]] else init
  }

  /** No job with this tag has arrived. */
  ghost predicate Unseen(f: Flat, tag: nat) {
    && Offsets(f.log.dispatched, tag) == []
    && ParkedWith(f.pending, tag) == []
    && ParkedWith(f.log.cut, tag) == []
    && JobsWith(f.log.missed, tag) == []
    && JobsWith(f.log.beyond, tag) == []
  }

  /** The dispatched symbols are the first `k` of the job, each once and ascending, and exactly one
      of these holds: finished, parked at symbol `k`, cut short at `k` by one overflow, or refused on
      arrival as too late or too early. */
  ghost predicate Accounted(f: Flat, j: Job) {
    var k := |Offsets(f.log.dispatched, j.tag)|;
    var parked := ParkedWith(f.pending, j.tag);
    var cut := ParkedWith(f.log.cut, j.tag);
    var late := JobsWith(f.log.missed, j.tag);
    var early := JobsWith(f.log.beyond, j.tag);
    && Offsets(f.log.dispatched, j.tag) == UpTo(k)
    && k <= j.numSymbols
    && ( || (k == j.numSymbols && parked == [] && cut == [] && late == [] && early == [])
         || (k < j.numSymbols && parked == [Parked(j, k)] && cut == [] && late == [] && early == [])
         || (k < j.numSymbols && parked == [] && cut == [Parked(j, k)] && late == [] && early == [])
         || (k == 0 && parked == [] && cut == [] && late == [j] && early == [])
         || (k == 0 && parked == [] && cut == [] && late == [] && early == [j]))
  }

  // ------------------------------------------------------------------ filters and appends

  lemma {:induction false} OffsetsConcat(a: seq<Work>, b: seq<Work>, tag: nat)
    ensures Offsets(a + b, tag) == Offsets(a, tag) + Offsets(b, tag)
  {
    if b == [] {
      assert a + b == a;
    } else {
      OffsetsConcat(a, b[..|b| - 1], tag);
      assert (a + b)[..|a + b| - 1] == a + b[..|b| - 1];
    }
  }

  lemma ParkedAppend(ps: seq<Parked>, p: Parked, tag: nat)
    ensures ParkedWith(ps + [p], tag) == ParkedWith(ps, tag) + (if p.job.tag == tag then [p] else [])
  {
  }

  lemma JobsAppend(js: seq<Job>, j: Job, tag: nat)
    ensures JobsWith(js + [j], tag) == JobsWith(js, tag) + (if j.tag == tag then [j] else [])
  {
  }

  lemma {:induction false} OffsetsOfWorks(j: Job, count: nat, tag: nat)
    ensures Offsets(Works(j, 0, count), tag) == if j.tag == tag then UpTo(count) else []
  {
    if count > 0 {
      assert Works(j, 0, count)[..count - 1] == Works(j, 0, count - 1);
      OffsetsOfWorks(j, count - 1, tag);
    }
  }

  lemma {:induction false} OffsetsOfTick(ps: seq<Parked>, r: nat, tag: nat, c: Config)
    requires c.Valid()
    ensures Offsets(TickWorks(ps, r, Passthrough, c), tag)
         == seq(|ParkedWith(ps, tag)|, i requires 0 <= i < |ParkedWith(ps, tag)| => ParkedWith(ps, tag)[i].sent)
  {
    if ps != [] {
      var n := |ps| - 1;
      assert TickWorks(ps, r, Passthrough, c)[..n] == TickWorks(ps[..n], r, Passthrough, c);
      OffsetsOfTick(ps[..n], r, tag, c);
    }
  }

  /** Where the last parked job goes when the list is split by due symbol. */
  lemma SplitLast(ps: seq<Parked>, d: nat, tag: nat, c: Config)
    requires ps != []
    ensures var init, p := ps[..|ps| - 1], ps[|ps| - 1];
            var own := if p.job.tag == tag then [p] else [];
            && ParkedWith(ps, tag) == ParkedWith(init, tag) + own
            && ParkedWith(DueAt(ps, d, c), tag)
               == ParkedWith(DueAt(init, d, c), tag) + (if Due(p, c) == d then own else [])
            && ParkedWith(NotDueAt(ps, d, c), tag)
               == ParkedWith(NotDueAt(init, d, c), tag) + (if Due(p, c) == d then [] else own)
  {
    var init, p := ps[..|ps| - 1], ps[|ps| - 1];
    ParkedAppend(DueAt(init, d, c), p, tag);
    ParkedAppend(NotDueAt(init, d, c), p, tag);
  }

  lemma {:induction false} SplitNone(ps: seq<Parked>, d: nat, tag: nat, c: Config)
    requires ParkedWith(ps, tag) == []
    ensures ParkedWith(DueAt(ps, d, c), tag) == [] && ParkedWith(NotDueAt(ps, d, c), tag) == []
  {
    if ps != [] {
      SplitLast(ps, d, tag, c);
      SplitNone(ps[..|ps| - 1], d, tag, c);
    }
  }

  /** Splitting the list by due symbol moves a uniquely tagged job to exactly one side. */
  lemma {:induction false} SplitOne(ps: seq<Parked>, d: nat, p: Parked, c: Config)
    requires ParkedWith(ps, p.job.tag) == [p]
    ensures if Due(p, c) == d
            then ParkedWith(DueAt(ps, d, c), p.job.tag) == [p] && ParkedWith(NotDueAt(ps, d, c), p.job.tag) == []
            else ParkedWith(DueAt(ps, d, c), p.job.tag) == [] && ParkedWith(NotDueAt(ps, d, c), p.job.tag) == [p]
  {
    var tag := p.job.tag;
    var init, last := ps[..|ps| - 1], ps[|ps| - 1];
    SplitLast(ps, d, tag, c);
    if last.job.tag == tag {
      assert [p][|ParkedWith(init, tag)|] == last;
      SplitNone(init, d, tag, c);
    } else {
      SplitOne(init, d, p, c);
    }
  }

  // ------------------------------------------------------------------ operations

  lemma ParkIntroduces(f: Flat, j: Job, due: nat, c: Config)
    requires due < j.numSymbols && Offsets(f.log.dispatched, j.tag) == UpTo(due)
    requires ParkedWith(f.pending, j.tag) == [] && ParkedWith(f.log.cut, j.tag) == []
    requires JobsWith(f.log.missed, j.tag) == [] && JobsWith(f.log.beyond, j.tag) == []
    ensures Accounted(FlatPark(f, Parked(j, due), c), j)
  {
  }

  lemma AddIntroduces(f: Flat, r: nat, j: Job, c: Config)
    requires c.Valid() && Unseen(f, j.tag) && j.numSymbols >= 1
    ensures Accounted(FlatAdd(f, r, j, c), j)
  {
    var diff := SymbolDiff(JobAbs(j, c), r, c.slotsPerFrame);
    if diff <= -SYMBOLS {
      JobsAppend(f.log.missed, j, j.tag);
    } else if diff >= ENTRIES {
      JobsAppend(f.log.beyond, j, j.tag);
    } else {
      var due := DueSymbols(diff, j.numSymbols);
      var g := f.(log := f.log.(dispatched := f.log.dispatched + Works(j, 0, due)));
      OffsetsConcat(f.log.dispatched, Works(j, 0, due), j.tag);
      OffsetsOfWorks(j, due, j.tag);
      assert Offsets(g.log.dispatched, j.tag) == UpTo(due);
      if due < j.numSymbols {
        ParkIntroduces(g, j, due, c);
      }
    }
  }

  /** What a state says about one tag. */
  ghost predicate SameFor(f: Flat, g: Flat, tag: nat) {
    && Offsets(g.log.dispatched, tag) == Offsets(f.log.dispatched, tag)
    && ParkedWith(g.pending, tag) == ParkedWith(f.pending, tag)
    && ParkedWith(g.log.cut, tag) == ParkedWith(f.log.cut, tag)
    && JobsWith(g.log.missed, tag) == JobsWith(f.log.missed, tag)
    && JobsWith(g.log.beyond, tag) == JobsWith(f.log.beyond, tag)
  }

  lemma AddOfOther(f: Flat, r: nat, j: Job, tag: nat, c: Config)
    requires j.tag != tag
    ensures SameFor(f, FlatAdd(f, r, j, c), tag)
  {
    var due := DueSymbols(SymbolDiff(JobAbs(j, c), r, c.slotsPerFrame), j.numSymbols);
    OffsetsConcat(f.log.dispatched, Works(j, 0, due), tag);
    OffsetsOfWorks(j, due, tag);
    ParkedAppend(f.pending, Parked(j, due), tag);
    ParkedAppend(f.log.cut, Parked(j, due), tag);
    JobsAppend(f.log.missed, j, tag);
    JobsAppend(f.log.beyond, j, tag);
  }

  lemma {:induction false} ReparkOfOthers(f: Flat, ps: seq<Parked>, tag: nat, c: Config)
    requires ParkedWith(ps, tag) == []
    ensures SameFor(f, FlatRepark(f, ps, c), tag)
  {
    if ps != [] {
      var init, p := ps[..|ps| - 1], ps[|ps| - 1];
      ReparkOfOthers(f, init, tag, c);
      var g, q := FlatRepark(f, init, c), Parked(p.job, p.sent + 1);
      ParkedAppend(g.pending, q, tag);
      ParkedAppend(g.log.cut, q, tag);
    }
  }

  /** Re-parking the one job with this tag parks it one symbol further, cuts it, or finishes it. */
  lemma {:induction false} ReparkOfOne(f: Flat, ps: seq<Parked>, p: Parked, c: Config)
    requires ParkedWith(ps, p.job.tag) == [p]
    requires ParkedWith(f.pending, p.job.tag) == [] && ParkedWith(f.log.cut, p.job.tag) == []
    ensures var g := FlatRepark(f, ps, c);
            var q := Parked(p.job, p.sent + 1);
            && g.log.dispatched == f.log.dispatched && g.log.missed == f.log.missed && g.log.beyond == f.log.beyond
            && if p.sent + 1 < p.job.numSymbols
               then || (ParkedWith(g.pending, p.job.tag) == [q] && ParkedWith(g.log.cut, p.job.tag) == [])
                    || (ParkedWith(g.pending, p.job.tag) == [] && ParkedWith(g.log.cut, p.job.tag) == [q])
               else ParkedWith(g.pending, p.job.tag) == [] && ParkedWith(g.log.cut, p.job.tag) == []
  {
    var tag := p.job.tag;
    var init, last := ps[..|ps| - 1], ps[|ps| - 1];
    if last.job.tag == tag {
      assert [p] == ParkedWith(init, tag) + [last];
      assert [p][|ParkedWith(init, tag)|] == last;
      assert ParkedWith(init, tag) == [] && last == p;
      ReparkOfOthers(f, init, tag, c);
      ReparkKeepsLog(f, init, c);
    } else {
      ReparkOfOne(f, init, p, c);
    }
    var g, q := FlatRepark(f, init, c), Parked(last.job, last.sent + 1);
    ParkedAppend(g.pending, q, tag);
    ParkedAppend(g.log.cut, q, tag);
  }

  lemma {:induction false} ReparkKeepsLog(f: Flat, ps: seq<Parked>, c: Config)
    ensures var g := FlatRepark(f, ps, c);
            g.log.dispatched == f.log.dispatched && g.log.missed == f.log.missed && g.log.beyond == f.log.beyond
  {
    if ps != [] {
      ReparkKeepsLog(f, ps[..|ps| - 1], c);
    }
  }

  lemma TickOfOthers(f: Flat, r: nat, tag: nat, c: Config)
    requires c.Valid() && ParkedWith(f.pending, tag) == []
    ensures SameFor(f, FlatTick(f, r, c), tag)
  {
    var ps := DueAt(f.pending, r, c);
    var ws := TickWorks(ps, r, Passthrough, c);
    var f1 := Flat(NotDueAt(f.pending, r, c), f.log.(dispatched := f.log.dispatched + ws));
    SplitNone(f.pending, r, tag, c);
    OffsetsConcat(f.log.dispatched, ws, tag);
    OffsetsOfTick(ps, r, tag, c);
    ReparkOfOthers(f1, ps, tag, c);
  }

  /** The state between the dispatch of a tick and its re-parking. */
  function Dispatched(f: Flat, r: nat, c: Config): Flat
    requires c.Valid()
  {
    Flat(NotDueAt(f.pending, r, c),
         f.log.(dispatched := f.log.dispatched + TickWorks(DueAt(f.pending, r, c), r, Passthrough, c)))
  }

  lemma TickOfWaiting(f: Flat, r: nat, p: Parked, c: Config)
    requires c.Valid() && ParkedWith(f.pending, p.job.tag) == [p] && Due(p, c) != r
    ensures SameFor(f, FlatTick(f, r, c), p.job.tag)
  {
    var ps := DueAt(f.pending, r, c);
    SplitOne(f.pending, r, p, c);
    OffsetsConcat(f.log.dispatched, TickWorks(ps, r, Passthrough, c), p.job.tag);
    OffsetsOfTick(ps, r, p.job.tag, c);
    ReparkOfOthers(Dispatched(f, r, c), ps, p.job.tag, c);
  }

  lemma TickOfDue(f: Flat, r: nat, p: Parked, c: Config)
    requires c.Valid() && Due(p, c) == r && Accounted(f, p.job)
    requires ParkedWith(f.pending, p.job.tag) == [p]
    ensures Accounted(FlatTick(f, r, c), p.job)
  {
    var tag, ps, g := p.job.tag, DueAt(f.pending, r, c), Dispatched(f, r, c);
    SplitOne(f.pending, r, p, c);
    OffsetsConcat(f.log.dispatched, TickWorks(ps, r, Passthrough, c), tag);
    OffsetsOfTick(ps, r, tag, c);
    assert Offsets(g.log.dispatched, tag) == UpTo(p.sent) + [p.sent];
    assert UpTo(p.sent) + [p.sent] == UpTo(p.sent + 1);
    ReparkOfOne(g, ps, p, c);
    assert FlatTick(f, r, c) == FlatRepark(g, ps, c);
  }

  lemma TickAccounts(f: Flat, r: nat, j: Job, c: Config)
    requires c.Valid() && Accounted(f, j)
    ensures Accounted(FlatTick(f, r, c), j)
  {
    if ParkedWith(f.pending, j.tag) == [] {
      TickOfOthers(f, r, j.tag, c);
    } else {
      var p := Parked(j, |Offsets(f.log.dispatched, j.tag)|);
      if Due(p, c) == r {
        TickOfDue(f, r, p, c);
      } else {
        TickOfWaiting(f, r, p, c);
      }
    }
  }

  // ------------------------------------------------------------------ runs

  ghost predicate TagFree(jobs: seq<Job>, tag: nat) {
    forall k :: 0 <= k < |jobs| ==> jobs[k].tag != tag
  }

  ghost predicate ArrivesAt(arrivals: seq<seq<Job>>, n: nat, k: nat, j: Job) {
    && n < |arrivals| && k < |arrivals[n]| && arrivals[n][k] == j
    && forall a, b :: 0 <= a < |arrivals| && 0 <= b < |arrivals[a]| && (a != n || b != k)
         ==> arrivals[a][b].tag != j.tag
  }

  lemma {:induction false} AddsOfOthers(f: Flat, r: nat, jobs: seq<Job>, tag: nat, c: Config)
    requires c.Valid() && TagFree(jobs, tag)
    ensures SameFor(f, FlatAdds(f, r, jobs, c), tag)
  {
    if jobs != [] {
      var n := |jobs| - 1;
      AddsOfOthers(f, r, jobs[..n], tag, c);
      AddOfOther(FlatAdds(f, r, jobs[..n], c), r, jobs[n], tag, c);
    }
  }

  lemma {:induction false} AddsIntroduce(f: Flat, r: nat, jobs: seq<Job>, k: nat, c: Config)
    requires c.Valid() && k < |jobs| && Unseen(f, jobs[k].tag) && jobs[k].numSymbols >= 1
    requires forall b :: 0 <= b < |jobs| && b != k ==> jobs[b].tag != jobs[k].tag
    ensures Accounted(FlatAdds(f, r, jobs, c), jobs[k])
  {
    var n := |jobs| - 1;
    if k == n {
      AddsOfOthers(f, r, jobs[..n], jobs[k].tag, c);
      AddIntroduces(FlatAdds(f, r, jobs[..n], c), r, jobs[k], c);
    } else {
      AddsIntroduce(f, r, jobs[..n], k, c);
      AddOfOther(FlatAdds(f, r, jobs[..n], c), r, jobs[n], jobs[k].tag, c);
    }
  }

  lemma {:induction false} UnseenRun(start: nat, arrivals: seq<seq<Job>>, tag: nat, c: Config)
    requires c.Valid()
    requires forall a :: 0 <= a < |arrivals| ==> TagFree(arrivals[a], tag)
    ensures Unseen(FlatRun(EmptyFlat, start, arrivals, c), tag)
  {
    if arrivals != [] {
      var n := |arrivals| - 1;
      var r := After(start, n, c.slotsPerFrame);
      UnseenRun(start, arrivals[..n], tag, c);
      var f := FlatRun(EmptyFlat, start, arrivals[..n], c);
      AddsOfOthers(f, r, arrivals[n], tag, c);
      TickOfOthers(FlatAdds(f, r, arrivals[n], c), r, tag, c);
    }
  }

  lemma {:induction false} AccountedRun(start: nat, arrivals: seq<seq<Job>>, n: nat, k: nat, j: Job, c: Config)
    requires c.Valid() && ArrivesAt(arrivals, n, k, j) && j.numSymbols >= 1
    ensures Accounted(FlatRun(EmptyFlat, start, arrivals, c), j)
  {
    var last := |arrivals| - 1;
    var init := arrivals[..last];
    var r := After(start, last, c.slotsPerFrame);
    var f := FlatRun(EmptyFlat, start, init, c);
    if n == last {
      UnseenRun(start, init, j.tag, c);
      AddsIntroduce(f, r, arrivals[last], k, c);
    } else {
      AccountedRun(start, init, n, k, j, c);
      AddsOfOthers(f, r, arrivals[last], j.tag, c);
    }
    TickAccounts(FlatAdds(f, r, arrivals[last], c), r, j, c);
  }

  /** Over every run of the ring calendar, in either mode, the symbols dispatched for a job are a
      prefix of the job in ascending order without repetition, and a shorter prefix is explained by
      exactly one parked entry, one overflow count, or one refusal on arrival. */
  lemma EveryJobIsAccounted(start: nat, arrivals: seq<seq<Job>>, n: nat, k: nat, j: Job, m: Mode, c: Config)
    requires c.Valid() && start < Total(c.slotsPerFrame) && AllWellFormed(arrivals, c)
    requires ArrivesAt(arrivals, n, k, j)
    ensures var f := FlatRun(EmptyFlat, start, arrivals, c);
            var s := RingRun(EmptyRing, start, arrivals, m, c);
            && Accounted(f, j)
            && Matches(s, f, After(start, |arrivals|, c.slotsPerFrame), c)
            && s.log == f.log
  {
    RingRefinesFlatList(start, arrivals, m, c);
    AccountedRun(start, arrivals, n, k, j, c);
  }

  // ------------------------------------------------------------------ timing

  /** How many symbols after its own time a job-symbol is dispatched. */
  function Lateness(w: Work, r: nat, c: Config): int
    requires c.Valid()
  {
    (r + Total(c.slotsPerFrame) - AbsSymbol(w.frame, w.slot, w.symbol, c.slotsPerFrame)) % Total(c.slotsPerFrame)
  }

  lemma AddTiming(r: nat, j: Job, k: nat, c: Config)
    requires c.Valid() && WellFormed(j, c) && r < Total(c.slotsPerFrame)
    requires var diff := SymbolDiff(JobAbs(j, c), r, c.slotsPerFrame);
             -SYMBOLS < diff < ENTRIES && k < DueSymbols(diff, j.numSymbols)
    ensures Lateness(Work(j.frame, j.slot, j.symbol + k, j), r, c) < SYMBOLS
  {
    var diff := SymbolDiff(JobAbs(j, c), r, c.slotsPerFrame);
    DueBound(Parked(j, 0), c);
    DueBound(Parked(j, k), c);
    DiffIsCircular(JobAbs(j, c), r, diff, c.slotsPerFrame);
    WrapOnce(r + diff + Total(c.slotsPerFrame), c.slotsPerFrame);
    WrapOnce(r + Total(c.slotsPerFrame) - (JobAbs(j, c) + k), c.slotsPerFrame);
  }

  lemma {:induction false} AddsTiming(f: Flat, r: nat, jobs: seq<Job>, c: Config)
    requires c.Valid() && r < Total(c.slotsPerFrame)
    requires forall k :: 0 <= k < |jobs| ==> WellFormed(jobs[k], c)
    ensures var g := FlatAdds(f, r, jobs, c);
            && f.log.dispatched <= g.log.dispatched
            && forall i :: |f.log.dispatched| <= i < |g.log.dispatched| ==>
                 Lateness(g.log.dispatched[i], r, c) < SYMBOLS
  {
    if jobs != [] {
      var n := |jobs| - 1;
      AddsTiming(f, r, jobs[..n], c);
      var g, j := FlatAdds(f, r, jobs[..n], c), jobs[n];
      var diff := SymbolDiff(JobAbs(j, c), r, c.slotsPerFrame);
      if -SYMBOLS < diff < ENTRIES {
        var ws := Works(j, 0, DueSymbols(diff, j.numSymbols));
        forall k | 0 <= k < |ws|
          ensures Lateness(ws[k], r, c) < SYMBOLS
        {
          AddTiming(r, j, k, c);
        }
        assert FlatAdd(g, r, j, c).log.dispatched == g.log.dispatched + ws;
      }
    }
  }

  lemma TickTiming(f: Flat, r: nat, c: Config)
    requires c.Valid() && r < Total(c.slotsPerFrame) && Windowed(f.pending, r, c)
    ensures var g := FlatTick(f, r, c);
            && f.log.dispatched <= g.log.dispatched
            && forall i :: |f.log.dispatched| <= i < |g.log.dispatched| ==>
                 Lateness(g.log.dispatched[i], r, c) == 0
  {
    var ps := DueAt(f.pending, r, c);
    var ws := TickWorks(ps, r, Passthrough, c);
    DueAtSound(f.pending, r, c);
    forall i | 0 <= i < |ps|
      ensures Lateness(ws[i], r, c) == 0
    {
      DueBound(ps[i], c);
    }
    ReparkKeepsLog(Flat(NotDueAt(f.pending, r, c), f.log.(dispatched := f.log.dispatched + ws)), ps, c);
  }

  lemma RunExtends(start: nat, arrivals: seq<seq<Job>>, next: seq<Job>, c: Config)
    requires c.Valid()
    ensures FlatRun(EmptyFlat, start, arrivals + [next], c)
         == FlatSymbol(FlatRun(EmptyFlat, start, arrivals, c), After(start, |arrivals|, c.slotsPerFrame), next, c)
    ensures AllWellFormed(arrivals + [next], c) ==>
              AllWellFormed(arrivals, c) && forall k :: 0 <= k < |next| ==> WellFormed(next[k], c)
  {
  }

  /** At every symbol of every run of the ring, in either mode, what is dispatched has been read
      already and is at most 13 symbols old. */
  lemma NothingEarlyNothingStale(start: nat, arrivals: seq<seq<Job>>, next: seq<Job>, m: Mode, c: Config)
    requires c.Valid() && start < Total(c.slotsPerFrame) && AllWellFormed(arrivals + [next], c)
    ensures var before := RingRun(EmptyRing, start, arrivals, m, c).log.dispatched;
            var after := RingRun(EmptyRing, start, arrivals + [next], m, c).log.dispatched;
            && before <= after
            && forall i :: |before| <= i < |after| ==>
                 Lateness(after[i], After(start, |arrivals|, c.slotsPerFrame), c) < SYMBOLS
  {
    var r := After(start, |arrivals|, c.slotsPerFrame);
    var f := FlatRun(EmptyFlat, start, arrivals, c);
    RunExtends(start, arrivals, next, c);
    RingRefinesFlatList(start, arrivals, m, c);
    RingRefinesFlatList(start, arrivals + [next], m, c);
    AddsMatch(RingRun(EmptyRing, start, arrivals, m, c), f, r, next, c);
    AddsTiming(f, r, next, c);
    TickTiming(FlatAdds(f, r, next, c), r, c);
  }
}
