/** What every interleaving of the worker pipeline keeps: the reference count of an FFT slot, its
    single release, exclusive beam slots, and the conservation of job-symbols. */
module PipelineSafety {
  import opened CalendarModel
  import opened WorkPipeline

  /** The reference count equals the jobs not yet pushed plus the beam tasks that still hold the
      slot; whoever takes it to zero is the only one to release. */
  predicate SlotOk(slot: FftSlot, holders: nat, releasers: nat) {
    match slot
    case Free(_) => holders == 0 && releasers == 0
    case Held(_, works, refs, phase) =>
      && 1 <= |works| <= JOBS_PER_SYMBOL
      && match phase
         case Waiting => holders == 0 && releasers == 0
         case Pushing(n) => n < |works| && refs == |works| - n + holders && releasers == 0
         case Dropping(n) => n < |works| && refs == |works| - n + holders && releasers == 0
         case Freeing(n) => n + 1 == |works| && refs == 0 && holders == 0 && releasers == 0
         case Detached => refs == holders && releasers == (if refs == 0 then 1 else 0)
  }

  predicate SlotsOk(s: State) {
    forall k :: 0 <= k < |s.fft| ==> SlotOk(s.fft[k], Count(s.tasks, Holders(k)), Count(s.tasks, Releasers(k)))
  }

  /** A beam task that has not ended refers to the tenancy it was pushed by. */
  predicate TaskOk(s: State, t: Task) {
    && t.beam < |s.beam|
    && (t.source.Direct? ==> t.pc.Queued? || t.pc.Received? || t.pc.Ended?)
    && (t.source.Shared? && !t.pc.Ended? ==> Live(s, t.source) && t.work in s.fft[t.source.slot].works)
  }

  predicate TasksOk(s: State) {
    forall i :: 0 <= i < |s.tasks| ==> TaskOk(s, s.tasks[i])
  }

  /** A beam slot is taken exactly while one unfinished task owns it. */
  predicate BeamsOk(s: State) {
    forall b :: 0 <= b < |s.beam| ==> Count(s.tasks, Owners(b)) == One(s.beam[b])
  }

  predicate Inv(s: State) {
    SlotsOk(s) && TasksOk(s) && BeamsOk(s) && s.faults == 0
  }

  /** Job-symbol `w` was handed over as often as it was received, counted as dropped, or is still
      queued in either stage. */
  predicate ConservedFor(s: State, w: Work) {
    s.handed[w] == s.received[w] + s.dropped[w] + InFft(s.fft, w) + InBeam(s.tasks, w)
  }

  ghost predicate Conserved(s: State) {
    forall w :: ConservedFor(s, w)
  }

  // ------------------------------------------------------------------ changes of one slot or one task

  lemma NoTaskOn(s: State, k: nat)
    requires k < |s.fft| && Count(s.tasks, Holders(k)) == 0 && Count(s.tasks, Releasers(k)) == 0
    ensures forall i :: 0 <= i < |s.tasks| && s.tasks[i].source.Shared? && !s.tasks[i].pc.Ended? ==>
              s.tasks[i].source.slot != k
  {
    forall i | 0 <= i < |s.tasks| && s.tasks[i].source.Shared? && !s.tasks[i].pc.Ended?
      ensures s.tasks[i].source.slot != k
    {
      if s.tasks[i].source.slot == k {
        if s.tasks[i].pc.Releasing? {
          CountAtLeast(s.tasks, i, Releasers(k));
        } else {
          CountAtLeast(s.tasks, i, Holders(k));
        }
      }
    }
  }

  /** A slot changes and its tenant stays. */
  lemma SlotChange(s: State, k: nat, slot: FftSlot)
    requires Inv(s) && k < |s.fft| && s.fft[k].Held? && slot.Held?
    requires slot.life == s.fft[k].life && slot.works == s.fft[k].works
    requires SlotOk(slot, Count(s.tasks, Holders(k)), Count(s.tasks, Releasers(k)))
    ensures Inv(s.(fft := s.fft[k := slot]))
  {
  }

  /** A slot nobody refers to changes hands. */
  lemma TenantChange(s: State, k: nat, slot: FftSlot)
    requires Inv(s) && k < |s.fft|
    requires Count(s.tasks, Holders(k)) == 0 && Count(s.tasks, Releasers(k)) == 0
    requires SlotOk(slot, 0, 0)
    ensures Inv(s.(fft := s.fft[k := slot]))
  {
    var t := s.(fft := s.fft[k := slot]);
    NoTaskOn(s, k);
    forall i | 0 <= i < |t.tasks|
      ensures TaskOk(t, t.tasks[i])
    {
      assert TaskOk(s, s.tasks[i]);
    }
  }

  /** A pushed job takes a free beam slot; its FFT slot, if any, moves on with it. */
  lemma TaskStarts(s: State, t: Task, fft: seq<FftSlot>)
    requires Inv(s) && t.pc == Queued && t.beam < |s.beam| && !s.beam[t.beam]
    requires |fft| == |s.fft|
    requires forall k :: 0 <= k < |fft| && t.source != Shared(k, s.fft[k].life) ==> fft[k] == s.fft[k]
    requires t.source.Shared? ==>
               var k := t.source.slot;
               && Live(s, t.source) && t.work in s.fft[k].works && fft[k].Held?
               && fft[k].life == s.fft[k].life && fft[k].works == s.fft[k].works
               && SlotOk(fft[k], Count(s.tasks, Holders(k)) + 1, Count(s.tasks, Releasers(k)))
    ensures Inv(s.(fft := fft, beam := s.beam[t.beam := true], tasks := s.tasks + [t]))
  {
    var u := s.(fft := fft, beam := s.beam[t.beam := true], tasks := s.tasks + [t]);
    forall k | 0 <= k < |fft|
      ensures SlotOk(u.fft[k], Count(u.tasks, Holders(k)), Count(u.tasks, Releasers(k)))
    {
      CountAppend(s.tasks, t, Holders(k));
      CountAppend(s.tasks, t, Releasers(k));
      assert SlotOk(s.fft[k], Count(s.tasks, Holders(k)), Count(s.tasks, Releasers(k)));
    }
    forall b | 0 <= b < |u.beam|
      ensures Count(u.tasks, Owners(b)) == One(u.beam[b])
    {
      CountAppend(s.tasks, t, Owners(b));
      assert Count(s.tasks, Owners(b)) == One(s.beam[b]);
    }
    forall i | 0 <= i < |u.tasks|
      ensures TaskOk(u, u.tasks[i])
    {
      if i < |s.tasks| {
        assert TaskOk(s, s.tasks[i]);
      }
    }
  }

  /** A task moves on; its FFT slot, if any, changes with it. */
  lemma TaskMoves(s: State, i: nat, pc: Pc, fft: seq<FftSlot>, beam: seq<bool>)
    requires Inv(s) && i < |s.tasks| && |fft| == |s.fft| && |beam| == |s.beam|
    requires var t := s.tasks[i];
             && !t.pc.Ended? && !t.pc.Queued? && !pc.Queued? && !pc.Received?
             && (t.source.Direct? ==> pc.Ended?)
             && (forall b :: 0 <= b < |beam| ==> beam[b] == (s.beam[b] && !(t.pc.Received? && t.beam == b)))
             && (forall k :: 0 <= k < |fft| && (t.source.Direct? || t.source.slot != k) ==> fft[k] == s.fft[k])
             && (t.source.Shared? ==>
                   var k := t.source.slot;
                   && fft[k].Held? && fft[k].life == s.fft[k].life && fft[k].works == s.fft[k].works
                   && SlotOk(fft[k],
                             Count(s.tasks[i := t.(pc := pc)], Holders(k)),
                             Count(s.tasks[i := t.(pc := pc)], Releasers(k))))
    ensures Inv(s.(fft := fft, beam := beam, tasks := s.tasks[i := s.tasks[i].(pc := pc)]))
  {
    var t := s.tasks[i].(pc := pc);
    var u := s.(fft := fft, beam := beam, tasks := s.tasks[i := t]);
    assert TaskOk(s, s.tasks[i]);
    forall k | 0 <= k < |fft|
      ensures SlotOk(u.fft[k], Count(u.tasks, Holders(k)), Count(u.tasks, Releasers(k)))
    {
      CountUpdate(s.tasks, i, t, Holders(k));
      CountUpdate(s.tasks, i, t, Releasers(k));
      assert SlotOk(s.fft[k], Count(s.tasks, Holders(k)), Count(s.tasks, Releasers(k)));
    }
    forall b | 0 <= b < |u.beam|
      ensures Count(u.tasks, Owners(b)) == One(u.beam[b])
    {
      CountUpdate(s.tasks, i, t, Owners(b));
      assert Count(s.tasks, Owners(b)) == One(s.beam[b]);
    }
    forall j | 0 <= j < |u.tasks|
      ensures TaskOk(u, u.tasks[j])
    {
      assert TaskOk(s, s.tasks[j]);
    }
  }

  lemma ReceiveKeeps(s: State, i: nat)
    requires Inv(s) && Enabled(s, Receive(i))
    ensures Inv(Step(s, Receive(i)))
  {
    var t := s.tasks[i].(pc := Received);
    var u := Step(s, Receive(i));
    assert TaskOk(s, s.tasks[i]);
    forall k | 0 <= k < |u.fft|
      ensures SlotOk(u.fft[k], Count(u.tasks, Holders(k)), Count(u.tasks, Releasers(k)))
    {
      CountUpdate(s.tasks, i, t, Holders(k));
      CountUpdate(s.tasks, i, t, Releasers(k));
    }
    forall b | 0 <= b < |u.beam|
      ensures Count(u.tasks, Owners(b)) == One(u.beam[b])
    {
      CountUpdate(s.tasks, i, t, Owners(b));
    }
    forall j | 0 <= j < |u.tasks|
      ensures TaskOk(u, u.tasks[j])
    {
      assert TaskOk(s, s.tasks[j]);
    }
  }

  lemma ReleaseKeeps(s: State, i: nat)
    requires Inv(s) && Enabled(s, ReleaseFft(i))
    ensures Inv(Step(s, ReleaseFft(i)))
  {
    var t := s.tasks[i].(pc := Ended);
    var k := t.source.slot;
    var u := Step(s, ReleaseFft(i));
    assert TaskOk(s, s.tasks[i]);
    CountAtLeast(s.tasks, i, Releasers(k));
    assert SlotOk(s.fft[k], Count(s.tasks, Holders(k)), Count(s.tasks, Releasers(k)));
    assert s.fft[k].phase == Detached && u == s.(tasks := s.tasks[i := t], fft := s.fft[k := Free(s.fft[k].life + 1)]);
    forall m | 0 <= m < |u.fft|
      ensures SlotOk(u.fft[m], Count(u.tasks, Holders(m)), Count(u.tasks, Releasers(m)))
    {
      CountUpdate(s.tasks, i, t, Holders(m));
      CountUpdate(s.tasks, i, t, Releasers(m));
      assert SlotOk(s.fft[m], Count(s.tasks, Holders(m)), Count(s.tasks, Releasers(m)));
    }
    forall b | 0 <= b < |u.beam|
      ensures Count(u.tasks, Owners(b)) == One(u.beam[b])
    {
      CountUpdate(s.tasks, i, t, Owners(b));
    }
    assert SlotOk(u.fft[k], Count(u.tasks, Holders(k)), Count(u.tasks, Releasers(k)));
    NoTaskOn(u, k);
    forall j | 0 <= j < |u.tasks|
      ensures TaskOk(u, u.tasks[j])
    {
      assert TaskOk(s, s.tasks[j]);
    }
  }

  lemma FinishKeeps(s: State, i: nat)
    requires Inv(s) && Enabled(s, FinishBeam(i))
    ensures Inv(Step(s, FinishBeam(i)))
  {
    var t := s.tasks[i];
    var pc := if t.source.Direct? then Ended else Decrementing;
    assert TaskOk(s, t);
    if t.source.Shared? {
      CountUpdate(s.tasks, i, t.(pc := pc), Holders(t.source.slot));
      CountUpdate(s.tasks, i, t.(pc := pc), Releasers(t.source.slot));
    }
    TaskMoves(s, i, pc, s.fft, s.beam[t.beam := false]);
  }

  /** Giving back a reference leaves one holder less, or makes the last one the releaser. */
  lemma DropTaskRefSlot(s: State, i: nat)
    requires Inv(s) && Enabled(s, DropTaskRef(i))
    ensures var t := s.tasks[i];
            var k := t.source.slot;
            && Live(s, t.source)
            && var slot := s.fft[k];
               var tasks := s.tasks[i := t.(pc := if slot.refs == 1 then Releasing else Ended)];
               SlotOk(slot.(refs := slot.refs - 1), Count(tasks, Holders(k)), Count(tasks, Releasers(k)))
  {
    var t := s.tasks[i];
    var k := t.source.slot;
    assert TaskOk(s, t);
    var pc := if s.fft[k].refs == 1 then Releasing else Ended;
    assert SlotOk(s.fft[k], Count(s.tasks, Holders(k)), Count(s.tasks, Releasers(k)));
    CountAtLeast(s.tasks, i, Holders(k));
    CountUpdate(s.tasks, i, t.(pc := pc), Holders(k));
    CountUpdate(s.tasks, i, t.(pc := pc), Releasers(k));
  }

  lemma DropTaskRefKeeps(s: State, i: nat)
    requires Inv(s) && Enabled(s, DropTaskRef(i))
    ensures Inv(Step(s, DropTaskRef(i)))
  {
    DropTaskRefSlot(s, i);
    var k := s.tasks[i].source.slot;
    var slot := s.fft[k];
    TaskMoves(s, i, if slot.refs == 1 then Releasing else Ended, s.fft[k := slot.(refs := slot.refs - 1)], s.beam);
  }

  lemma PushKeeps(s: State, k: nat, b: nat)
    requires Inv(s) && Enabled(s, PushBeam(k, b))
    ensures Inv(Step(s, PushBeam(k, b)))
  {
    var slot := s.fft[k];
    var n := slot.phase.next;
    assert SlotOk(slot, Count(s.tasks, Holders(k)), Count(s.tasks, Releasers(k)));
    if s.beam[b] {
      SlotChange(s, k, slot.(phase := Dropping(n)));
    } else {
      TaskStarts(s, Task(slot.works[n], b, Shared(k, slot.life), Queued),
                 s.fft[k := slot.(phase := Advance(n, |slot.works|))]);
    }
  }

  lemma FftKeeps(s: State, e: Event)
    requires Inv(s) && Enabled(s, e) && (e.HandFft? || e.StartFft? || e.DropRef? || e.FreeFft?)
    ensures Inv(Step(s, e))
  {
    var k := e.slot;
    var slot := s.fft[k];
    assert SlotOk(slot, Count(s.tasks, Holders(k)), Count(s.tasks, Releasers(k)));
    match e
    case HandFft(_, ws) =>
      if slot.Free? {
        TenantChange(s, k, Held(slot.life, ws, 0, Waiting));
      }
    case StartFft(_) =>
      SlotChange(s, k, slot.(refs := |slot.works|, phase := Pushing(0)));
    case DropRef(_) =>
      SlotChange(s, k, Step(s, e).fft[k]);
    case FreeFft(_) =>
      TenantChange(s, k, Free(slot.life + 1));
  }

  lemma HandBeamKeeps(s: State, b: nat, w: Work)
    requires Inv(s) && Enabled(s, HandBeam(b, w))
    ensures Inv(Step(s, HandBeam(b, w)))
  {
    if !s.beam[b] {
      TaskStarts(s, Task(w, b, Direct, Queued), s.fft);
    }
  }

  lemma StepKeepsInv(s: State, e: Event)
    requires Inv(s) && Enabled(s, e)
    ensures Inv(Step(s, e))
  {
    match e
    case HandFft(_, _) => FftKeeps(s, e);
    case StartFft(_) => FftKeeps(s, e);
    case DropRef(_) => FftKeeps(s, e);
    case FreeFft(_) => FftKeeps(s, e);
    case HandBeam(b, w) => HandBeamKeeps(s, b, w);
    case PushBeam(k, b) => PushKeeps(s, k, b);
    case Receive(t) => ReceiveKeeps(s, t);
    case FinishBeam(t) => FinishKeeps(s, t);
    case DropTaskRef(t) => DropTaskRefKeeps(s, t);
    case ReleaseFft(t) => ReleaseKeeps(s, t);
  }

  // ------------------------------------------------------------------ conservation

  lemma TakeFirst(ws: seq<Work>, n: nat, w: Work)
    requires n < |ws|
    ensures Occurs(ws[n..], w) == One(ws[n] == w) + Occurs(ws[n + 1..], w)
  {
    assert ws[n..] == [ws[n]] + ws[n + 1..];
  }

  lemma HandFftConserves(s: State, k: nat, ws: seq<Work>, w: Work)
    requires ConservedFor(s, w) && Enabled(s, HandFft(k, ws))
    ensures ConservedFor(Step(s, HandFft(k, ws)), w)
  {
    if s.fft[k].Free? {
      InFftUpdate(s.fft, k, Held(s.fft[k].life, ws, 0, Waiting), w);
    }
  }

  lemma StartFftConserves(s: State, k: nat, w: Work)
    requires ConservedFor(s, w) && Enabled(s, StartFft(k))
    ensures ConservedFor(Step(s, StartFft(k)), w)
  {
    var slot := s.fft[k];
    assert slot.works[0..] == slot.works;
    InFftUpdate(s.fft, k, slot.(refs := |slot.works|, phase := Pushing(0)), w);
  }

  lemma DropRefConserves(s: State, k: nat, w: Work)
    requires Inv(s) && ConservedFor(s, w) && Enabled(s, DropRef(k))
    ensures ConservedFor(Step(s, DropRef(k)), w)
  {
    assert SlotOk(s.fft[k], Count(s.tasks, Holders(k)), Count(s.tasks, Releasers(k)));
    var slot := Step(s, DropRef(k)).fft[k];
    assert Unpushed(slot, w) == Unpushed(s.fft[k], w);
    InFftUpdate(s.fft, k, slot, w);
  }

  lemma FreeFftConserves(s: State, k: nat, w: Work)
    requires ConservedFor(s, w) && Enabled(s, FreeFft(k))
    ensures ConservedFor(Step(s, FreeFft(k)), w)
  {
    InFftUpdate(s.fft, k, Free(s.fft[k].life + 1), w);
  }

  /** Pushing or refusing job `next` takes exactly that job out of the slot. */
  lemma TakesNext(slot: FftSlot, w: Work)
    requires slot.Held? && slot.phase.Pushing? && slot.phase.next < |slot.works|
    ensures var n := slot.phase.next;
            var taken := One(slot.works[n] == w);
            && Unpushed(slot, w) == taken + Unpushed(slot.(phase := Dropping(n)), w)
            && Unpushed(slot, w) == taken + Unpushed(slot.(phase := Advance(n, |slot.works|)), w)
  {
    TakeFirst(slot.works, slot.phase.next, w);
  }

  lemma PushConserves(s: State, k: nat, b: nat, w: Work)
    requires ConservedFor(s, w) && Enabled(s, PushBeam(k, b)) && !s.beam[b]
    ensures ConservedFor(Step(s, PushBeam(k, b)), w)
  {
    var slot := s.fft[k];
    var n := slot.phase.next;
    TakesNext(slot, w);
    InFftUpdate(s.fft, k, slot.(phase := Advance(n, |slot.works|)), w);
    InBeamAppend(s.tasks, Task(slot.works[n], b, Shared(k, slot.life), Queued), w);
  }

  lemma RefuseConserves(s: State, k: nat, b: nat, w: Work)
    requires ConservedFor(s, w) && Enabled(s, PushBeam(k, b)) && s.beam[b]
    ensures ConservedFor(Step(s, PushBeam(k, b)), w)
  {
    var slot := s.fft[k];
    TakesNext(slot, w);
    InFftUpdate(s.fft, k, slot.(phase := Dropping(slot.phase.next)), w);
  }

  lemma ReceiveConserves(s: State, i: nat, w: Work)
    requires ConservedFor(s, w) && Enabled(s, Receive(i))
    ensures ConservedFor(Step(s, Receive(i)), w)
  {
    InBeamUpdate(s.tasks, i, s.tasks[i].(pc := Received), w);
  }

  lemma FinishConserves(s: State, i: nat, w: Work)
    requires ConservedFor(s, w) && Enabled(s, FinishBeam(i))
    ensures ConservedFor(Step(s, FinishBeam(i)), w)
  {
    InBeamUpdate(s.tasks, i, Step(s, FinishBeam(i)).tasks[i], w);
  }

  /** Giving back a reference, or the slot, moves no job. */
  lemma ReturnConserves(s: State, e: Event, w: Work)
    requires Inv(s) && ConservedFor(s, w) && Enabled(s, e) && (e.DropTaskRef? || e.ReleaseFft?)
    ensures ConservedFor(Step(s, e), w)
  {
    var i, t := e.task, Step(s, e);
    var k := s.tasks[i].source.slot;
    assert TaskOk(s, s.tasks[i]);
    assert SlotOk(s.fft[k], Count(s.tasks, Holders(k)), Count(s.tasks, Releasers(k)));
    if e.ReleaseFft? {
      CountAtLeast(s.tasks, i, Releasers(k));
    }
    assert Unpushed(t.fft[k], w) == Unpushed(s.fft[k], w);
    InBeamUpdate(s.tasks, i, t.tasks[i], w);
    InFftUpdate(s.fft, k, t.fft[k], w);
  }

  lemma StepConserves(s: State, e: Event, w: Work)
    requires Inv(s) && ConservedFor(s, w) && Enabled(s, e)
    ensures ConservedFor(Step(s, e), w)
  {
    match e
    case HandFft(k, ws) => HandFftConserves(s, k, ws, w);
    case StartFft(k) => StartFftConserves(s, k, w);
    case DropRef(k) => DropRefConserves(s, k, w);
    case FreeFft(k) => FreeFftConserves(s, k, w);
    case HandBeam(b, x) =>
      InBeamAppend(s.tasks, Task(x, b, Direct, Queued), w);
    case PushBeam(k, b) => if s.beam[b] { RefuseConserves(s, k, b, w); } else { PushConserves(s, k, b, w); }
    case Receive(t) => ReceiveConserves(s, t, w);
    case FinishBeam(t) => FinishConserves(s, t, w);
    case DropTaskRef(_) => ReturnConserves(s, e, w);
    case ReleaseFft(_) => ReturnConserves(s, e, w);
  }

  // ------------------------------------------------------------------ runs

  lemma {:induction false} EmptyQueues(slots: seq<FftSlot>, w: Work)
    requires forall k :: 0 <= k < |slots| ==> slots[k].Free?
    ensures InFft(slots, w) == 0
  {
    if slots != [] {
      EmptyQueues(slots[..|slots| - 1], w);
    }
  }

  /** In every interleaving of FFT tasks, beam workers and the dispatching reader, for any queue
      depths, when a push loop reads its job count once: reference counts are exact, no released slot is
      touched, nothing is released twice, and no job-symbol is lost or duplicated. */
  lemma {:induction false} EveryRunIsSafe(fftDepth: nat, beamDepth: nat, ss: seq<State>, es: seq<Event>)
    requires IsRun(ss, es) && ss[0] == Start(fftDepth, beamDepth)
    ensures forall i :: 0 <= i < |ss| ==> Inv(ss[i]) && Conserved(ss[i])
  {
    if es == [] {
      forall w
        ensures ConservedFor(ss[0], w)
      {
        EmptyQueues(ss[0].fft, w);
      }
    } else {
      var n := |es| - 1;
      EveryRunIsSafe(fftDepth, beamDepth, ss[..n + 1], es[..n]);
      assert Inv(ss[..n + 1][n]) && Conserved(ss[..n + 1][n]);
      StepKeepsInv(ss[n], es[n]);
      var last := ss[n + 1];
      forall w
        ensures ConservedFor(last, w)
      {
        StepConserves(ss[n], es[n], w);
      }
      forall i | 0 <= i < |ss|
        ensures Inv(ss[i]) && Conserved(ss[i])
      {
        if i <= n {
          assert ss[i] == ss[..n + 1][i];
        }
      }
    }
  }

  /** Two unfinished beam tasks never share a beam slot. */
  lemma BeamSlotsAreExclusive(s: State, i: nat, j: nat)
    requires Inv(s) && i < j < |s.tasks|
    requires s.tasks[i].pc.Queued? || s.tasks[i].pc.Received?
    requires s.tasks[j].pc.Queued? || s.tasks[j].pc.Received?
    ensures s.tasks[i].beam != s.tasks[j].beam
  {
    var b := s.tasks[i].beam;
    assert TaskOk(s, s.tasks[i]) && TaskOk(s, s.tasks[j]);
    if s.tasks[j].beam == b {
      CountAtLeastTwo(s.tasks, i, j, Owners(b));
    }
  }

  lemma {:induction false} NoneAnswer(ts: seq<Task>, q: Query)
    requires forall i :: 0 <= i < |ts| ==> !Answers(q, ts[i])
    ensures Count(ts, q) == 0
  {
    if ts != [] {
      NoneAnswer(ts[..|ts| - 1], q);
    }
  }

  /** No leak: once every beam task has ended and every FFT task has left, all slots are free again,
      whatever pushes failed on the way. */
  lemma QuiescentIsEmpty(s: State)
    requires Inv(s)
    requires forall i :: 0 <= i < |s.tasks| ==> s.tasks[i].pc.Ended?
    requires forall k :: 0 <= k < |s.fft| && s.fft[k].Held? ==> s.fft[k].phase.Detached?
    ensures forall k :: 0 <= k < |s.fft| ==> s.fft[k].Free?
    ensures forall b :: 0 <= b < |s.beam| ==> !s.beam[b]
  {
    forall k | 0 <= k < |s.fft|
      ensures s.fft[k].Free?
    {
      NoneAnswer(s.tasks, Holders(k));
      NoneAnswer(s.tasks, Releasers(k));
      assert SlotOk(s.fft[k], Count(s.tasks, Holders(k)), Count(s.tasks, Releasers(k)));
    }
    forall b | 0 <= b < |s.beam|
      ensures !s.beam[b]
    {
      NoneAnswer(s.tasks, Owners(b));
    }
  }
}
