/** When the worker pipeline refuses a job, and that it finishes the ones it took: pushes fail exactly on slots
    that are still in use, and the workers left to themselves empty both queues. */
module PipelineProgress {
  import opened CalendarModel
  import opened WorkPipeline
  import opened PipelineSafety

  // ------------------------------------------------------------------ who is on a slot

  /** A beam job that has not returned its beam slot. */
  predicate Owned(s: State, b: nat) {
    exists i :: 0 <= i < |s.tasks| && s.tasks[i].beam == b && (s.tasks[i].pc.Queued? || s.tasks[i].pc.Received?)
  }

  /** An FFT task that has not finished its push loop, or a beam job that may still use the slot. */
  predicate Tenanted(s: State, k: nat)
    requires k < |s.fft|
  {
    || (s.fft[k].Held? && !s.fft[k].phase.Detached?)
    || exists i :: 0 <= i < |s.tasks| && s.tasks[i].source.Shared? && s.tasks[i].source.slot == k
                   && !s.tasks[i].pc.Ended?
  }

  lemma TakenIffOwned(s: State, b: nat)
    requires Inv(s) && b < |s.beam|
    ensures s.beam[b] <==> Owned(s, b)
  {
    if i :| 0 <= i < |s.tasks| && s.tasks[i].beam == b && (s.tasks[i].pc.Queued? || s.tasks[i].pc.Received?) {
      CountAtLeast(s.tasks, i, Owners(b));
    } else {
      NoneAnswer(s.tasks, Owners(b));
    }
  }

  lemma HeldIffTenanted(s: State, k: nat)
    requires Inv(s) && k < |s.fft|
    ensures s.fft[k].Held? <==> Tenanted(s, k)
  {
    assert SlotOk(s.fft[k], Count(s.tasks, Holders(k)), Count(s.tasks, Releasers(k)));
    if s.fft[k].Free? {
      NoTaskOn(s, k);
    } else if s.fft[k].phase.Detached? && !Tenanted(s, k) {
      NoneAnswer(s.tasks, Holders(k));
      NoneAnswer(s.tasks, Releasers(k));
    }
  }

  // ------------------------------------------------------------------ what a push does

  /** A direct hand-over is refused, and counted, exactly while an unfinished beam job owns the beam slot;
      otherwise it starts one beam job, which owns the slot. */
  lemma HandBeamAdmits(s: State, b: nat, w: Work)
    requires Inv(s) && Enabled(s, HandBeam(b, w))
    ensures var t, handed := Step(s, HandBeam(b, w)), s.handed + multiset{w};
            if Owned(s, b) then t == s.(handed := handed, dropped := s.dropped + multiset{w})
            else t == s.(handed := handed, beam := s.beam[b := true], tasks := s.tasks + [Task(w, b, Direct, Queued)])
  {
    TakenIffOwned(s, b);
  }

  /** The jobs of a symbol are refused, and counted, exactly while a task is on the FFT slot; otherwise they
      wait in it for their FFT task. */
  lemma HandFftAdmits(s: State, k: nat, ws: seq<Work>)
    requires Inv(s) && Enabled(s, HandFft(k, ws))
    ensures var t, handed := Step(s, HandFft(k, ws)), s.handed + multiset(ws);
            if Tenanted(s, k) then t == s.(handed := handed, dropped := s.dropped + multiset(ws))
            else t == s.(handed := handed, fft := s.fft[k := Held(s.fft[k].life, ws, 0, Waiting)])
  {
    HeldIffTenanted(s, k);
  }

  /** A push of an FFT task is refused, and counted, exactly while an unfinished beam job owns the beam slot;
      otherwise it starts one beam job on the task's FFT slot. */
  lemma PushAdmits(s: State, k: nat, b: nat)
    requires Inv(s) && Enabled(s, PushBeam(k, b))
    ensures var t, slot := Step(s, PushBeam(k, b)), s.fft[k];
            var w := slot.works[slot.phase.next];
            && t.handed == s.handed && t.received == s.received
            && t.dropped == (if Owned(s, b) then s.dropped + multiset{w} else s.dropped)
            && t.tasks == (if Owned(s, b) then s.tasks else s.tasks + [Task(w, b, Shared(k, slot.life), Queued)])
  {
    TakenIffOwned(s, b);
  }

  /** How often a step refuses job-symbol `w`: the push met a slot in use. */
  function Refused(s: State, e: Event, w: Work): nat
    requires Enabled(s, e)
  {
    match e
    case HandFft(k, ws) => if Tenanted(s, k) then multiset(ws)[w] else 0
    case HandBeam(b, x) => One(Owned(s, b) && x == w)
    case PushBeam(k, b) => One(Owned(s, b) && s.fft[k].works[s.fft[k].phase.next] == w)
    case _ => 0
  }

  lemma StepDrops(s: State, e: Event, w: Work)
    requires Inv(s) && Enabled(s, e)
    ensures Step(s, e).dropped[w] == s.dropped[w] + Refused(s, e, w)
  {
    match e
    case HandFft(k, ws) => HandFftAdmits(s, k, ws);
    case HandBeam(b, x) => HandBeamAdmits(s, b, x);
    case PushBeam(k, b) => PushAdmits(s, k, b);
    case _ =>
  }

  ghost function Refusals(ss: seq<State>, es: seq<Event>, n: nat, w: Work): nat
    requires IsRun(ss, es) && n <= |es|
  {
    if n == 0 then 0 else Refusals(ss, es, n - 1, w) + Refused(ss[n - 1], es[n - 1], w)
  }

  /** In every run a job-symbol is counted as dropped exactly as often as a push of it met a slot in use. */
  lemma {:induction false} DroppedMetOwner(fftDepth: nat, beamDepth: nat, ss: seq<State>, es: seq<Event>, n: nat,
                                           w: Work)
    requires IsRun(ss, es) && ss[0] == Start(fftDepth, beamDepth) && n <= |es|
    ensures ss[n].dropped[w] == Refusals(ss, es, n, w)
  {
    if n > 0 {
      DroppedMetOwner(fftDepth, beamDepth, ss, es, n - 1, w);
      EveryRunIsSafe(fftDepth, beamDepth, ss, es);
      StepDrops(ss[n - 1], es[n - 1], w);
    }
  }

  // ------------------------------------------------------------------ the workers finish

  predicate ByWorker(e: Event) {
    !e.HandFft? && !e.HandBeam?
  }

  /** The next step of a beam job. */
  function NextOf(t: Task, i: nat): Event
    requires !t.pc.Ended?
  {
    match t.pc
    case Queued => Receive(i)
    case Received => FinishBeam(i)
    case Decrementing => DropTaskRef(i)
    case Releasing => ReleaseFft(i)
  }

  lemma TaskCanMove(s: State, i: nat)
    requires Inv(s) && i < |s.tasks| && !s.tasks[i].pc.Ended?
    ensures Enabled(s, NextOf(s.tasks[i], i))
  {
    assert TaskOk(s, s.tasks[i]);
  }

  /** The next step of an FFT task, if it pushes to beam slot `b`. */
  function NextOfFft(phase: Phase, k: nat, b: nat): Event
    requires !phase.Detached?
  {
    match phase
    case Waiting => StartFft(k)
    case Pushing(_) => PushBeam(k, b)
    case Dropping(_) => DropRef(k)
    case Freeing(_) => FreeFft(k)
  }

  lemma FftCanMove(s: State, k: nat, b: nat)
    requires Inv(s) && k < |s.fft| && s.fft[k].Held? && !s.fft[k].phase.Detached? && b < |s.beam|
    ensures Enabled(s, NextOfFft(s.fft[k].phase, k, b))
  {
    assert SlotOk(s.fft[k], Count(s.tasks, Holders(k)), Count(s.tasks, Releasers(k)));
  }

  predicate Quiescent(s: State) {
    && (forall k :: 0 <= k < |s.fft| ==> s.fft[k].Free?)
    && (forall b :: 0 <= b < |s.beam| ==> !s.beam[b])
    && (forall i :: 0 <= i < |s.tasks| ==> s.tasks[i].pc.Ended?)
  }

  /** As long as anything is queued or in use, some worker can take a step. */
  lemma NothingIsStuck(s: State)
    requires Inv(s) && |s.beam| > 0 && !Quiescent(s)
    ensures exists e: Event :: ByWorker(e) && Enabled(s, e)
  {
    if i :| 0 <= i < |s.tasks| && !s.tasks[i].pc.Ended? {
      TaskCanMove(s, i);
      assert ByWorker(NextOf(s.tasks[i], i));
    } else if k :| 0 <= k < |s.fft| && s.fft[k].Held? && !s.fft[k].phase.Detached? {
      FftCanMove(s, k, 0);
      assert ByWorker(NextOfFft(s.fft[k].phase, k, 0));
    } else {
      QuiescentIsEmpty(s);
    }
  }

  /** The steps still to come from a slot, including those of the beam jobs it starts. */
  function SlotLeft(slot: FftSlot): nat {
    if slot.Free? then 0
    else
      var jobs := |slot.works|;
      match slot.phase
      case Waiting => 7 * jobs + 1
      case Pushing(n) => if n < jobs then 7 * (jobs - n) else 0
      case Dropping(n) => if n < jobs then 7 * (jobs - n) - 1 else 0
      case Freeing(_) => 1
      case Detached => 0
  }

  function SlotsLeft(slots: seq<FftSlot>): nat {
    if slots == [] then 0 else SlotsLeft(slots[..|slots| - 1]) + SlotLeft(slots[|slots| - 1])
  }

  function TaskLeft(t: Task): nat {
    match t.pc
    case Queued => 4
    case Received => 3
    case Decrementing => 2
    case Releasing => 1
    case Ended => 0
  }

  function TasksLeft(ts: seq<Task>): nat {
    if ts == [] then 0 else TasksLeft(ts[..|ts| - 1]) + TaskLeft(ts[|ts| - 1])
  }

  function Left(s: State): nat {
    SlotsLeft(s.fft) + TasksLeft(s.tasks)
  }

  lemma {:induction false} SlotsLeftUpdate(slots: seq<FftSlot>, k: nat, slot: FftSlot)
    requires k < |slots|
    ensures SlotsLeft(slots[k := slot]) + SlotLeft(slots[k]) == SlotsLeft(slots) + SlotLeft(slot)
  {
    var n := |slots| - 1;
    if k == n {
      assert slots[k := slot][..n] == slots[..n];
    } else {
      assert slots[k := slot][..n] == slots[..n][k := slot];
      SlotsLeftUpdate(slots[..n], k, slot);
    }
  }

  lemma {:induction false} TasksLeftUpdate(ts: seq<Task>, i: nat, t: Task)
    requires i < |ts|
    ensures TasksLeft(ts[i := t]) + TaskLeft(ts[i]) == TasksLeft(ts) + TaskLeft(t)
  {
    var n := |ts| - 1;
    if i == n {
      assert ts[i := t][..n] == ts[..n];
    } else {
      assert ts[i := t][..n] == ts[..n][i := t];
      TasksLeftUpdate(ts[..n], i, t);
    }
  }

  lemma FftStepSpends(s: State, e: Event)
    requires Inv(s) && Enabled(s, e) && (e.StartFft? || e.DropRef? || e.FreeFft?)
    ensures Left(Step(s, e)) < Left(s)
  {
    var k, t := e.slot, Step(s, e);
    assert SlotOk(s.fft[k], Count(s.tasks, Holders(k)), Count(s.tasks, Releasers(k)));
    assert SlotLeft(t.fft[k]) < SlotLeft(s.fft[k]);
    SlotsLeftUpdate(s.fft, k, t.fft[k]);
  }

  lemma PushSpends(s: State, k: nat, b: nat)
    requires Enabled(s, PushBeam(k, b))
    ensures Left(Step(s, PushBeam(k, b))) < Left(s)
  {
    var t := Step(s, PushBeam(k, b));
    assert !s.beam[b] ==> t.tasks[..|s.tasks|] == s.tasks;
    assert SlotLeft(t.fft[k]) + (if s.beam[b] then 0 else 4) < SlotLeft(s.fft[k]);
    SlotsLeftUpdate(s.fft, k, t.fft[k]);
  }

  lemma ReceiveSpends(s: State, e: Event)
    requires Enabled(s, e) && (e.Receive? || e.FinishBeam?)
    ensures Left(Step(s, e)) < Left(s)
  {
    TasksLeftUpdate(s.tasks, e.task, Step(s, e).tasks[e.task]);
  }

  lemma LeftAfter(s: State, i: nat, t: Task, k: nat, slot: FftSlot)
    requires i < |s.tasks| && k < |s.fft| && TaskLeft(t) < TaskLeft(s.tasks[i]) && SlotLeft(slot) <= SlotLeft(s.fft[k])
    ensures SlotsLeft(s.fft[k := slot]) + TasksLeft(s.tasks[i := t]) < Left(s)
  {
    TasksLeftUpdate(s.tasks, i, t);
    SlotsLeftUpdate(s.fft, k, slot);
  }

  lemma DropTaskRefSpends(s: State, i: nat)
    requires Inv(s) && Enabled(s, DropTaskRef(i))
    ensures Left(Step(s, DropTaskRef(i))) < Left(s)
  {
    var task := s.tasks[i];
    var k := task.source.slot;
    assert TaskOk(s, task);
    var slot := s.fft[k].(refs := s.fft[k].refs - 1);
    var next := task.(pc := if s.fft[k].refs == 1 then Releasing else Ended);
    assert Step(s, DropTaskRef(i)) == s.(fft := s.fft[k := slot], tasks := s.tasks[i := next]);
    LeftAfter(s, i, next, k, slot);
  }

  lemma ReleaseSpends(s: State, i: nat)
    requires Inv(s) && Enabled(s, ReleaseFft(i))
    ensures Left(Step(s, ReleaseFft(i))) < Left(s)
  {
    var task := s.tasks[i];
    var k, next := task.source.slot, task.(pc := Ended);
    assert TaskOk(s, task);
    LeftAfter(s, i, next, k, s.fft[k]);
    LeftAfter(s, i, next, k, Free(s.fft[k].life + 1));
    assert s.fft[k := s.fft[k]] == s.fft;
  }

  lemma WorkerSpends(s: State, e: Event)
    requires Inv(s) && Enabled(s, e) && ByWorker(e)
    ensures Left(Step(s, e)) < Left(s)
  {
    match e
    case PushBeam(k, b) => PushSpends(s, k, b);
    case Receive(_) => ReceiveSpends(s, e);
    case FinishBeam(_) => ReceiveSpends(s, e);
    case DropTaskRef(i) => DropTaskRefSpends(s, i);
    case ReleaseFft(i) => ReleaseSpends(s, i);
    case _ => FftStepSpends(s, e);
  }

  lemma {:induction false} WorkersSpend(ss: seq<State>, es: seq<Event>, m: nat, n: nat)
    requires IsRun(ss, es) && m <= n <= |es| && Inv(ss[m]) && forall i :: m <= i < |es| ==> ByWorker(es[i])
    ensures Inv(ss[n]) && n - m + Left(ss[n]) <= Left(ss[m])
    decreases n
  {
    if n > m {
      WorkersSpend(ss, es, m, n - 1);
      StepKeepsInv(ss[n - 1], es[n - 1]);
      WorkerSpends(ss[n - 1], es[n - 1]);
    }
  }

  lemma {:induction false} DepthStays(ss: seq<State>, es: seq<Event>, n: nat)
    requires IsRun(ss, es) && n <= |es|
    ensures |ss[n].beam| == |ss[0].beam|
  {
    if n > 0 {
      DepthStays(ss, es, n - 1);
    }
  }

  /** Under every schedule: once nothing more is handed over, the workers take only so many steps, and when
      none is left all slots are free, and every job-symbol was received as often as it was handed over,
      except for the pushes of it that met a slot in use. */
  lemma WorkersFinish(fftDepth: nat, beamDepth: nat, ss: seq<State>, es: seq<Event>, m: nat, w: Work)
    requires IsRun(ss, es) && ss[0] == Start(fftDepth, beamDepth) && beamDepth > 0
    requires m <= |es| && forall i :: m <= i < |es| ==> ByWorker(es[i])
    ensures |es| - m <= Left(ss[m])
    ensures var s := ss[|es|];
            (forall e: Event :: ByWorker(e) ==> !Enabled(s, e)) ==>
              Quiescent(s) && s.handed[w] == s.received[w] + Refusals(ss, es, |es|, w)
  {
    var n, s := |es|, ss[|es|];
    EveryRunIsSafe(fftDepth, beamDepth, ss, es);
    WorkersSpend(ss, es, m, n);
    DepthStays(ss, es, n);
    if !Quiescent(s) {
      NothingIsStuck(s);
    } else {
      QuiescentHoldsNothing(s, w);
      DroppedMetOwner(fftDepth, beamDepth, ss, es, n, w);
      assert ConservedFor(s, w);
    }
  }

  lemma {:induction false} NoneUnreceived(ts: seq<Task>, w: Work)
    requires forall i :: 0 <= i < |ts| ==> ts[i].pc.Ended?
    ensures InBeam(ts, w) == 0
  {
    if ts != [] {
      NoneUnreceived(ts[..|ts| - 1], w);
    }
  }

  lemma QuiescentHoldsNothing(s: State, w: Work)
    requires Quiescent(s)
    ensures InFft(s.fft, w) == 0 && InBeam(s.tasks, w) == 0
  {
    EmptyQueues(s.fft, w);
    NoneUnreceived(s.tasks, w);
  }
}
