/** The two-stage uplink worker pipeline as a state machine over its atomic steps: FFT jobs and beam
    jobs live in ring slots, beam jobs share the FFT slot of their symbol through a reference count. */
module WorkPipeline {
  import opened CalendarModel

  /** Where an FFT task stands: not started, about to push beam job `next`, about to give back the
      reference of the refused job `next`, about to return its own slot, or gone. */
  datatype Phase = Waiting | Pushing(next: nat) | Dropping(next: nat) | Freeing(next: nat) | Detached

  /** A slot of the FFT queue; `life` numbers its tenants. */
  datatype FftSlot =
    | Free(life: nat)
    | Held(life: nat, works: seq<Work>, refs: int, phase: Phase)

  datatype Source = Direct | Shared(slot: nat, life: nat)

  /** Where a beam task stands: the payload is read before `Received`, the beam slot is returned after
      it, then the FFT reference is given back, and the last holder returns the FFT slot. */
  datatype Pc = Queued | Received | Decrementing | Releasing | Ended

  datatype Task = Task(work: Work, beam: nat, source: Source, pc: Pc)

  /** `faults` counts accesses to an FFT slot that its tenant no longer holds. */
  datatype State = State(fft: seq<FftSlot>, beam: seq<bool>, tasks: seq<Task>,
                         handed: multiset<Work>, received: multiset<Work>, dropped: multiset<Work>,
                         faults: nat)

  datatype Event =
    | HandFft(slot: nat, works: seq<Work>)
    | HandBeam(beam: nat, work: Work)
    | StartFft(slot: nat)
    | PushBeam(slot: nat, beam: nat)
    | DropRef(slot: nat)
    | FreeFft(slot: nat)
    | Receive(task: nat)
    | FinishBeam(task: nat)
    | DropTaskRef(task: nat)
    | ReleaseFft(task: nat)

  function Start(fftDepth: nat, beamDepth: nat): State {
    State(seq(fftDepth, i => Free(0)), seq(beamDepth, i => false), [], multiset{}, multiset{}, multiset{}, 0)
  }

  // ------------------------------------------------------------------ steps

  /** After beam job `next` has been pushed or refused; the job count was read before the loop. */
  function Advance(next: nat, count: nat): Phase {
    if next + 1 == count then Detached else Pushing(next + 1)
  }

  predicate Live(s: State, src: Source) {
    match src
    case Direct => true
    case Shared(k, life) => k < |s.fft| && s.fft[k].Held? && s.fft[k].life == life
  }

  predicate Enabled(s: State, e: Event) {
    match e
    case HandFft(k, ws) => k < |s.fft| && 1 <= |ws| <= JOBS_PER_SYMBOL
    case HandBeam(b, w) => b < |s.beam|
    case StartFft(k) => k < |s.fft| && s.fft[k].Held? && s.fft[k].phase.Waiting?
    case PushBeam(k, b) =>
      b < |s.beam| && k < |s.fft| && s.fft[k].Held? && s.fft[k].phase.Pushing? && s.fft[k].phase.next < |s.fft[k].works|
    case DropRef(k) => k < |s.fft| && s.fft[k].Held? && s.fft[k].phase.Dropping?
    case FreeFft(k) => k < |s.fft| && s.fft[k].Held? && s.fft[k].phase.Freeing?
    case Receive(t) => t < |s.tasks| && s.tasks[t].pc == Queued
    case FinishBeam(t) => t < |s.tasks| && s.tasks[t].pc == Received && s.tasks[t].beam < |s.beam|
    case DropTaskRef(t) => t < |s.tasks| && s.tasks[t].pc == Decrementing && s.tasks[t].source.Shared?
    case ReleaseFft(t) => t < |s.tasks| && s.tasks[t].pc == Releasing && s.tasks[t].source.Shared?
  }

  /** A push takes the slot its reservation names, or fails if that slot is still owned. */
  function Step(s: State, e: Event): State
    requires Enabled(s, e)
  {
    match e
    case HandFft(k, ws) =>
      var s1 := s.(handed := s.handed + multiset(ws));
      if s.fft[k].Free? then s1.(fft := s.fft[k := Held(s.fft[k].life, ws, 0, Waiting)])
      else s1.(dropped := s.dropped + multiset(ws))
    case HandBeam(b, w) =>
      var s1 := s.(handed := s.handed + multiset{w});
      if s.beam[b] then s1.(dropped := s.dropped + multiset{w})
      else s1.(beam := s.beam[b := true], tasks := s.tasks + [Task(w, b, Direct, Queued)])
    case StartFft(k) =>
      s.(fft := s.fft[k := s.fft[k].(refs := |s.fft[k].works|, phase := Pushing(0))])
    case PushBeam(k, b) =>
      var slot := s.fft[k];
      var w := slot.works[slot.phase.next];
      if s.beam[b]
      then s.(fft := s.fft[k := slot.(phase := Dropping(slot.phase.next))], dropped := s.dropped + multiset{w})
      else s.(fft := s.fft[k := slot.(phase := Advance(slot.phase.next, |slot.works|))],
              beam := s.beam[b := true],
              tasks := s.tasks + [Task(w, b, Shared(k, slot.life), Queued)])
    case DropRef(k) =>
      var slot := s.fft[k];
      var phase := if slot.refs == 1 then Freeing(slot.phase.next) else Advance(slot.phase.next, |slot.works|);
      s.(fft := s.fft[k := slot.(refs := slot.refs - 1, phase := phase)])
    case FreeFft(k) =>
      var s1 := s.(fft := s.fft[k := Free(s.fft[k].life + 1)]);
      if s.fft[k].phase.next + 1 == |s.fft[k].works| then s1 else s1.(faults := s.faults + 1)
    case Receive(t) =>
      var s1 := s.(tasks := s.tasks[t := s.tasks[t].(pc := Received)],
                   received := s.received + multiset{s.tasks[t].work});
      if Live(s, s.tasks[t].source) then s1 else s1.(faults := s.faults + 1)
    case FinishBeam(t) =>
      s.(beam := s.beam[s.tasks[t].beam := false],
         tasks := s.tasks[t := s.tasks[t].(pc := if s.tasks[t].source.Direct? then Ended else Decrementing)])
    case DropTaskRef(t) =>
      if !Live(s, s.tasks[t].source) then s.(tasks := s.tasks[t := s.tasks[t].(pc := Ended)], faults := s.faults + 1)
      else
        var k := s.tasks[t].source.slot;
        s.(fft := s.fft[k := s.fft[k].(refs := s.fft[k].refs - 1)],
           tasks := s.tasks[t := s.tasks[t].(pc := if s.fft[k].refs == 1 then Releasing else Ended)])
    case ReleaseFft(t) =>
      var s1 := s.(tasks := s.tasks[t := s.tasks[t].(pc := Ended)]);
      var k := s.tasks[t].source.slot;
      if Live(s, s.tasks[t].source) && s.fft[k].phase.Detached? then s1.(fft := s.fft[k := Free(s.fft[k].life + 1)])
      else s1.(faults := s.faults + 1)
  }

  /** Any interleaving: each state follows from the one before by some enabled step. */
  ghost predicate IsRun(ss: seq<State>, es: seq<Event>) {
    && |ss| == |es| + 1
    && forall i :: 0 <= i < |es| ==> Enabled(ss[i], es[i]) && ss[i + 1] == Step(ss[i], es[i])
  }

  // ------------------------------------------------------------------ counting tasks

  datatype Query = Holders(slot: nat) | Releasers(slot: nat) | Owners(beam: nat)

  predicate Answers(q: Query, t: Task) {
    match q
    case Holders(k) => t.source.Shared? && t.source.slot == k && (t.pc.Queued? || t.pc.Received? || t.pc.Decrementing?)
    case Releasers(k) => t.source.Shared? && t.source.slot == k && t.pc.Releasing?
    case Owners(b) => t.beam == b && (t.pc.Queued? || t.pc.Received?)
  }

  function One(b: bool): nat {
    if b then 1 else 0
  }

  function Count(ts: seq<Task>, q: Query): nat {
    if ts == [] then 0 else Count(ts[..|ts| - 1], q) + One(Answers(q, ts[|ts| - 1]))
  }

  lemma CountAppend(ts: seq<Task>, t: Task, q: Query)
    ensures Count(ts + [t], q) == Count(ts, q) + One(Answers(q, t))
  {
  }

  lemma {:induction false} CountUpdate(ts: seq<Task>, i: nat, t: Task, q: Query)
    requires i < |ts|
    ensures Count(ts[i := t], q) + One(Answers(q, ts[i])) == Count(ts, q) + One(Answers(q, t))
  {
    var n := |ts| - 1;
    if i == n {
      assert ts[i := t][..n] == ts[..n];
    } else {
      assert ts[i := t][..n] == ts[..n][i := t];
      CountUpdate(ts[..n], i, t, q);
    }
  }

  lemma {:induction false} CountAtLeast(ts: seq<Task>, i: nat, q: Query)
    requires i < |ts| && Answers(q, ts[i])
    ensures Count(ts, q) >= 1
  {
    if i < |ts| - 1 {
      CountAtLeast(ts[..|ts| - 1], i, q);
    }
  }

  lemma {:induction false} CountAtLeastTwo(ts: seq<Task>, i: nat, j: nat, q: Query)
    requires i < j < |ts| && Answers(q, ts[i]) && Answers(q, ts[j])
    ensures Count(ts, q) >= 2
  {
    if j < |ts| - 1 {
      CountAtLeastTwo(ts[..|ts| - 1], i, j, q);
    } else {
      CountAtLeast(ts[..|ts| - 1], i, q);
    }
  }

  // ------------------------------------------------------------------ work still in the queues

  function Occurs(ws: seq<Work>, w: Work): nat {
    multiset(ws)[w]
  }

  /** How often `w` waits in an FFT slot to be pushed. */
  function Unpushed(slot: FftSlot, w: Work): nat {
    if slot.Free? then 0
    else match slot.phase
      case Waiting => Occurs(slot.works, w)
      case Pushing(n) => if n <= |slot.works| then Occurs(slot.works[n..], w) else 0
      case Dropping(n) => if n < |slot.works| then Occurs(slot.works[n + 1..], w) else 0
      case Freeing(_) => 0
      case Detached => 0
  }

  function InFft(slots: seq<FftSlot>, w: Work): nat {
    if slots == [] then 0 else InFft(slots[..|slots| - 1], w) + Unpushed(slots[|slots| - 1], w)
  }

  function Unreceived(t: Task, w: Work): nat {
    One(t.pc.Queued? && t.work == w)
  }

  function InBeam(ts: seq<Task>, w: Work): nat {
    if ts == [] then 0 else InBeam(ts[..|ts| - 1], w) + Unreceived(ts[|ts| - 1], w)
  }

  lemma {:induction false} InFftUpdate(slots: seq<FftSlot>, k: nat, slot: FftSlot, w: Work)
    requires k < |slots|
    ensures InFft(slots[k := slot], w) + Unpushed(slots[k], w) == InFft(slots, w) + Unpushed(slot, w)
  {
    var n := |slots| - 1;
    if k == n {
      assert slots[k := slot][..n] == slots[..n];
    } else {
      assert slots[k := slot][..n] == slots[..n][k := slot];
      InFftUpdate(slots[..n], k, slot, w);
    }
  }

  lemma {:induction false} InBeamUpdate(ts: seq<Task>, i: nat, t: Task, w: Work)
    requires i < |ts|
    ensures InBeam(ts[i := t], w) + Unreceived(ts[i], w) == InBeam(ts, w) + Unreceived(t, w)
  {
    var n := |ts| - 1;
    if i == n {
      assert ts[i := t][..n] == ts[..n];
    } else {
      assert ts[i := t][..n] == ts[..n][i := t];
      InBeamUpdate(ts[..n], i, t, w);
    }
  }

  lemma InBeamAppend(ts: seq<Task>, t: Task, w: Work)
    ensures InBeam(ts + [t], w) == InBeam(ts, w) + Unreceived(t, w)
  {
  }
}
