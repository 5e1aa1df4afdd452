/** The push loop of an FFT task with its test as a step of its own. The test reads the job count from the
    memory of the task's queue slot, and the last one comes after the slot may have been returned: it can
    see the count of the next tenant. `memory` is what each slot was last filled with; returning a slot
    does not clear it. */
module PushLoop {
  import opened CalendarModel
  import opened WorkPipeline
  import opened PipelineSafety

  /** Where a push loop stands: before its test, in its body, in its body although its own jobs are all
      pushed, about to give back a reference for such a push, or ended. */
  datatype At = Testing | InBody | Astray | AstrayRefused | Over

  /** The loop of tenancy `life` of a slot, with `jobs` jobs of its own and loop index `next`. */
  datatype Loop = Loop(slot: nat, life: nat, jobs: nat, next: nat, at: At)

  datatype Code = Code(base: State, memory: seq<seq<Work>>, loops: seq<Loop>)

  datatype Move =
    | Hand(slot: nat, works: seq<Work>)
    | Begin(slot: nat)
    | Test(loop: nat)
    | Push(loop: nat, beam: nat)
    | Drop(loop: nat)
    | Return(loop: nat)
    | AstrayPush(loop: nat, beam: nat, work: Work)
    | AstrayDrop(loop: nat)
    | Other(event: Event)

  function Initial(fftDepth: nat, beamDepth: nat): Code {
    Code(Start(fftDepth, beamDepth), seq(fftDepth, i => []), [])
  }

  /** The loop is in its body and its own tenancy still holds the slot. */
  predicate Working(c: Code, j: nat) {
    && j < |c.loops| && c.loops[j].at.InBody?
    && Live(c.base, Shared(c.loops[j].slot, c.loops[j].life))
  }

  predicate Allowed(c: Code, m: Move) {
    match m
    case Hand(k, ws) => Enabled(c.base, HandFft(k, ws)) && k < |c.memory|
    case Begin(k) => Enabled(c.base, StartFft(k))
    case Test(j) => j < |c.loops| && c.loops[j].at.Testing? && c.loops[j].slot < |c.memory|
    case Push(j, b) => Working(c, j) && Enabled(c.base, PushBeam(c.loops[j].slot, b))
    case Drop(j) => Working(c, j) && Enabled(c.base, DropRef(c.loops[j].slot))
    case Return(j) => Working(c, j) && Enabled(c.base, FreeFft(c.loops[j].slot))
    case AstrayPush(j, b, w) =>
      && j < |c.loops| && c.loops[j].at.Astray? && b < |c.base.beam|
      && c.loops[j].slot < |c.memory| == |c.base.fft|
      && (c.loops[j].next < |c.memory[c.loops[j].slot]| ==> w == c.memory[c.loops[j].slot][c.loops[j].next])
    case AstrayDrop(j) => j < |c.loops| && c.loops[j].at.AstrayRefused? && c.loops[j].slot < |c.base.fft|
    case Other(e) =>
      (e.HandBeam? || e.Receive? || e.FinishBeam? || e.DropTaskRef? || e.ReleaseFft?) && Enabled(c.base, e)
  }

  /** What the test does with the count it reads. */
  function Tested(l: Loop, count: nat): Loop {
    l.(at := if l.next >= count then Over else if l.next < l.jobs then InBody else Astray)
  }

  function NextTest(l: Loop): Loop {
    l.(next := l.next + 1, at := Testing)
  }

  /** A push of a loop gone astray takes the job at its index from the slot's memory; the beam job it starts
      gives back a reference that was never counted. */
  function AstrayPushed(s: State, k: nat, b: nat, w: Work): State
    requires k < |s.fft| && b < |s.beam|
  {
    if s.beam[b] then s.(dropped := s.dropped + multiset{w})
    else s.(beam := s.beam[b := true], tasks := s.tasks + [Task(w, b, Shared(k, s.fft[k].life), Queued)])
  }

  /** The reference given back after a refused push of that kind is the present tenant's. */
  function AstrayDropped(s: State, k: nat): State
    requires k < |s.fft|
  {
    match s.fft[k]
    case Free(_) => s.(faults := s.faults + 1)
    case Held(life, _, refs, _) =>
      if refs == 1 then s.(fft := s.fft[k := Free(life + 1)]) else s.(fft := s.fft[k := s.fft[k].(refs := refs - 1)])
  }

  function Moved(c: Code, m: Move): Code
    requires Allowed(c, m)
  {
    match m
    case Hand(k, ws) =>
      c.(base := Step(c.base, HandFft(k, ws)), memory := if c.base.fft[k].Free? then c.memory[k := ws] else c.memory)
    case Begin(k) =>
      c.(base := Step(c.base, StartFft(k)),
         loops := c.loops + [Loop(k, c.base.fft[k].life, |c.base.fft[k].works|, 0, Testing)])
    case Test(j) => c.(loops := c.loops[j := Tested(c.loops[j], |c.memory[c.loops[j].slot]|)])
    case Push(j, b) =>
      c.(base := Step(c.base, PushBeam(c.loops[j].slot, b)),
         loops := if c.base.beam[b] then c.loops else c.loops[j := NextTest(c.loops[j])])
    case Drop(j) =>
      c.(base := Step(c.base, DropRef(c.loops[j].slot)),
         loops := if c.base.fft[c.loops[j].slot].refs == 1 then c.loops else c.loops[j := NextTest(c.loops[j])])
    case Return(j) =>
      c.(base := Step(c.base, FreeFft(c.loops[j].slot)), loops := c.loops[j := NextTest(c.loops[j])])
    case AstrayPush(j, b, w) =>
      c.(base := AstrayPushed(c.base, c.loops[j].slot, b, w),
         loops := c.loops[j := if c.base.beam[b] then c.loops[j].(at := AstrayRefused) else NextTest(c.loops[j])])
    case AstrayDrop(j) =>
      c.(base := AstrayDropped(c.base, c.loops[j].slot), loops := c.loops[j := NextTest(c.loops[j])])
    case Other(e) => c.(base := Step(c.base, e))
  }

  ghost predicate IsCodeRun(cs: seq<Code>, ms: seq<Move>) {
    && |cs| == |ms| + 1
    && forall i :: 0 <= i < |ms| ==> Allowed(cs[i], ms[i]) && cs[i + 1] == Moved(cs[i], ms[i])
  }

  // ------------------------------------------------------------------ what holds until a loop goes astray

  /** The phase of the slot while the loop's own tenancy holds it. */
  predicate InStep(l: Loop, phase: Phase) {
    match l.at
    case InBody =>
      l.next < l.jobs && (phase == Pushing(l.next) || phase == Dropping(l.next) || phase == Freeing(l.next))
    case Testing => phase == if l.next < l.jobs then Pushing(l.next) else Detached
    case Astray => l.next == l.jobs && phase == Detached
    case AstrayRefused => false
    case Over => l.next == l.jobs && phase == Detached
  }

  /** A loop whose tenancy has ended is at its last test or past it. */
  predicate LoopOk(s: State, l: Loop) {
    && l.slot < |s.fft| && l.next <= l.jobs
    && var slot := s.fft[l.slot];
       if l.life == slot.life then slot.Held? && |slot.works| == l.jobs && InStep(l, slot.phase)
       else l.life < slot.life && l.next == l.jobs && (l.at.Testing? || l.at.Astray? || l.at.Over?)
  }

  predicate MemoryOk(c: Code) {
    && |c.memory| == |c.base.fft|
    && forall k :: 0 <= k < |c.memory| ==>
         |c.memory[k]| <= JOBS_PER_SYMBOL && (c.base.fft[k].Held? ==> c.memory[k] == c.base.fft[k].works)
  }

  predicate LoopsOk(c: Code) {
    forall i :: 0 <= i < |c.loops| ==> LoopOk(c.base, c.loops[i])
  }

  predicate Apart(loops: seq<Loop>) {
    forall i, j :: 0 <= i < j < |loops| ==> loops[i].slot != loops[j].slot || loops[i].life != loops[j].life
  }

  predicate CodeInv(c: Code) {
    Inv(c.base) && MemoryOk(c) && LoopsOk(c) && Apart(c.loops)
  }

  /** One slot changes; loop `j`, if it is that slot's, changes with it. */
  lemma OneSlot(c: Code, base: State, loops: seq<Loop>, k: nat, j: nat)
    requires LoopsOk(c) && Apart(c.loops) && k < |c.base.fft| == |base.fft|
    requires forall n :: 0 <= n < |base.fft| && n != k ==> base.fft[n] == c.base.fft[n]
    requires base.fft[k].life >= c.base.fft[k].life
    requires j < |c.loops| && c.loops[j].slot == k && c.loops[j].life == c.base.fft[k].life
    requires |loops| == |c.loops| && loops[j].slot == k && loops[j].life == c.loops[j].life
    requires forall i :: 0 <= i < |loops| && i != j ==> loops[i] == c.loops[i]
    requires LoopOk(base, loops[j])
    ensures (forall i :: 0 <= i < |loops| ==> LoopOk(base, loops[i])) && Apart(loops)
  {
    forall i | 0 <= i < |loops|
      ensures LoopOk(base, loops[i])
    {
      if i != j {
        assert LoopOk(c.base, c.loops[i]);
        assert c.loops[i].slot != k || c.loops[i].life != c.loops[j].life;
      }
    }
  }

  lemma WorkingSlot(c: Code, j: nat)
    requires CodeInv(c) && Working(c, j)
    ensures var l := c.loops[j];
            var slot := c.base.fft[l.slot];
            && SlotOk(slot, Count(c.base.tasks, Holders(l.slot)), Count(c.base.tasks, Releasers(l.slot)))
            && |slot.works| == l.jobs && InStep(l, slot.phase) && c.memory[l.slot] == slot.works
  {
    assert LoopOk(c.base, c.loops[j]);
  }

  lemma PushMoveKeeps(c: Code, j: nat, b: nat)
    requires CodeInv(c) && Allowed(c, Push(j, b))
    ensures CodeInv(Moved(c, Push(j, b)))
  {
    var k, d := c.loops[j].slot, Moved(c, Push(j, b));
    WorkingSlot(c, j);
    StepKeepsInv(c.base, PushBeam(k, b));
    OneSlot(c, d.base, d.loops, k, j);
  }

  lemma DropMoveKeeps(c: Code, j: nat)
    requires CodeInv(c) && Allowed(c, Drop(j))
    ensures CodeInv(Moved(c, Drop(j)))
  {
    var k, d := c.loops[j].slot, Moved(c, Drop(j));
    WorkingSlot(c, j);
    StepKeepsInv(c.base, DropRef(k));
    OneSlot(c, d.base, d.loops, k, j);
  }

  lemma ReturnMoveKeeps(c: Code, j: nat)
    requires CodeInv(c) && Allowed(c, Return(j))
    ensures CodeInv(Moved(c, Return(j)))
  {
    var k, d := c.loops[j].slot, Moved(c, Return(j));
    WorkingSlot(c, j);
    StepKeepsInv(c.base, FreeFft(k));
    OneSlot(c, d.base, d.loops, k, j);
  }

  lemma HandKeeps(c: Code, k: nat, ws: seq<Work>)
    requires CodeInv(c) && Allowed(c, Hand(k, ws))
    ensures CodeInv(Moved(c, Hand(k, ws)))
  {
    StepKeepsInv(c.base, HandFft(k, ws));
    var d := Moved(c, Hand(k, ws));
    forall i | 0 <= i < |d.loops|
      ensures LoopOk(d.base, d.loops[i])
    {
      assert LoopOk(c.base, c.loops[i]);
    }
  }

  lemma BeginKeeps(c: Code, k: nat)
    requires CodeInv(c) && Allowed(c, Begin(k))
    ensures CodeInv(Moved(c, Begin(k)))
  {
    StepKeepsInv(c.base, StartFft(k));
    assert SlotOk(c.base.fft[k], Count(c.base.tasks, Holders(k)), Count(c.base.tasks, Releasers(k)));
    var d := Moved(c, Begin(k));
    forall i | 0 <= i < |d.loops|
      ensures LoopOk(d.base, d.loops[i])
      ensures i < |c.loops| && c.loops[i].slot == k ==> c.loops[i].life != c.base.fft[k].life
    {
      if i < |c.loops| {
        assert LoopOk(c.base, c.loops[i]);
      }
    }
  }

  lemma TestKeeps(c: Code, j: nat)
    requires CodeInv(c) && Allowed(c, Test(j))
    ensures CodeInv(Moved(c, Test(j)))
  {
    assert LoopOk(c.base, c.loops[j]);
    var d := Moved(c, Test(j));
    forall i | 0 <= i < |d.loops|
      ensures LoopOk(d.base, d.loops[i])
    {
      assert LoopOk(c.base, c.loops[i]);
    }
  }

  lemma OtherKeeps(c: Code, e: Event)
    requires CodeInv(c) && Allowed(c, Other(e))
    ensures CodeInv(Moved(c, Other(e)))
  {
    StepKeepsInv(c.base, e);
    var d := Moved(c, Other(e));
    forall i | 0 <= i < |d.loops|
      ensures LoopOk(d.base, d.loops[i])
    {
      assert LoopOk(c.base, c.loops[i]);
    }
  }

  lemma MoveKeeps(c: Code, m: Move)
    requires CodeInv(c) && Allowed(c, m) && !m.AstrayPush?
    ensures CodeInv(Moved(c, m))
  {
    match m
    case Hand(k, ws) => HandKeeps(c, k, ws);
    case Begin(k) => BeginKeeps(c, k);
    case Test(j) => TestKeeps(c, j);
    case Push(j, b) => PushMoveKeeps(c, j, b);
    case Drop(j) => DropMoveKeeps(c, j);
    case Return(j) => ReturnMoveKeeps(c, j);
    case AstrayDrop(_) =>
    case Other(e) => OtherKeeps(c, e);
  }

  /** The moves other than pushes of a loop astray are the steps of the pipeline, or leave it alone. */
  lemma MoveConserves(c: Code, m: Move, w: Work)
    requires CodeInv(c) && Allowed(c, m) && !m.AstrayPush? && ConservedFor(c.base, w)
    ensures ConservedFor(Moved(c, m).base, w)
  {
    match m
    case Hand(k, ws) => StepConserves(c.base, HandFft(k, ws), w);
    case Begin(k) => StepConserves(c.base, StartFft(k), w);
    case Test(_) =>
    case Push(j, b) => StepConserves(c.base, PushBeam(c.loops[j].slot, b), w);
    case Drop(j) => StepConserves(c.base, DropRef(c.loops[j].slot), w);
    case Return(j) => StepConserves(c.base, FreeFft(c.loops[j].slot), w);
    case AstrayDrop(_) =>
    case Other(e) => StepConserves(c.base, e, w);
  }

  // ------------------------------------------------------------------ what the tests read

  /** Every test but the last reads the count of the loop's own tenancy, which still holds the slot, and
      goes on with the next of its own jobs. */
  lemma EarlierTestsReadOwnSlot(c: Code, j: nat)
    requires CodeInv(c) && Allowed(c, Test(j)) && c.loops[j].next < c.loops[j].jobs
    ensures var l := c.loops[j];
            && Live(c.base, Shared(l.slot, l.life))
            && c.memory[l.slot] == c.base.fft[l.slot].works && |c.memory[l.slot]| == l.jobs
            && Moved(c, Test(j)).loops[j] == l.(at := InBody)
  {
    assert LoopOk(c.base, c.loops[j]);
  }

  /** The last test ends the loop, unless the slot has been filled again with more jobs: only then does the
      loop go astray, so never after ten jobs. */
  lemma LastTest(c: Code, j: nat)
    requires CodeInv(c) && Allowed(c, Test(j)) && c.loops[j].next == c.loops[j].jobs
    ensures var l, at := c.loops[j], Moved(c, Test(j)).loops[j].at;
            && (at == Astray <==> |c.memory[l.slot]| > l.jobs)
            && (at == Over <==> |c.memory[l.slot]| <= l.jobs)
            && (at == Astray ==> !Live(c.base, Shared(l.slot, l.life)) && l.life < c.base.fft[l.slot].life)
            && (l.jobs == JOBS_PER_SYMBOL ==> at == Over)
  {
    assert LoopOk(c.base, c.loops[j]);
  }

  /** The guards of the loop's own steps cost no run: in its body a loop can always push, give back a
      reference, or return its slot. */
  lemma BodyCanMove(c: Code, j: nat, b: nat)
    requires CodeInv(c) && j < |c.loops| && c.loops[j].at.InBody? && b < |c.base.beam|
    ensures Allowed(c, Push(j, b)) || Allowed(c, Drop(j)) || Allowed(c, Return(j))
  {
    assert LoopOk(c.base, c.loops[j]);
    var k := c.loops[j].slot;
    assert SlotOk(c.base.fft[k], Count(c.base.tasks, Holders(k)), Count(c.base.tasks, Releasers(k)));
  }

  /** A push of a loop astray puts a job-symbol into the beam queue, or counts it as dropped, once more than
      it was handed over. */
  lemma AstrayPushBreaks(c: Code, j: nat, b: nat, w: Work)
    requires Allowed(c, AstrayPush(j, b, w)) && ConservedFor(c.base, w)
    ensures var s, t := c.base, Moved(c, AstrayPush(j, b, w)).base;
            && !ConservedFor(t, w) && t.beam == s.beam[b := true] && t.handed == s.handed
            && t.dropped[w] == s.dropped[w] + One(s.beam[b])
            && InBeam(t.tasks, w) == InBeam(s.tasks, w) + One(!s.beam[b])
            && Moved(c, AstrayPush(j, b, w)).loops[j].at == if s.beam[b] then AstrayRefused else Testing
  {
    var k := c.loops[j].slot;
    InBeamAppend(c.base.tasks, Task(w, b, Shared(k, c.base.fft[k].life), Queued), w);
  }

  /** And the reference given back after a refused one is the present tenant's: its count falls short of its
      jobs and beam jobs, or its slot is returned under it; if there is no tenant, a released slot is touched. */
  lemma AstrayDropSteals(c: Code, j: nat, holders: nat, releasers: nat)
    requires Allowed(c, AstrayDrop(j))
    ensures var k, s, t := c.loops[j].slot, c.base, Moved(c, AstrayDrop(j)).base;
            match s.fft[k]
            case Free(_) => t.faults > s.faults
            case Held(life, works, refs, phase) =>
              if refs == 1 then t.fft == s.fft[k := Free(life + 1)]
              else
                && t.fft == s.fft[k := Held(life, works, refs - 1, phase)]
                && (SlotOk(s.fft[k], holders, releasers) && !phase.Waiting? ==> !SlotOk(t.fft[k], holders, releasers))
  {
  }

  // ------------------------------------------------------------------ runs

  predicate NoneAstray(ms: seq<Move>) {
    forall i :: 0 <= i < |ms| ==> !ms[i].AstrayPush?
  }

  lemma InitialOk(fftDepth: nat, beamDepth: nat)
    ensures CodeInv(Initial(fftDepth, beamDepth)) && Conserved(Initial(fftDepth, beamDepth).base)
  {
    var s := Start(fftDepth, beamDepth);
    forall w
      ensures ConservedFor(s, w)
    {
      EmptyQueues(s.fft, w);
    }
  }

  lemma MoveIsSafe(c: Code, m: Move)
    requires CodeInv(c) && Conserved(c.base) && Allowed(c, m) && !m.AstrayPush?
    ensures CodeInv(Moved(c, m)) && Conserved(Moved(c, m).base)
  {
    MoveKeeps(c, m);
    var s := Moved(c, m).base;
    forall w
      ensures ConservedFor(s, w)
    {
      MoveConserves(c, m, w);
    }
  }

  lemma {:induction false} SafeWhileNoneAstray(fftDepth: nat, beamDepth: nat, cs: seq<Code>, ms: seq<Move>, n: nat)
    requires IsCodeRun(cs, ms) && cs[0] == Initial(fftDepth, beamDepth) && n <= |ms| && NoneAstray(ms[..n])
    ensures CodeInv(cs[n]) && Conserved(cs[n].base)
  {
    if n == 0 {
      InitialOk(fftDepth, beamDepth);
    } else {
      var before, m := cs[n - 1], ms[n - 1];
      assert ms[..n][n - 1] == m && forall i :: 0 <= i < n - 1 ==> ms[..n - 1][i] == ms[..n][i];
      SafeWhileNoneAstray(fftDepth, beamDepth, cs, ms, n - 1);
      MoveIsSafe(before, m);
    }
  }

  lemma FirstAstray(ms: seq<Move>) returns (n: nat)
    requires !NoneAstray(ms)
    ensures n < |ms| && ms[n].AstrayPush? && NoneAstray(ms[..n])
  {
    n := 0;
    while !ms[n].AstrayPush?
      invariant n < |ms| && NoneAstray(ms[..n]) && exists i :: n <= i < |ms| && ms[i].AstrayPush?
      decreases |ms| - n
    {
      n := n + 1;
    }
  }

  /** In every interleaving of the code, for any queue depths, job-symbols are conserved throughout - and
      reference counts exact, released slots untouched by beam jobs, releases single - exactly when no
      push loop acts on a count it read from the slot's next tenant. */
  lemma SafeIffNoneAstray(fftDepth: nat, beamDepth: nat, cs: seq<Code>, ms: seq<Move>)
    requires IsCodeRun(cs, ms) && cs[0] == Initial(fftDepth, beamDepth)
    ensures (forall n :: 0 <= n < |cs| ==> Conserved(cs[n].base)) <==> NoneAstray(ms)
    ensures NoneAstray(ms) ==> forall n :: 0 <= n < |cs| ==> CodeInv(cs[n])
  {
    if NoneAstray(ms) {
      forall n | 0 <= n < |cs|
        ensures CodeInv(cs[n]) && Conserved(cs[n].base)
      {
        SafeWhileNoneAstray(fftDepth, beamDepth, cs, ms, n);
      }
    } else {
      var n := FirstAstray(ms);
      SafeWhileNoneAstray(fftDepth, beamDepth, cs, ms, n);
      var m, after := ms[n], cs[n + 1];
      assert ConservedFor(cs[n].base, m.work);
      AstrayPushBreaks(cs[n], m.loop, m.beam, m.work);
      assert !Conserved(after.base);
    }
  }
}
