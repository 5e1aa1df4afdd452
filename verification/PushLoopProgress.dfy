/** The code's runs, push loops included, as steps of the pipeline: what they refuse, and that they finish. */
module PushLoopProgress {
  import opened Helpers
  import opened CalendarModel
  import opened WorkPipeline
  import opened PipelineSafety
  import opened PipelineProgress
  import opened PushLoop

  // ------------------------------------------------------------------ moves are steps

  /** The pipeline step of a move; a test is none. */
  function EventOf(c: Code, m: Move): Option<Event>
    requires Allowed(c, m) && !m.AstrayPush? && !m.AstrayDrop?
  {
    match m
    case Hand(k, ws) => Some(HandFft(k, ws))
    case Begin(k) => Some(StartFft(k))
    case Test(_) => None
    case Push(j, b) => Some(PushBeam(c.loops[j].slot, b))
    case Drop(j) => Some(DropRef(c.loops[j].slot))
    case Return(j) => Some(FreeFft(c.loops[j].slot))
    case Other(e) => Some(e)
  }

  /** As long as no loop goes astray, every move is a step of the pipeline or leaves it alone. */
  lemma MoveIsStep(c: Code, m: Move)
    requires CodeInv(c) && Allowed(c, m) && !m.AstrayPush?
    ensures !m.AstrayDrop?
    ensures match EventOf(c, m)
            case None => Moved(c, m).base == c.base
            case Some(e) => Enabled(c.base, e) && Moved(c, m).base == Step(c.base, e)
  {
    forall j | 0 <= j < |c.loops|
      ensures !c.loops[j].at.AstrayRefused?
    {
      assert LoopOk(c.base, c.loops[j]);
    }
  }

  /** And every step of the pipeline that is not a push loop's is a move. */
  lemma StepIsMove(c: Code, e: Event) returns (m: Move)
    requires CodeInv(c) && Enabled(c.base, e) && !e.PushBeam? && !e.DropRef? && !e.FreeFft?
    ensures Allowed(c, m) && !m.AstrayPush? && !m.AstrayDrop? && EventOf(c, m) == Some(e)
  {
    match e
    case HandFft(k, ws) => m := Hand(k, ws);
    case StartFft(k) => m := Begin(k);
    case _ => m := Other(e);
  }

  // ------------------------------------------------------------------ what is refused

  /** How often a move refuses job-symbol `w`. */
  function MoveRefused(c: Code, m: Move, w: Work): nat
    requires Allowed(c, m)
  {
    match m
    case Hand(k, ws) => Refused(c.base, HandFft(k, ws), w)
    case Push(j, b) => Refused(c.base, PushBeam(c.loops[j].slot, b), w)
    case Other(e) => Refused(c.base, e, w)
    case _ => 0
  }

  lemma MoveDrops(c: Code, m: Move, w: Work)
    requires CodeInv(c) && Allowed(c, m) && !m.AstrayPush?
    ensures Moved(c, m).base.dropped[w] == c.base.dropped[w] + MoveRefused(c, m, w)
  {
    MoveIsStep(c, m);
    match EventOf(c, m)
    case None =>
    case Some(e) => StepDrops(c.base, e, w);
  }

  ghost function MoveRefusals(cs: seq<Code>, ms: seq<Move>, n: nat, w: Work): nat
    requires IsCodeRun(cs, ms) && n <= |ms|
  {
    if n == 0 then 0 else MoveRefusals(cs, ms, n - 1, w) + MoveRefused(cs[n - 1], ms[n - 1], w)
  }

  /** In every run of the code in which no loop goes astray, a job-symbol is counted as dropped exactly as often
      as a push of it met a slot in use. */
  lemma {:induction false} CodeDropsMetOwner(fftDepth: nat, beamDepth: nat, cs: seq<Code>, ms: seq<Move>, n: nat,
                                             w: Work)
    requires IsCodeRun(cs, ms) && cs[0] == Initial(fftDepth, beamDepth) && NoneAstray(ms) && n <= |ms|
    ensures cs[n].base.dropped[w] == MoveRefusals(cs, ms, n, w)
  {
    if n > 0 {
      CodeDropsMetOwner(fftDepth, beamDepth, cs, ms, n - 1, w);
      SafeWhileNoneAstray(fftDepth, beamDepth, cs, ms, n - 1);
      MoveDrops(cs[n - 1], ms[n - 1], w);
    }
  }

  // ------------------------------------------------------------------ every FFT task at work has its loop

  predicate HasLoop(c: Code, k: nat)
    requires k < |c.base.fft|
  {
    exists j :: 0 <= j < |c.loops| && c.loops[j].slot == k && c.loops[j].life == c.base.fft[k].life
  }

  predicate AtWork(s: FftSlot) {
    s.Held? && !s.phase.Waiting? && !s.phase.Detached?
  }

  predicate Covered(c: Code) {
    forall k :: 0 <= k < |c.base.fft| && AtWork(c.base.fft[k]) ==> HasLoop(c, k)
  }

  lemma LoopStays(c: Code, m: Move, k: nat)
    requires Allowed(c, m) && k < |c.base.fft| && HasLoop(c, k)
    requires k < |Moved(c, m).base.fft| && Moved(c, m).base.fft[k].life == c.base.fft[k].life
    ensures HasLoop(Moved(c, m), k)
  {
    var d := Moved(c, m);
    var j :| 0 <= j < |c.loops| && c.loops[j].slot == k && c.loops[j].life == c.base.fft[k].life;
    assert d.loops[j].slot == k && d.loops[j].life == c.base.fft[k].life;
  }

  lemma BeginCovers(c: Code, k: nat)
    requires Allowed(c, Begin(k))
    ensures HasLoop(Moved(c, Begin(k)), k)
  {
    var d := Moved(c, Begin(k));
    assert d.loops[|c.loops|].slot == k && d.loops[|c.loops|].life == d.base.fft[k].life;
  }

  /** A slot is at work after a move only if it was before, for the same tenant, or its task has just begun. */
  lemma WorkBegins(c: Code, m: Move, k: nat)
    requires CodeInv(c) && Allowed(c, m) && !m.AstrayPush? && k < |Moved(c, m).base.fft|
    requires AtWork(Moved(c, m).base.fft[k]) && m != Begin(k)
    ensures |Moved(c, m).base.fft| == |c.base.fft|
    ensures AtWork(c.base.fft[k]) && c.base.fft[k].life == Moved(c, m).base.fft[k].life
  {
    MoveIsStep(c, m);
  }

  lemma MoveCovers(c: Code, m: Move)
    requires CodeInv(c) && Covered(c) && Allowed(c, m) && !m.AstrayPush?
    ensures Covered(Moved(c, m))
  {
    var d := Moved(c, m);
    forall k | 0 <= k < |d.base.fft| && AtWork(d.base.fft[k])
      ensures HasLoop(d, k)
    {
      if m == Begin(k) {
        BeginCovers(c, k);
      } else {
        WorkBegins(c, m, k);
        LoopStays(c, m, k);
      }
    }
  }

  // ------------------------------------------------------------------ nothing is stuck

  predicate ByWorkers(m: Move) {
    !m.Hand? && !m.AstrayPush? && !(m.Other? && m.event.HandBeam?)
  }

  lemma LoopCanMove(c: Code, k: nat) returns (m: Move)
    requires CodeInv(c) && Covered(c) && |c.base.beam| > 0 && k < |c.base.fft| && AtWork(c.base.fft[k])
    ensures ByWorkers(m) && Allowed(c, m)
  {
    assert HasLoop(c, k);
    var j :| 0 <= j < |c.loops| && c.loops[j].slot == k && c.loops[j].life == c.base.fft[k].life;
    assert LoopOk(c.base, c.loops[j]);
    if c.loops[j].at.Testing? {
      m := Test(j);
    } else {
      BodyCanMove(c, j, 0);
      m := if Allowed(c, Push(j, 0)) then Push(j, 0) else if Allowed(c, Drop(j)) then Drop(j) else Return(j);
    }
  }

  /** As long as anything is queued or in use, some task of the code can move. */
  lemma CodeIsNeverStuck(c: Code) returns (m: Move)
    requires CodeInv(c) && Covered(c) && |c.base.beam| > 0 && !Quiescent(c.base)
    ensures ByWorkers(m) && Allowed(c, m)
  {
    if k :| 0 <= k < |c.base.fft| && AtWork(c.base.fft[k]) {
      m := LoopCanMove(c, k);
    } else {
      NothingIsStuck(c.base);
      var e: Event :| ByWorker(e) && Enabled(c.base, e);
      m := StepIsMove(c, e);
    }
  }

  // ------------------------------------------------------------------ the tasks finish

  function LoopLeft(l: Loop): nat {
    match l.at
    case Testing => 2
    case InBody => 1
    case _ => 0
  }

  function LoopsLeft(ls: seq<Loop>): nat {
    if ls == [] then 0 else LoopsLeft(ls[..|ls| - 1]) + LoopLeft(ls[|ls| - 1])
  }

  /** The moves still to come: each step of the pipeline may be followed by a test and a turn into the body. */
  function MovesLeft(c: Code): nat {
    3 * Left(c.base) + LoopsLeft(c.loops)
  }

  lemma {:induction false} LoopsLeftUpdate(ls: seq<Loop>, j: nat, l: Loop)
    requires j < |ls|
    ensures LoopsLeft(ls[j := l]) + LoopLeft(ls[j]) == LoopsLeft(ls) + LoopLeft(l)
  {
    var n := |ls| - 1;
    if j == n {
      assert ls[j := l][..n] == ls[..n];
    } else {
      assert ls[j := l][..n] == ls[..n][j := l];
      LoopsLeftUpdate(ls[..n], j, l);
    }
  }

  lemma LoopsGain(c: Code, m: Move)
    requires Allowed(c, m) && !m.AstrayPush? && !m.AstrayDrop?
    ensures LoopsLeft(Moved(c, m).loops) <= LoopsLeft(c.loops) + (if m.Test? then -1 else 2)
  {
    var d := Moved(c, m);
    match m
    case Begin(_) => assert d.loops[..|c.loops|] == c.loops;
    case Test(j) => LoopsLeftUpdate(c.loops, j, d.loops[j]);
    case Push(j, _) => LoopsLeftUpdate(c.loops, j, NextTest(c.loops[j]));
    case Drop(j) => LoopsLeftUpdate(c.loops, j, NextTest(c.loops[j]));
    case Return(j) => LoopsLeftUpdate(c.loops, j, NextTest(c.loops[j]));
    case _ =>
  }

  lemma MoveSpends(c: Code, m: Move)
    requires CodeInv(c) && Allowed(c, m) && ByWorkers(m)
    ensures MovesLeft(Moved(c, m)) < MovesLeft(c)
  {
    MoveIsStep(c, m);
    LoopsGain(c, m);
    match EventOf(c, m)
    case None =>
    case Some(e) => WorkerSpends(c.base, e);
  }

  lemma {:induction false} TasksSpend(fftDepth: nat, beamDepth: nat, cs: seq<Code>, ms: seq<Move>, k: nat, n: nat)
    requires IsCodeRun(cs, ms) && cs[0] == Initial(fftDepth, beamDepth) && NoneAstray(ms)
    requires k <= n <= |ms| && forall i :: k <= i < |ms| ==> ByWorkers(ms[i])
    ensures n - k + MovesLeft(cs[n]) <= MovesLeft(cs[k])
    decreases n
  {
    if n > k {
      TasksSpend(fftDepth, beamDepth, cs, ms, k, n - 1);
      SafeWhileNoneAstray(fftDepth, beamDepth, cs, ms, n - 1);
      MoveSpends(cs[n - 1], ms[n - 1]);
    }
  }

  lemma DepthStays(c: Code, m: Move)
    requires Allowed(c, m)
    ensures |Moved(c, m).base.beam| == |c.base.beam|
  {
  }

  lemma {:induction false} RunIsCovered(fftDepth: nat, beamDepth: nat, cs: seq<Code>, ms: seq<Move>, n: nat)
    requires IsCodeRun(cs, ms) && cs[0] == Initial(fftDepth, beamDepth) && NoneAstray(ms) && n <= |ms|
    ensures Covered(cs[n]) && |cs[n].base.beam| == beamDepth
  {
    if n > 0 {
      RunIsCovered(fftDepth, beamDepth, cs, ms, n - 1);
      SafeWhileNoneAstray(fftDepth, beamDepth, cs, ms, n - 1);
      MoveCovers(cs[n - 1], ms[n - 1]);
      DepthStays(cs[n - 1], ms[n - 1]);
    }
  }

  /** In every run of the code in which no loop goes astray: once nothing more is handed over, the tasks take
      only so many moves, and when none is left all slots are free, and every job-symbol was received as often
      as it was handed over, except for the pushes of it that met a slot in use. */
  lemma TasksFinish(fftDepth: nat, beamDepth: nat, cs: seq<Code>, ms: seq<Move>, k: nat, w: Work)
    requires IsCodeRun(cs, ms) && cs[0] == Initial(fftDepth, beamDepth) && NoneAstray(ms) && beamDepth > 0
    requires k <= |ms| && forall i :: k <= i < |ms| ==> ByWorkers(ms[i])
    ensures |ms| - k <= MovesLeft(cs[k])
    ensures var c := cs[|ms|];
            (forall m: Move :: ByWorkers(m) ==> !Allowed(c, m)) ==>
              Quiescent(c.base) && c.base.handed[w] == c.base.received[w] + MoveRefusals(cs, ms, |ms|, w)
  {
    var n, c := |ms|, cs[|ms|];
    TasksSpend(fftDepth, beamDepth, cs, ms, k, n);
    SafeWhileNoneAstray(fftDepth, beamDepth, cs, ms, n);
    RunIsCovered(fftDepth, beamDepth, cs, ms, n);
    if !Quiescent(c.base) {
      var _ := CodeIsNeverStuck(c);
    } else {
      QuiescentHoldsNothing(c.base, w);
      CodeDropsMetOwner(fftDepth, beamDepth, cs, ms, n, w);
      assert ConservedFor(c.base, w);
    }
  }
}
