/** Runs of the push loop at any queue depths, with both queues filled in ring order: runs in which the slot
    is returned before the last test, by either party, and runs in which the loop then goes astray. */
module PushLoopRuns {
  import opened SymbolTime
  import opened CalendarModel
  import opened WorkPipeline
  import opened PipelineSafety
  import opened PushLoop
  import opened HandOvers

  // ------------------------------------------------------------------ runs in ring order

  /** The number of pushes into the beam queue, accepted or not. */
  function Pushes(ms: seq<Move>): nat {
    if ms == [] then 0 else Pushes(ms[..|ms| - 1]) + if ms[|ms| - 1].Push? || ms[|ms| - 1].AstrayPush? then 1 else 0
  }

  /** Each push goes to the next slot of the beam ring, and all work comes through the FFT queue. */
  predicate BeamsInOrder(ms: seq<Move>, depth: nat)
    requires depth > 0
  {
    ms == [] ||
    (var init, last := ms[..|ms| - 1], ms[|ms| - 1];
     && BeamsInOrder(init, depth)
     && (last.Push? || last.AstrayPush? ==> last.beam == RingSlot(Pushes(init), depth))
     && !(last.Other? && last.event.HandBeam?))
  }

  /** A run in codebook mode that hands over a stream, or the first part of it, with both queues in order. */
  ghost predicate Feeds(cs: seq<Code>, ms: seq<Move>, hs: seq<seq<Work>>, fftDepth: nat, beamDepth: nat)
    requires fftDepth > 0 && beamDepth > 0
  {
    && IsCodeRun(cs, ms) && cs[0] == Initial(fftDepth, beamDepth)
    && SlotsInOrder(ms, fftDepth) && BeamsInOrder(ms, beamDepth) && Stream(ms) <= hs
  }

  datatype Depths = Depths(fft: nat, beam: nat) {
    predicate Valid() { fft > 0 && beam > 0 }
  }

  datatype Run = Run(cs: seq<Code>, ms: seq<Move>)

  /** The run has handed over `hs` and pushed `q` times, no loop has pushed astray, and it has reached `c`. */
  ghost predicate RunTo(r: Run, z: Depths, hs: seq<seq<Work>>, q: nat, c: Code) {
    && z.Valid() && IsCodeRun(r.cs, r.ms) && r.cs[0] == Initial(z.fft, z.beam) && r.cs[|r.ms|] == c
    && SlotsInOrder(r.ms, z.fft) && BeamsInOrder(r.ms, z.beam)
    && Stream(r.ms) == hs && Pushes(r.ms) == q && NoneAstray(r.ms)
  }

  // ------------------------------------------------------------------ building runs

  /** A run under construction, move by move. */
  datatype Trace = Empty | Then(before: Trace, move: Move)

  function HandedIn(r: Trace): seq<seq<Work>> {
    match r
    case Empty => []
    case Then(b, m) => if m.Hand? then HandedIn(b) + [m.works] else HandedIn(b)
  }

  function PushedIn(r: Trace): nat {
    match r
    case Empty => 0
    case Then(b, m) => PushedIn(b) + if m.Push? then 1 else 0
  }

  /** The queues' order leaves the move its slot. */
  predicate Fits(m: Move, z: Depths, hs: seq<seq<Work>>, q: nat)
    requires z.Valid()
  {
    match m
    case Hand(k, _) => k == RingSlot(|hs|, z.fft)
    case Push(_, b) => b == RingSlot(q, z.beam)
    case AstrayPush(_, _, _) => false
    case Other(e) => !e.HandBeam?
    case _ => true
  }

  function EndOf(r: Trace, z: Depths): Code {
    match r
    case Empty => Initial(z.fft, z.beam)
    case Then(b, m) => if Allowed(EndOf(b, z), m) then Moved(EndOf(b, z), m) else EndOf(b, z)
  }

  predicate Proper(r: Trace, z: Depths)
    requires z.Valid()
  {
    match r
    case Empty => true
    case Then(b, m) => Proper(b, z) && Allowed(EndOf(b, z), m) && Fits(m, z, HandedIn(b), PushedIn(b))
  }

  predicate Reaches(r: Trace, z: Depths, hs: seq<seq<Work>>, q: nat, c: Code) {
    z.Valid() && Proper(r, z) && EndOf(r, z) == c && HandedIn(r) == hs && PushedIn(r) == q
  }

  lemma Grow(r: Trace, z: Depths, hs: seq<seq<Work>>, q: nat, c: Code, m: Move) returns (r': Trace)
    requires Reaches(r, z, hs, q, c) && Allowed(c, m) && Fits(m, z, hs, q)
    ensures Reaches(r', z, if m.Hand? then hs + [m.works] else hs, if m.Push? then q + 1 else q, Moved(c, m))
    ensures r' == Then(r, m)
  {
    r' := Then(r, m);
  }

  /** The run it stands for. */
  lemma {:induction false} RunOf(r: Trace, z: Depths, hs: seq<seq<Work>>, q: nat, c: Code) returns (run: Run)
    requires Reaches(r, z, hs, q, c)
    ensures RunTo(run, z, hs, q, c) && (r.Then? ==> run.ms != [] && run.ms[|run.ms| - 1] == r.move)
    decreases r
  {
    match r
    case Empty =>
      run := Run([Initial(z.fft, z.beam)], []);
    case Then(b, m) =>
      run := RunOf(b, z, HandedIn(b), PushedIn(b), EndOf(b, z));
      run := Extend(run, z, HandedIn(b), PushedIn(b), EndOf(b, z), m);
  }

  lemma RunGrows(cs: seq<Code>, ms: seq<Move>, m: Move)
    requires IsCodeRun(cs, ms) && Allowed(cs[|ms|], m)
    ensures IsCodeRun(cs + [Moved(cs[|ms|], m)], ms + [m])
  {
  }

  lemma OrdersGrow(ms: seq<Move>, z: Depths, m: Move)
    requires z.Valid() && SlotsInOrder(ms, z.fft) && BeamsInOrder(ms, z.beam) && NoneAstray(ms)
    requires Fits(m, z, Stream(ms), Pushes(ms))
    ensures var more := ms + [m];
            && SlotsInOrder(more, z.fft) && BeamsInOrder(more, z.beam) && NoneAstray(more)
            && Stream(more) == (if m.Hand? then Stream(ms) + [m.works] else Stream(ms))
            && Pushes(more) == (if m.Push? then Pushes(ms) + 1 else Pushes(ms))
  {
    assert (ms + [m])[..|ms|] == ms;
  }

  lemma Extend(r: Run, z: Depths, hs: seq<seq<Work>>, q: nat, c: Code, m: Move) returns (r': Run)
    requires RunTo(r, z, hs, q, c) && Allowed(c, m) && Fits(m, z, hs, q)
    ensures RunTo(r', z, if m.Hand? then hs + [m.works] else hs, if m.Push? then q + 1 else q, Moved(c, m))
    ensures r'.ms == r.ms + [m]
  {
    RunGrows(r.cs, r.ms, m);
    OrdersGrow(r.ms, z, m);
    r' := Run(r.cs + [Moved(c, m)], r.ms + [m]);
  }

  // ------------------------------------------------------------------ one job

  /** In `c`, slot `k`, free in `c0`, is held by `works` of which `t` are done, and its loop is before its
      next test; nothing else of the queues differs. */
  predicate Open(c0: Code, c: Code, k: nat, works: seq<Work>, t: nat) {
    && k < |c0.base.fft| == |c0.memory| && c0.base.fft[k].Free? && t < |works|
    && var life := c0.base.fft[k].life;
       && c.base.fft == c0.base.fft[k := Held(life, works, |works| - t, Pushing(t))]
       && c.base.beam == c0.base.beam && c.memory == c0.memory[k := works]
       && c.loops == c0.loops + [Loop(k, life, |works|, t, Testing)]
  }

  /** All jobs are done, the slot is returned, and the loop is before its last test. */
  predicate Closed(c0: Code, c: Code, k: nat, works: seq<Work>) {
    && k < |c0.base.fft| == |c0.memory| && c0.base.fft[k].Free?
    && var life := c0.base.fft[k].life;
       && c.base.fft == c0.base.fft[k := Free(life + 1)]
       && c.base.beam == c0.base.beam && c.memory == c0.memory[k := works]
       && c.loops == c0.loops + [Loop(k, life, |works|, |works|, Testing)]
  }

  predicate Done(c0: Code, c: Code, k: nat, works: seq<Work>, t: nat) {
    if t == |works| then Closed(c0, c, k, works) else Open(c0, c, k, works, t)
  }

  /** Job `t` is pushed to beam slot `b`, and its beam job, the youngest, stands at `pc`. */
  predicate InHand(c0: Code, c: Code, k: nat, works: seq<Work>, t: nat, b: nat, pc: Pc) {
    && k < |c0.base.fft| == |c0.memory| && c0.base.fft[k].Free? && t < |works|
    && b < |c0.base.beam| && !c0.base.beam[b] && c.base.tasks != []
    && var life := c0.base.fft[k].life;
       && c.base.fft == c0.base.fft[k := Held(life, works, |works| - t, Advance(t, |works|))]
       && c.base.beam == (if pc.Queued? || pc.Received? then c0.base.beam[b := true] else c0.base.beam)
       && c.base.tasks[|c.base.tasks| - 1] == Task(works[t], b, Shared(k, life), pc)
       && c.memory == c0.memory[k := works]
       && c.loops == c0.loops + [Loop(k, life, |works|, t + 1, Testing)]
  }

  /** The loop's next test sends it into its body. */
  function Tried(c0: Code, c: Code): Code
    requires |c.loops| == |c0.loops| + 1
  {
    c.(loops := c.loops[|c0.loops| := c.loops[|c0.loops|].(at := InBody)])
  }

  lemma TestGoesOn(c0: Code, c: Code, k: nat, works: seq<Work>, t: nat)
    requires Open(c0, c, k, works, t)
    ensures Allowed(c, Test(|c0.loops|)) && Moved(c, Test(|c0.loops|)) == Tried(c0, c)
  {
  }

  lemma PushAccepted(c0: Code, c: Code, k: nat, works: seq<Work>, t: nat, b: nat)
    requires Open(c0, c, k, works, t) && b < |c0.base.beam| && !c0.base.beam[b]
    ensures var j := |c0.loops|;
            Allowed(Tried(c0, c), Push(j, b)) && InHand(c0, Moved(Tried(c0, c), Push(j, b)), k, works, t, b, Queued)
  {
    var d := Moved(Tried(c0, c), Push(|c0.loops|, b));
    assert d.base.fft == c0.base.fft[k := Held(c0.base.fft[k].life, works, |works| - t, Advance(t, |works|))];
  }

  lemma BeamJobReceives(c0: Code, c: Code, k: nat, works: seq<Work>, t: nat, b: nat)
    requires InHand(c0, c, k, works, t, b, Queued)
    ensures var m := Other(Receive(|c.base.tasks| - 1));
            Allowed(c, m) && InHand(c0, Moved(c, m), k, works, t, b, Received)
  {
  }

  lemma BeamJobFinishes(c0: Code, c: Code, k: nat, works: seq<Work>, t: nat, b: nat)
    requires InHand(c0, c, k, works, t, b, Received)
    ensures var m := Other(FinishBeam(|c.base.tasks| - 1));
            Allowed(c, m) && InHand(c0, Moved(c, m), k, works, t, b, Decrementing)
  {
    assert c0.base.beam[b := true][b := false] == c0.base.beam;
  }

  lemma BeamJobGivesBack(c0: Code, c: Code, k: nat, works: seq<Work>, t: nat, b: nat)
    requires InHand(c0, c, k, works, t, b, Decrementing) && t + 1 < |works|
    ensures var m := Other(DropTaskRef(|c.base.tasks| - 1));
            Allowed(c, m) && Open(c0, Moved(c, m), k, works, t + 1)
  {
    var d := Moved(c, Other(DropTaskRef(|c.base.tasks| - 1)));
    assert d.base.fft == c0.base.fft[k := Held(c0.base.fft[k].life, works, |works| - t - 1, Pushing(t + 1))];
  }

  /** The last beam job has taken the count to zero and is about to return the slot. */
  predicate Zero(c0: Code, c: Code, k: nat, works: seq<Work>) {
    && k < |c0.base.fft| == |c0.memory| && c0.base.fft[k].Free? && works != [] && c.base.tasks != []
    && var life, t := c0.base.fft[k].life, c.base.tasks[|c.base.tasks| - 1];
       && c.base.fft == c0.base.fft[k := Held(life, works, 0, Detached)]
       && c.base.beam == c0.base.beam && c.memory == c0.memory[k := works]
       && t.source == Shared(k, life) && t.pc == Releasing
       && c.loops == c0.loops + [Loop(k, life, |works|, |works|, Testing)]
  }

  lemma LastBeamJobDrops(c0: Code, c: Code, k: nat, works: seq<Work>, t: nat, b: nat)
    requires InHand(c0, c, k, works, t, b, Decrementing) && t + 1 == |works|
    ensures var m := Other(DropTaskRef(|c.base.tasks| - 1));
            Allowed(c, m) && Zero(c0, Moved(c, m), k, works) && |Moved(c, m).base.tasks| == |c.base.tasks|
  {
    var d := Moved(c, Other(DropTaskRef(|c.base.tasks| - 1)));
    assert d.base.fft == c0.base.fft[k := Held(c0.base.fft[k].life, works, 0, Detached)];
  }

  lemma LastBeamJobReturns(c0: Code, c: Code, k: nat, works: seq<Work>)
    requires Zero(c0, c, k, works)
    ensures var m := Other(ReleaseFft(|c.base.tasks| - 1));
            Allowed(c, m) && Closed(c0, Moved(c, m), k, works)
  {
    var d := Moved(c, Other(ReleaseFft(|c.base.tasks| - 1)));
    assert d.base.fft == c0.base.fft[k := Free(c0.base.fft[k].life + 1)];
  }

  /** The loop is in its body after the refused push of job `t`, in this phase and with this count. */
  predicate Refusing(c0: Code, c: Code, k: nat, works: seq<Work>, t: nat, refs: int, phase: Phase) {
    && k < |c0.base.fft| == |c0.memory| && c0.base.fft[k].Free? && t < |works|
    && var life := c0.base.fft[k].life;
       && c.base.fft == c0.base.fft[k := Held(life, works, refs, phase)]
       && c.base.beam == c0.base.beam && c.memory == c0.memory[k := works]
       && c.loops == c0.loops + [Loop(k, life, |works|, t, InBody)]
  }

  lemma PushRefused(c0: Code, c: Code, k: nat, works: seq<Work>, t: nat, b: nat)
    requires Open(c0, c, k, works, t) && b < |c0.base.beam| && c0.base.beam[b]
    ensures var m := Push(|c0.loops|, b);
            && Allowed(Tried(c0, c), m)
            && Refusing(c0, Moved(Tried(c0, c), m), k, works, t, |works| - t, Dropping(t))
  {
    var d := Moved(Tried(c0, c), Push(|c0.loops|, b));
    assert d.base.fft == c0.base.fft[k := Held(c0.base.fft[k].life, works, |works| - t, Dropping(t))];
  }

  lemma LoopDrops(c0: Code, c: Code, k: nat, works: seq<Work>, t: nat)
    requires Refusing(c0, c, k, works, t, |works| - t, Dropping(t))
    ensures Allowed(c, Drop(|c0.loops|))
    ensures var d := Moved(c, Drop(|c0.loops|));
            if t + 1 < |works| then Open(c0, d, k, works, t + 1) else Refusing(c0, d, k, works, t, 0, Freeing(t))
  {
    var d, life := Moved(c, Drop(|c0.loops|)), c0.base.fft[k].life;
    if t + 1 < |works| {
      assert d.base.fft == c0.base.fft[k := Held(life, works, |works| - t - 1, Pushing(t + 1))];
    } else {
      assert d.base.fft == c0.base.fft[k := Held(life, works, 0, Freeing(t))];
    }
  }

  lemma LoopReturns(c0: Code, c: Code, k: nat, works: seq<Work>, t: nat)
    requires Refusing(c0, c, k, works, t, 0, Freeing(t)) && t + 1 == |works|
    ensures Allowed(c, Return(|c0.loops|)) && Closed(c0, Moved(c, Return(|c0.loops|)), k, works)
  {
    assert Moved(c, Return(|c0.loops|)).base.fft == c0.base.fft[k := Free(c0.base.fft[k].life + 1)];
  }

  /** Push job `t`, with room in the beam queue. */
  lemma PushOne(r: Trace, z: Depths, hs: seq<seq<Work>>, q: nat, c0: Code, c: Code, k: nat, works: seq<Work>, t: nat)
    returns (r': Trace, d: Code)
    requires Reaches(r, z, hs, q, c) && Open(c0, c, k, works, t)
    requires |c0.base.beam| == z.beam && !c0.base.beam[RingSlot(q, z.beam)]
    ensures Reaches(r', z, hs, q + 1, d) && InHand(c0, d, k, works, t, RingSlot(q, z.beam), Queued)
  {
    var j, b := |c0.loops|, RingSlot(q, z.beam);
    TestGoesOn(c0, c, k, works, t);
    r' := Grow(r, z, hs, q, c, Test(j));
    PushAccepted(c0, c, k, works, t, b);
    d := Moved(Tried(c0, c), Push(j, b));
    r' := Grow(r', z, hs, q, Tried(c0, c), Push(j, b));
  }

  /** Receive and finish the beam job. */
  lemma ServeOne(r: Trace, z: Depths, hs: seq<seq<Work>>, q: nat, c0: Code, c: Code, k: nat, works: seq<Work>, t: nat,
                 b: nat)
    returns (r': Trace, d: Code)
    requires Reaches(r, z, hs, q, c) && InHand(c0, c, k, works, t, b, Queued)
    ensures Reaches(r', z, hs, q, d) && InHand(c0, d, k, works, t, b, Decrementing)
  {
    var i := |c.base.tasks| - 1;
    BeamJobReceives(c0, c, k, works, t, b);
    var c1 := Moved(c, Other(Receive(i)));
    r' := Grow(r, z, hs, q, c, Other(Receive(i)));
    r', d := FinishOne(r', z, hs, q, c0, c1, k, works, t, b);
  }

  lemma FinishOne(r: Trace, z: Depths, hs: seq<seq<Work>>, q: nat, c0: Code, c: Code, k: nat, works: seq<Work>, t: nat,
                  b: nat)
    returns (r': Trace, d: Code)
    requires Reaches(r, z, hs, q, c) && InHand(c0, c, k, works, t, b, Received)
    ensures Reaches(r', z, hs, q, d) && InHand(c0, d, k, works, t, b, Decrementing)
  {
    var i := |c.base.tasks| - 1;
    BeamJobFinishes(c0, c, k, works, t, b);
    d := Moved(c, Other(FinishBeam(i)));
    r' := Grow(r, z, hs, q, c, Other(FinishBeam(i)));
  }

  /** Give back the beam job's reference, and the slot with the last one. */
  lemma GiveBack(r: Trace, z: Depths, hs: seq<seq<Work>>, q: nat, c0: Code, c: Code, k: nat, works: seq<Work>, t: nat,
                 b: nat)
    returns (r': Trace, d: Code)
    requires Reaches(r, z, hs, q, c) && InHand(c0, c, k, works, t, b, Decrementing)
    ensures Reaches(r', z, hs, q, d) && Done(c0, d, k, works, t + 1)
    ensures t + 1 == |works| ==> ReturnedBy(r', |c0.loops|, false)
  {
    var i := |c.base.tasks| - 1;
    if t + 1 < |works| {
      BeamJobGivesBack(c0, c, k, works, t, b);
      d := Moved(c, Other(DropTaskRef(i)));
      r' := Grow(r, z, hs, q, c, Other(DropTaskRef(i)));
    } else {
      LastBeamJobDrops(c0, c, k, works, t, b);
      d := Moved(c, Other(DropTaskRef(i)));
      r' := Grow(r, z, hs, q, c, Other(DropTaskRef(i)));
      r', d := ReleaseLast(r', z, hs, q, c0, d, k, works);
    }
  }

  lemma ReleaseLast(r: Trace, z: Depths, hs: seq<seq<Work>>, q: nat, c0: Code, c: Code, k: nat, works: seq<Work>)
    returns (r': Trace, d: Code)
    requires Reaches(r, z, hs, q, c) && Zero(c0, c, k, works)
    ensures Reaches(r', z, hs, q, d) && Closed(c0, d, k, works) && ReturnedBy(r', |c0.loops|, false)
  {
    LastBeamJobReturns(c0, c, k, works);
    d := Moved(c, Other(ReleaseFft(|c.base.tasks| - 1)));
    r' := Grow(r, z, hs, q, c, Other(ReleaseFft(|c.base.tasks| - 1)));
  }

  /** Have a push refused, give back its reference, and come back to the loop's next test. */
  lemma RefuseOne(r: Trace, z: Depths, hs: seq<seq<Work>>, q: nat, c0: Code, c: Code, k: nat, works: seq<Work>, t: nat)
    returns (r': Trace, d: Code)
    requires Reaches(r, z, hs, q, c) && Open(c0, c, k, works, t)
    requires |c0.base.beam| == z.beam && c0.base.beam[RingSlot(q, z.beam)]
    ensures Reaches(r', z, hs, q + 1, d) && Done(c0, d, k, works, t + 1)
    ensures t + 1 == |works| ==> ReturnedBy(r', |c0.loops|, true)
  {
    var j, b := |c0.loops|, RingSlot(q, z.beam);
    TestGoesOn(c0, c, k, works, t);
    r' := Grow(r, z, hs, q, c, Test(j));
    PushRefused(c0, c, k, works, t, b);
    d := Moved(Tried(c0, c), Push(j, b));
    r' := Grow(r', z, hs, q, Tried(c0, c), Push(j, b));
    r', d := LeaveRefused(r', z, hs, q + 1, c0, d, k, works, t);
  }

  lemma LeaveRefused(r: Trace, z: Depths, hs: seq<seq<Work>>, q: nat, c0: Code, c: Code, k: nat, works: seq<Work>,
                     t: nat)
    returns (r': Trace, d: Code)
    requires Reaches(r, z, hs, q, c) && Refusing(c0, c, k, works, t, |works| - t, Dropping(t))
    ensures Reaches(r', z, hs, q, d) && Done(c0, d, k, works, t + 1)
    ensures t + 1 == |works| ==> ReturnedBy(r', |c0.loops|, true)
  {
    LoopDrops(c0, c, k, works, t);
    d := Moved(c, Drop(|c0.loops|));
    r' := Grow(r, z, hs, q, c, Drop(|c0.loops|));
    if t + 1 == |works| {
      LoopReturns(c0, d, k, works, t);
      r' := Grow(r', z, hs, q, d, Return(|c0.loops|));
      d := Moved(d, Return(|c0.loops|));
    }
  }

  // ------------------------------------------------------------------ one hand-over

  /** Who made the last move and returned the slot: the loop itself, or a beam job. */
  predicate ReturnedBy(r: Trace, j: nat, loop: bool) {
    r.Then? && if loop then r.move == Return(j) else r.move.Other? && r.move.event.ReleaseFft?
  }

  /** One job, served or refused as the beam queue allows. */
  lemma DoOne(r: Trace, z: Depths, hs: seq<seq<Work>>, q: nat, c0: Code, c: Code, k: nat, works: seq<Work>, t: nat)
    returns (r': Trace, d: Code)
    requires Reaches(r, z, hs, q, c) && Open(c0, c, k, works, t) && |c0.base.beam| == z.beam
    ensures Reaches(r', z, hs, q + 1, d) && Done(c0, d, k, works, t + 1)
    ensures t + 1 == |works| ==> ReturnedBy(r', |c0.loops|, c0.base.beam[RingSlot(q, z.beam)])
  {
    var b := RingSlot(q, z.beam);
    if c0.base.beam[b] {
      r', d := RefuseOne(r, z, hs, q, c0, c, k, works, t);
    } else {
      r', d := PushOne(r, z, hs, q, c0, c, k, works, t);
      r', d := ServeOne(r', z, hs, q + 1, c0, d, k, works, t, b);
      r', d := GiveBack(r', z, hs, q + 1, c0, d, k, works, t, b);
    }
  }

  lemma {:induction false} DoJobs(r: Trace, z: Depths, hs: seq<seq<Work>>, q: nat, c0: Code, c: Code, k: nat,
                                  works: seq<Work>, t: nat, last: nat, byLoop: bool)
    returns (r': Trace, d: Code)
    requires Reaches(r, z, hs, q, c) && Open(c0, c, k, works, t) && |c0.base.beam| == z.beam
    requires last == q + |works| - t - 1 && byLoop == c0.base.beam[RingSlot(last, z.beam)]
    ensures Reaches(r', z, hs, last + 1, d) && Closed(c0, d, k, works) && ReturnedBy(r', |c0.loops|, byLoop)
    decreases |works| - t
  {
    r', d := DoOne(r, z, hs, q, c0, c, k, works, t);
    if t + 1 < |works| {
      r', d := DoJobs(r', z, hs, q + 1, c0, d, k, works, t + 1, last, byLoop);
    }
  }

  lemma HandOne(r: Trace, z: Depths, hs: seq<seq<Work>>, q: nat, c: Code, works: seq<Work>, k: nat)
    returns (r': Trace, d: Code)
    requires Reaches(r, z, hs, q, c) && 1 <= |works| <= JOBS_PER_SYMBOL && k == RingSlot(|hs|, z.fft)
    requires |c.base.fft| == |c.memory| == z.fft && c.base.fft[k].Free?
    ensures Reaches(r', z, hs + [works], q, d) && d.memory == c.memory[k := works]
    ensures d.base.fft == c.base.fft[k := Held(c.base.fft[k].life, works, 0, Waiting)]
    ensures d.base.beam == c.base.beam && d.loops == c.loops
  {
    d := Moved(c, Hand(k, works));
    r' := Grow(r, z, hs, q, c, Hand(k, works));
  }

  lemma BeginOne(r: Trace, z: Depths, hs: seq<seq<Work>>, q: nat, c: Code, works: seq<Work>, k: nat)
    returns (r': Trace, d: Code)
    requires Reaches(r, z, hs, q, c) && 1 <= |works| <= JOBS_PER_SYMBOL && k == RingSlot(|hs|, z.fft)
    requires |c.base.fft| == |c.memory| == z.fft && c.base.fft[k].Free?
    ensures Reaches(r', z, hs + [works], q, d) && Open(c, d, k, works, 0)
  {
    var c1;
    r', c1 := HandOne(r, z, hs, q, c, works, k);
    d := Moved(c1, Begin(k));
    r' := Grow(r', z, hs + [works], q, c1, Begin(k));
    assert d.base.fft == c.base.fft[k := Held(c.base.fft[k].life, works, |works|, Pushing(0))];
  }

  /** Hand over jobs to the next slot, free, and have all of them served or refused as the beam queue, which
      stays as it is, allows: the slot is returned before the loop's last test, by the loop itself exactly
      when the last push is refused. */
  lemma HandOver(r: Trace, z: Depths, hs: seq<seq<Work>>, q: nat, c: Code, works: seq<Work>, k: nat, byLoop: bool)
    returns (r': Trace, d: Code)
    requires Reaches(r, z, hs, q, c) && 1 <= |works| <= JOBS_PER_SYMBOL && k == RingSlot(|hs|, z.fft)
    requires |c.base.fft| == |c.memory| == z.fft && |c.base.beam| == z.beam && c.base.fft[k].Free?
    requires byLoop == c.base.beam[RingSlot(q + |works| - 1, z.beam)]
    ensures Reaches(r', z, hs + [works], q + |works|, d) && Closed(c, d, k, works) && ReturnedBy(r', |c.loops|, byLoop)
  {
    var last := q + |works| - 1;
    assert byLoop == c.base.beam[RingSlot(last, z.beam)];
    r', d := BeginOne(r, z, hs, q, c, works, k);
    r', d := DoJobs(r', z, hs + [works], q, c, d, k, works, 0, last, byLoop);
  }

  // ------------------------------------------------------------------ the slot is returned before the last test

  /** The last move returned the slot of loop `j`: a move of the loop itself, or of a beam job. */
  predicate EndsInReturn(r: Run, j: nat, byLoop: bool) {
    r.ms != [] && var m := r.ms[|r.ms| - 1]; if byLoop then m == Return(j) else m.Other? && m.event.ReleaseFft?
  }

  /** For any depths and any jobs of a symbol there is a run in which the last beam job returns the slot before
      the loop's last test. */
  lemma ReturnedByBeamJob(z: Depths, works: seq<Work>) returns (r: Run, d: Code)
    requires z.Valid() && 1 <= |works| <= JOBS_PER_SYMBOL
    ensures RunTo(r, z, [works], |works|, d) && EndsInReturn(r, 0, false)
    ensures |d.base.fft| == |d.memory| == z.fft && d.base.fft[0] == Free(1)
    ensures d.loops == [Loop(0, 0, |works|, |works|, Testing)]
  {
    var t;
    t, d := HandOver(Empty, z, [], 0, Initial(z.fft, z.beam), works, 0, false);
    assert [] + [works] == [works];
    r := RunOf(t, z, [works], |works|, d);
  }

  /** A beam job of slot 0 occupies beam slot 0; all other slots are free. */
  predicate Blocked(c: Code, z: Depths)
    requires z.Valid()
  {
    && |c.base.fft| == |c.memory| == z.fft && |c.base.beam| == z.beam
    && c.base.fft[0].Held? && (forall k :: 0 < k < z.fft ==> c.base.fft[k].Free?)
    && (forall b :: 0 <= b < z.beam ==> (c.base.beam[b] <==> b == 0))
  }

  lemma Block(z: Depths, other: Work) returns (r: Trace, d: Code)
    requires z.Valid()
    ensures Reaches(r, z, [[other]], 1, d) && Blocked(d, z)
  {
    var c0 := Initial(z.fft, z.beam);
    var c;
    r, c := BeginOne(Empty, z, [], 0, c0, [other], 0);
    assert [] + [[other]] == [[other]];
    r, d := PushOne(r, z, [[other]], 0, c0, c, 0, [other], 0);
  }

  /** One more hand-over: refused by slot 0, or done with in another slot. */
  lemma PassOne(r: Trace, z: Depths, hs: seq<seq<Work>>, q: nat, c: Code, other: Work) returns (r': Trace, d: Code)
    requires Reaches(r, z, hs, q, c) && Blocked(c, z)
    ensures Reaches(r', z, hs + [[other]], if RingSlot(|hs|, z.fft) == 0 then q else q + 1, d) && Blocked(d, z)
  {
    var k := RingSlot(|hs|, z.fft);
    if k == 0 {
      d := Moved(c, Hand(0, [other]));
      r' := Grow(r, z, hs, q, c, Hand(0, [other]));
    } else {
      r', d := HandOver(r, z, hs, q, c, [other], k, c.base.beam[RingSlot(q, z.beam)]);
    }
  }

  /** How many pushes until the one `ahead` pushes later falls on beam slot 0. */
  function Missing(q: nat, ahead: nat, depth: nat): nat
    requires depth > 0
  {
    if RingSlot(q + ahead, depth) == 0 then 0 else depth - RingSlot(q + ahead, depth)
  }

  lemma MissingFalls(q: nat, ahead: nat, depth: nat)
    requires depth > 0 && Missing(q, ahead, depth) > 0
    ensures Missing(q + 1, ahead, depth) == Missing(q, ahead, depth) - 1
  {
  }

  /** Go on until a push `ahead` pushes later finds beam slot 0 and the next hand-over another slot than 0. */
  lemma {:induction false} PassUntil(r: Trace, z: Depths, hs: seq<seq<Work>>, q: nat, c: Code, other: Work, ahead: nat,
                                     missing: nat, next: nat)
    returns (r': Trace, d: Code, hs': seq<seq<Work>>, q': nat)
    requires z.fft >= 2 && Reaches(r, z, hs, q, c) && Blocked(c, z)
    requires missing == Missing(q, ahead, z.beam) && next == RingSlot(|hs|, z.fft)
    ensures Reaches(r', z, hs', q', d) && Blocked(d, z)
    ensures RingSlot(|hs'|, z.fft) != 0 && Missing(q', ahead, z.beam) == 0
    decreases missing, if next == 0 then 1 else 0
  {
    r', d, hs', q' := r, c, hs, q;
    if next == 0 || missing > 0 {
      r', d := PassOne(r, z, hs, q, c, other);
      var next' := RingSlot(|hs| + 1, z.fft);
      if next == 0 {
        r', d, hs', q' := PassUntil(r', z, hs + [[other]], q, d, other, ahead, missing, next');
      } else {
        MissingFalls(q, ahead, z.beam);
        r', d, hs', q' := PassUntil(r', z, hs + [[other]], q + 1, d, other, ahead, missing - 1, next');
      }
    }
  }

  /** For any depths with more than one FFT slot, and any jobs of a symbol, there is a run in which the last
      push is refused and the loop itself returns its slot before its last test: neither a beam job of
      the symbol nor a race is needed. */
  lemma ReturnedByLoop(z: Depths, works: seq<Work>, other: Work)
    returns (r: Run, d: Code, hs: seq<seq<Work>>, q: nat, j: nat)
    requires z.Valid() && z.fft >= 2 && 1 <= |works| <= JOBS_PER_SYMBOL
    ensures RunTo(r, z, hs + [works], q, d) && EndsInReturn(r, j, true)
    ensures j < |d.loops| && d.loops[j].at == Testing && d.loops[j].next == d.loops[j].jobs == |works|
    ensures d.loops[j].slot < |d.base.fft| && d.base.fft[d.loops[j].slot].Free?
  {
    var t, c := Block(z, other);
    t, c, hs, q := PassUntil(t, z, [[other]], 1, c, other, |works| - 1,
                             Missing(1, |works| - 1, z.beam), RingSlot(1, z.fft));
    j := |c.loops|;
    t, d := HandOverBlocked(t, z, hs, q, c, works, RingSlot(|hs|, z.fft));
    q := q + |works|;
    r := RunOf(t, z, hs + [works], q, d);
  }

  lemma HandOverBlocked(r: Trace, z: Depths, hs: seq<seq<Work>>, q: nat, c: Code, works: seq<Work>, k: nat)
    returns (r': Trace, d: Code)
    requires Reaches(r, z, hs, q, c) && Blocked(c, z) && 1 <= |works| <= JOBS_PER_SYMBOL
    requires k == RingSlot(|hs|, z.fft) != 0 && Missing(q, |works| - 1, z.beam) == 0
    ensures Reaches(r', z, hs + [works], q + |works|, d) && ReturnedBy(r', |c.loops|, true)
    ensures |d.loops| == |c.loops| + 1 && k < |d.base.fft| && d.base.fft[k].Free?
    ensures d.loops[|c.loops|] == Loop(k, c.base.fft[k].life, |works|, |works|, Testing)
  {
    assert RingSlot(q + (|works| - 1), z.beam) == RingSlot(q + |works| - 1, z.beam) == 0;
    r', d := HandOver(r, z, hs, q, c, works, k, true);
  }

  // ------------------------------------------------------------------ loops that go astray

  /** All hand-overs so far are done with, and only loop `i`, if it is among them, is before its last test. */
  predicate Quiet(c: Code, hs: seq<seq<Work>>, z: Depths, i: nat)
    requires z.Valid()
  {
    && |c.base.fft| == |c.memory| == z.fft && (forall k :: 0 <= k < z.fft ==> c.base.fft[k].Free?)
    && |c.base.beam| == z.beam && (forall b :: 0 <= b < z.beam ==> !c.base.beam[b])
    && |c.loops| == |hs|
    && forall m :: 0 <= m < |hs| ==>
         && c.loops[m].slot == RingSlot(m, z.fft) && c.loops[m].jobs == c.loops[m].next == |hs[m]|
         && c.loops[m].at == if m == i then Testing else Over
  }

  /** The loop leaves if its slot has not been filled again. */
  lemma LeaveOne(r: Trace, z: Depths, hs: seq<seq<Work>>, q: nat, c0: Code, c: Code, k: nat, works: seq<Work>)
    returns (r': Trace, d: Code)
    requires Reaches(r, z, hs, q, c) && Closed(c0, c, k, works)
    ensures Reaches(r', z, hs, q, d)
    ensures d == c.(loops := c0.loops + [Loop(k, c0.base.fft[k].life, |works|, |works|, Over)])
  {
    var j := |c0.loops|;
    d := Moved(c, Test(j));
    r' := Grow(r, z, hs, q, c, Test(j));
  }

  /** One more loop, of the slot just returned, and nothing else changed. */
  lemma OneMoreLoop(c0: Code, c: Code, hs: seq<seq<Work>>, z: Depths, i: nat, k: nat, works: seq<Work>)
    requires z.Valid() && Quiet(c0, hs, z, i) && k == RingSlot(|hs|, z.fft)
    requires c.base.fft == c0.base.fft[k := Free(c0.base.fft[k].life + 1)] && c.base.beam == c0.base.beam
    requires |c.memory| == |c0.memory|
    requires c.loops == c0.loops + [Loop(k, c0.base.fft[k].life, |works|, |works|, if |hs| == i then Testing else Over)]
    ensures Quiet(c, hs + [works], z, i)
  {
  }

  lemma ServeNext(r: Trace, z: Depths, hs: seq<seq<Work>>, q: nat, c: Code, works: seq<Work>, i: nat)
    returns (r': Trace, d: Code)
    requires Reaches(r, z, hs, q, c) && Quiet(c, hs, z, i) && 1 <= |works| <= JOBS_PER_SYMBOL
    ensures Reaches(r', z, hs + [works], q + |works|, d) && Quiet(d, hs + [works], z, i)
  {
    var k := RingSlot(|hs|, z.fft);
    r', d := HandOver(r, z, hs, q, c, works, k, false);
    if |hs| != i {
      r', d := LeaveOne(r', z, hs + [works], q + |works|, c, d, k, works);
    }
    OneMoreLoop(c, d, hs, z, i, k, works);
  }

  lemma {:induction false} ServeAll(z: Depths, hs: seq<seq<Work>>, n: nat, i: nat) returns (r: Trace, c: Code, q: nat)
    requires z.Valid() && n <= |hs| && forall m :: 0 <= m < |hs| ==> 1 <= |hs[m]| <= JOBS_PER_SYMBOL
    ensures Reaches(r, z, hs[..n], q, c) && Quiet(c, hs[..n], z, i)
  {
    if n == 0 {
      r := Empty;
      c, q := Initial(z.fft, z.beam), 0;
    } else {
      r, c, q := ServeAll(z, hs, n - 1, i);
      r, c := ServeNext(r, z, hs[..n - 1], q, c, hs[n - 1], i);
      q := q + |hs[n - 1]|;
      assert hs[..n] == hs[..n - 1] + [hs[n - 1]];
    }
  }

  lemma FillAgain(r: Trace, z: Depths, hs: seq<seq<Work>>, q: nat, c: Code, i: nat, more: seq<Work>)
    returns (r': Trace, d: Code)
    requires Reaches(r, z, hs, q, c) && Quiet(c, hs, z, i) && i < |hs| && RingSlot(i, z.fft) == RingSlot(|hs|, z.fft)
    requires 1 <= |hs[i]| < |more| <= JOBS_PER_SYMBOL
    ensures Reaches(r', z, hs + [more], q, d) && i < |d.loops| && d.loops[i].at == Astray && d.loops[i].next == |hs[i]|
    ensures |d.base.beam| == z.beam && d.loops[i].slot < |d.memory| == |d.base.fft| && d.memory[d.loops[i].slot] == more
  {
    var k := RingSlot(|hs|, z.fft);
    var c1 := Moved(c, Hand(k, more));
    r' := Grow(r, z, hs, q, c, Hand(k, more));
    d := Moved(c1, Test(i));
    r' := Grow(r', z, hs + [more], q, c1, Test(i));
  }

  lemma LeadAstray(z: Depths, hs: seq<seq<Work>>, more: seq<Work>, i: nat) returns (r: Trace, c: Code, q: nat)
    requires z.Valid() && (forall m :: 0 <= m < |hs| ==> 1 <= |hs[m]| <= JOBS_PER_SYMBOL)
    requires i < |hs| && RingSlot(i, z.fft) == RingSlot(|hs|, z.fft) && |hs[i]| < |more| <= JOBS_PER_SYMBOL
    ensures Reaches(r, z, hs + [more], q, c) && i < |c.loops| && c.loops[i].at == Astray && c.loops[i].next == |hs[i]|
    ensures |c.base.beam| == z.beam && c.loops[i].slot < |c.memory| == |c.base.fft|
    ensures c.memory[c.loops[i].slot] == more
  {
    assert hs[..|hs|] == hs;
    r, c, q := ServeAll(z, hs, |hs|, i);
    r, c := FillAgain(r, z, hs, q, c, i, more);
  }

  lemma AstrayRun(z: Depths, hs: seq<seq<Work>>, more: seq<Work>, i: nat) returns (r: Run)
    requires z.Valid() && (forall m :: 0 <= m < |hs| ==> 1 <= |hs[m]| <= JOBS_PER_SYMBOL)
    requires i < |hs| && RingSlot(i, z.fft) == RingSlot(|hs|, z.fft) && |hs[i]| < |more| <= JOBS_PER_SYMBOL
    ensures Feeds(r.cs, r.ms, hs + [more], z.fft, z.beam) && |r.ms| > 0 && r.ms[|r.ms| - 1].AstrayPush?
    ensures r.ms[|r.ms| - 1].work == more[|hs[i]|] && !ConservedFor(r.cs[|r.ms|].base, more[|hs[i]|])
  {
    var t, c, q := LeadAstray(z, hs, more, i);
    r := RunOf(t, z, hs + [more], q, c);
    r := PushAstray(r, z, hs + [more], q, c, i, more[|hs[i]|]);
  }

  lemma FeedsMore(r: Run, hs: seq<seq<Work>>, more: seq<seq<Work>>, z: Depths)
    requires z.Valid() && Feeds(r.cs, r.ms, hs, z.fft, z.beam) && hs <= more
    ensures Feeds(r.cs, r.ms, more, z.fft, z.beam)
  {
  }

  /** Whenever a hand-over has more jobs than an earlier one to the same slot, there is a run, at these depths
      and in ring order, in which the earlier loop pushes one of the later jobs, which from then on is
      accounted for once too often. Two worker threads are enough for it. */
  lemma GoesAstray(z: Depths, hs: seq<seq<Work>>, i: nat, j: nat) returns (r: Run)
    requires z.Valid() && forall m :: 0 <= m < |hs| ==> 1 <= |hs[m]| <= JOBS_PER_SYMBOL
    requires i < j < |hs| && RingSlot(i, z.fft) == RingSlot(j, z.fft) && |hs[i]| < |hs[j]|
    ensures Feeds(r.cs, r.ms, hs, z.fft, z.beam) && |r.ms| > 0 && r.ms[|r.ms| - 1].AstrayPush?
    ensures r.ms[|r.ms| - 1].work == hs[j][|hs[i]|] && !ConservedFor(r.cs[|r.ms|].base, hs[j][|hs[i]|])
  {
    var before, more := hs[..j], hs[j];
    assert |before| == j && before[i] == hs[i] && before + [more] <= hs;
    r := AstrayRun(z, before, more, i);
    FeedsMore(r, before + [more], hs, z);
  }

  lemma PushAstray(r: Run, z: Depths, hs: seq<seq<Work>>, q: nat, c: Code, i: nat, w: Work) returns (r': Run)
    requires RunTo(r, z, hs, q, c) && i < |c.loops| && c.loops[i].at == Astray
    requires |c.base.beam| == z.beam && c.loops[i].slot < |c.memory| == |c.base.fft|
    requires c.loops[i].next < |c.memory[c.loops[i].slot]| && w == c.memory[c.loops[i].slot][c.loops[i].next]
    ensures Feeds(r'.cs, r'.ms, hs, z.fft, z.beam) && r'.ms == r.ms + [AstrayPush(i, RingSlot(q, z.beam), w)]
    ensures !ConservedFor(r'.cs[|r'.ms|].base, w)
  {
    var m := AstrayPush(i, RingSlot(q, z.beam), w);
    ReachedIsConserved(r, z, hs, q, c, w);
    AstrayPushBreaks(c, i, RingSlot(q, z.beam), w);
    RunGrows(r.cs, r.ms, m);
    AstrayInOrder(r.ms, z, m);
    r' := Run(r.cs + [Moved(c, m)], r.ms + [m]);
  }

  lemma ReachedIsConserved(r: Run, z: Depths, hs: seq<seq<Work>>, q: nat, c: Code, w: Work)
    requires RunTo(r, z, hs, q, c)
    ensures ConservedFor(c.base, w)
  {
    assert r.ms[..|r.ms|] == r.ms;
    SafeWhileNoneAstray(z.fft, z.beam, r.cs, r.ms, |r.ms|);
  }

  lemma AstrayInOrder(ms: seq<Move>, z: Depths, m: Move)
    requires z.Valid() && SlotsInOrder(ms, z.fft) && BeamsInOrder(ms, z.beam)
    requires m.AstrayPush? && m.beam == RingSlot(Pushes(ms), z.beam)
    ensures SlotsInOrder(ms + [m], z.fft) && BeamsInOrder(ms + [m], z.beam) && Stream(ms + [m]) == Stream(ms)
  {
    assert (ms + [m])[..|ms|] == ms;
  }

  // ------------------------------------------------------------------ exactly when

  ghost predicate SafeRun(cs: seq<Code>) {
    forall n :: 0 <= n < |cs| ==> CodeInv(cs[n]) && Conserved(cs[n].base)
  }

  /** Every run that hands over the stream is safe. */
  ghost predicate AlwaysSafe(hs: seq<seq<Work>>, z: Depths)
    requires z.Valid()
  {
    forall cs, ms :: Feeds(cs, ms, hs, z.fft, z.beam) ==> SafeRun(cs)
  }

  /** For every stream of hand-overs and any queue depths: every run of the code that hands the stream over
      keeps reference counts, releases and job-symbols in order if and only if no hand-over has more jobs
      than an earlier one to the same slot. */
  lemma SafeIffUnrising(hs: seq<seq<Work>>, z: Depths)
    requires z.Valid() && forall m :: 0 <= m < |hs| ==> 1 <= |hs[m]| <= JOBS_PER_SYMBOL
    ensures AlwaysSafe(hs, z) <==> Unrising(hs, z.fft)
  {
    if Unrising(hs, z.fft) {
      forall cs, ms | Feeds(cs, ms, hs, z.fft, z.beam)
        ensures SafeRun(cs)
      {
        UnrisingIsSafe(z.fft, z.beam, cs, ms, hs);
      }
    } else {
      var i, j :| 0 <= i < j < |hs| && RingSlot(i, z.fft) == RingSlot(j, z.fft) && |hs[i]| < |hs[j]|;
      var r := GoesAstray(z, hs, i, j);
      assert !Conserved(r.cs[|r.ms|].base);
      assert !SafeRun(r.cs);
    }
  }

  // ------------------------------------------------------------------ which tests are safe

  /** The test with index `n` of a loop with `jobs` jobs. */
  predicate AtTest(c: Code, j: nat, jobs: nat, n: nat) {
    Allowed(c, Test(j)) && c.loops[j].jobs == jobs && c.loops[j].next == n
  }

  predicate OwnSlot(c: Code, j: nat)
    requires j < |c.loops|
  {
    Live(c.base, Shared(c.loops[j].slot, c.loops[j].life))
  }

  /** In every run, as long as no loop has pushed astray, that test reads a slot its own tenancy holds. */
  ghost predicate AlwaysOwn(z: Depths, jobs: nat, n: nat) {
    forall r, hs, q, d, j: nat :: RunTo(r, z, hs, q, d) && AtTest(d, j, jobs, n) ==> OwnSlot(d, j)
  }

  /** At any depths the test with index `n` always reads its own slot exactly when jobs remain to be pushed:
      every test but the last. */
  lemma OnlyLastTestIsUnsafe(z: Depths, jobs: nat, n: nat, w: Work)
    requires z.Valid() && 1 <= jobs <= JOBS_PER_SYMBOL && n <= jobs
    ensures AlwaysOwn(z, jobs, n) <==> n < jobs
  {
    if n < jobs {
      forall r, hs, q, d, j: nat | RunTo(r, z, hs, q, d) && AtTest(d, j, jobs, n)
        ensures OwnSlot(d, j)
      {
        assert r.ms[..|r.ms|] == r.ms;
        SafeWhileNoneAstray(z.fft, z.beam, r.cs, r.ms, |r.ms|);
        EarlierTestsReadOwnSlot(d, j);
      }
    } else {
      var works := seq(jobs, i => w);
      var r, d := ReturnedByBeamJob(z, works);
      assert AtTest(d, 0, jobs, n) && !OwnSlot(d, 0);
    }
  }
}
