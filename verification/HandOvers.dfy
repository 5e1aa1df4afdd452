/** When the push loops are safe, as a condition on the stream of hand-overs: the FFT queue has one producer
    and fills its slots in ring order, so hand-over `n` goes to slot `n % depth`. */
module HandOvers {
  import opened SymbolTime
  import opened CalendarModel
  import opened WorkPipeline
  import opened PipelineSafety
  import opened PushLoop

  /** The slot of the `n`th hand-over to a ring queue: the one after the last, and the first again after the
      last slot. */
  function RingSlot(n: nat, depth: nat): (k: nat)
    requires depth > 0
    ensures k < depth
  {
    if n == 0 then 0
    else
      var k := RingSlot(n - 1, depth);
      if k + 1 == depth then 0 else k + 1
  }

  /** This is the remainder the queue computes. */
  lemma {:induction false} RingSlotIsRemainder(n: nat, depth: nat)
    requires depth > 0
    ensures RingSlot(n, depth) == n % depth
  {
    if n > 0 {
      RingSlotIsRemainder(n - 1, depth);
      NextSlotCounts(n - 1, depth);
    }
  }

  /** The hand-overs of a run, accepted or not. */
  function Stream(ms: seq<Move>): seq<seq<Work>> {
    if ms == [] then []
    else
      var last := ms[|ms| - 1];
      Stream(ms[..|ms| - 1]) + if last.Hand? then [last.works] else []
  }

  /** Each hand-over goes to the next slot of the ring. */
  predicate SlotsInOrder(ms: seq<Move>, depth: nat)
    requires depth > 0
  {
    ms == [] ||
    (var init, last := ms[..|ms| - 1], ms[|ms| - 1];
     SlotsInOrder(init, depth) && (last.Hand? ==> last.slot == RingSlot(|Stream(init)|, depth)))
  }

  /** No hand-over has more jobs than an earlier one to the same slot. */
  predicate Unrising(hs: seq<seq<Work>>, depth: nat)
    requires depth > 0
  {
    forall i, j :: 0 <= i < j < |hs| && RingSlot(i, depth) == RingSlot(j, depth) ==> |hs[j]| <= |hs[i]|
  }

  /** One of the first `n` hand-overs went to slot `k` with so many jobs. */
  predicate Given(hs: seq<seq<Work>>, n: nat, depth: nat, k: nat, jobs: nat)
    requires depth > 0
  {
    exists i :: 0 <= i < n && i < |hs| && RingSlot(i, depth) == k && |hs[i]| == jobs
  }

  /** The loop's jobs came from the stream, its slot has never since held more, and it is not astray. */
  predicate LoopGiven(c: Code, l: Loop, hs: seq<seq<Work>>, n: nat, depth: nat)
    requires depth > 0
  {
    && Given(hs, n, depth, l.slot, l.jobs)
    && l.slot < |c.memory| && |c.memory[l.slot]| <= l.jobs
    && !l.at.Astray? && !l.at.AstrayRefused?
  }

  predicate StreamInv(c: Code, hs: seq<seq<Work>>, n: nat, depth: nat)
    requires depth > 0
  {
    && (forall j :: 0 <= j < |c.loops| ==> LoopGiven(c, c.loops[j], hs, n, depth))
    && (forall k :: 0 <= k < |c.base.fft| && c.base.fft[k].Held? ==> Given(hs, n, depth, k, |c.base.fft[k].works|))
  }

  lemma GivenStays(hs: seq<seq<Work>>, n: nat, depth: nat, k: nat, jobs: nat)
    requires depth > 0 && Given(hs, n, depth, k, jobs)
    ensures Given(hs, n + 1, depth, k, jobs)
  {
    var i :| 0 <= i < n && i < |hs| && RingSlot(i, depth) == k && |hs[i]| == jobs;
    assert 0 <= i < n + 1;
  }

  lemma HandKeepsStream(c: Code, hs: seq<seq<Work>>, n: nat, depth: nat)
    requires depth > 0 && n < |hs| && Unrising(hs, depth) && StreamInv(c, hs, n, depth) && CodeInv(c)
    requires Allowed(c, Hand(RingSlot(n, depth), hs[n]))
    ensures StreamInv(Moved(c, Hand(RingSlot(n, depth), hs[n])), hs, n + 1, depth)
  {
    var d := Moved(c, Hand(RingSlot(n, depth), hs[n]));
    assert Given(hs, n + 1, depth, RingSlot(n, depth), |hs[n]|);
    forall j | 0 <= j < |d.loops|
      ensures LoopGiven(d, d.loops[j], hs, n + 1, depth)
    {
      var l := c.loops[j];
      assert LoopGiven(c, l, hs, n, depth);
      GivenStays(hs, n, depth, l.slot, l.jobs);
      var i :| 0 <= i < n && i < |hs| && RingSlot(i, depth) == l.slot && |hs[i]| == l.jobs;
      if l.slot == RingSlot(n, depth) {
        assert |hs[n]| <= |hs[i]|;
      }
    }
    forall k | 0 <= k < |d.base.fft| && d.base.fft[k].Held?
      ensures Given(hs, n + 1, depth, k, |d.base.fft[k].works|)
    {
      if c.base.fft[k].Held? {
        GivenStays(hs, n, depth, k, |c.base.fft[k].works|);
      }
    }
  }

  /** No other move adds jobs to a slot, and no test sends a loop astray. */
  lemma MoveKeepsStream(c: Code, m: Move, hs: seq<seq<Work>>, n: nat, depth: nat)
    requires depth > 0 && StreamInv(c, hs, n, depth) && CodeInv(c) && Allowed(c, m) && !m.Hand?
    ensures !m.AstrayPush? && StreamInv(Moved(c, m), hs, n, depth)
  {
    if !m.AstrayPush? && !m.AstrayDrop? {
      var d := Moved(c, m);
      SameTenants(c, m);
      forall j | 0 <= j < |d.loops|
        ensures LoopGiven(d, d.loops[j], hs, n, depth)
      {
        if j < |c.loops| {
          assert LoopGiven(c, c.loops[j], hs, n, depth);
          assert LoopOk(c.base, c.loops[j]);
        }
      }
    }
  }

  /** No slot is filled, and no tenant changes its jobs. */
  predicate NoneFilled(s: State, t: State) {
    && |t.fft| == |s.fft|
    && forall k :: 0 <= k < |t.fft| && t.fft[k].Held? ==> s.fft[k].Held? && t.fft[k].works == s.fft[k].works
  }

  lemma StepFillsNone(s: State, e: Event)
    requires Enabled(s, e) && !e.HandFft?
    ensures NoneFilled(s, Step(s, e))
  {
  }

  lemma SameTenants(c: Code, m: Move)
    requires CodeInv(c) && Allowed(c, m) && !m.Hand? && !m.AstrayPush? && !m.AstrayDrop?
    ensures Moved(c, m).memory == c.memory && NoneFilled(c.base, Moved(c, m).base)
  {
    match m
    case Begin(k) => StepFillsNone(c.base, StartFft(k));
    case Test(_) =>
    case Push(j, b) => StepFillsNone(c.base, PushBeam(c.loops[j].slot, b));
    case Drop(j) => StepFillsNone(c.base, DropRef(c.loops[j].slot));
    case Return(j) => StepFillsNone(c.base, FreeFft(c.loops[j].slot));
    case Other(e) => StepFillsNone(c.base, e);
  }

  /** The next move of a run that hands over the stream in order. */
  predicate Next(m: Move, hs: seq<seq<Work>>, n: nat, depth: nat)
    requires depth > 0
  {
    m.Hand? ==> n < |hs| && m == Hand(RingSlot(n, depth), hs[n])
  }

  lemma NextKeeps(c: Code, m: Move, hs: seq<seq<Work>>, n: nat, depth: nat)
    requires depth > 0 && Unrising(hs, depth) && StreamInv(c, hs, n, depth) && CodeInv(c) && Allowed(c, m)
    requires Next(m, hs, n, depth)
    ensures !m.AstrayPush? && CodeInv(Moved(c, m))
    ensures StreamInv(Moved(c, m), hs, if m.Hand? then n + 1 else n, depth)
  {
    if m.Hand? {
      HandKeepsStream(c, hs, n, depth);
    } else {
      MoveKeepsStream(c, m, hs, n, depth);
    }
    MoveKeeps(c, m);
  }

  lemma StreamStep(ms: seq<Move>, n: nat, hs: seq<seq<Work>>, depth: nat)
    requires depth > 0 && 0 < n <= |ms| && SlotsInOrder(ms[..n], depth) && Stream(ms[..n]) <= hs
    ensures SlotsInOrder(ms[..n - 1], depth) && Stream(ms[..n - 1]) <= hs
    ensures Next(ms[n - 1], hs, |Stream(ms[..n - 1])|, depth)
    ensures |Stream(ms[..n])| == |Stream(ms[..n - 1])| + if ms[n - 1].Hand? then 1 else 0
  {
    assert ms[..n][..n - 1] == ms[..n - 1];
    if ms[n - 1].Hand? {
      assert Stream(ms[..n])[|Stream(ms[..n - 1])|] == ms[n - 1].works;
    }
  }

  /** What holds after `n` hand-overs of the stream. */
  ghost predicate InOrder(c: Code, hs: seq<seq<Work>>, n: nat, depth: nat)
    requires depth > 0
  {
    CodeInv(c) && StreamInv(c, hs, n, depth)
  }

  lemma InitialInOrder(fftDepth: nat, beamDepth: nat, hs: seq<seq<Work>>)
    requires fftDepth > 0
    ensures InOrder(Initial(fftDepth, beamDepth), hs, 0, fftDepth)
  {
    InitialOk(fftDepth, beamDepth);
  }

  lemma RunStep(cs: seq<Code>, ms: seq<Move>, n: nat, hs: seq<seq<Work>>, depth: nat, before: nat, after: nat)
    requires IsCodeRun(cs, ms) && 0 < n <= |ms| && depth > 0 && Unrising(hs, depth)
    requires Next(ms[n - 1], hs, before, depth) && after == before + if ms[n - 1].Hand? then 1 else 0
    requires InOrder(cs[n - 1], hs, before, depth)
    ensures !ms[n - 1].AstrayPush? && InOrder(cs[n], hs, after, depth)
  {
    var c, m := cs[n - 1], ms[n - 1];
    assert Allowed(c, m) && cs[n] == Moved(c, m);
    NextKeeps(c, m, hs, before, depth);
  }

  lemma NoneAstrayMore(ms: seq<Move>, n: nat)
    requires 0 < n <= |ms| && NoneAstray(ms[..n - 1]) && !ms[n - 1].AstrayPush?
    ensures NoneAstray(ms[..n])
  {
    assert ms[..n] == ms[..n - 1] + [ms[n - 1]];
  }

  lemma {:induction false} UnrisingKeeps(fftDepth: nat, beamDepth: nat, cs: seq<Code>, ms: seq<Move>,
                                         hs: seq<seq<Work>>, n: nat)
    requires IsCodeRun(cs, ms) && fftDepth > 0 && cs[0] == Initial(fftDepth, beamDepth) && n <= |ms|
    requires SlotsInOrder(ms[..n], fftDepth) && Stream(ms[..n]) <= hs && Unrising(hs, fftDepth)
    ensures InOrder(cs[n], hs, |Stream(ms[..n])|, fftDepth) && NoneAstray(ms[..n])
  {
    if n == 0 {
      InitialInOrder(fftDepth, beamDepth, hs);
    } else {
      StreamStep(ms, n, hs, fftDepth);
      UnrisingKeeps(fftDepth, beamDepth, cs, ms, hs, n - 1);
      RunStep(cs, ms, n, hs, fftDepth, |Stream(ms[..n - 1])|, |Stream(ms[..n])|);
      NoneAstrayMore(ms, n);
    }
  }

  /** If no hand-over has more jobs than an earlier one to the same slot, every run is safe, however the
      threads interleave and whichever beam slots the pushes find. */
  lemma UnrisingIsSafe(fftDepth: nat, beamDepth: nat, cs: seq<Code>, ms: seq<Move>, hs: seq<seq<Work>>)
    requires IsCodeRun(cs, ms) && fftDepth > 0 && cs[0] == Initial(fftDepth, beamDepth)
    requires SlotsInOrder(ms, fftDepth) && Stream(ms) <= hs && Unrising(hs, fftDepth)
    ensures NoneAstray(ms) && forall n :: 0 <= n < |cs| ==> CodeInv(cs[n]) && Conserved(cs[n].base)
  {
    assert ms[..|ms|] == ms;
    UnrisingKeeps(fftDepth, beamDepth, cs, ms, hs, |ms|);
    SafeIffNoneAstray(fftDepth, beamDepth, cs, ms);
  }
}
