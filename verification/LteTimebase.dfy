/** The LTE radio unit's receive timebase: equal subframes, drift absorption, and the frame
    resynchronisation command. */
module LteTimebase {
  import opened Arithmetic
  import opened SymbolTime
  import LookAhead

  const SUBFRAMES := 10

  /** Recovering frame and subframe from a sample of the `k`th subframe. */
  lemma DecodeSubframe(k: nat, delta: nat, samples: nat)
    requires delta < samples
    ensures samples * SUBFRAMES > 0
    ensures (k * samples + delta) / (samples * SUBFRAMES) == k / SUBFRAMES && (k * samples + delta) / samples == k
  {
    var q, r := Divide(k, SUBFRAMES);
    MulDistributes(q * SUBFRAMES, r, samples);
    MulMonotone(r, SUBFRAMES, samples);
    MulAssociates(q, SUBFRAMES, samples);
    DivModUnique(q, samples * SUBFRAMES, r * samples + delta);
    DivModUnique(k, samples, delta);
  }

  /** Whole subframes before time zero, for a negative time. */
  function Behind(k: int, delta: nat): nat
    requires k < 0
  {
    if delta == 0 then -k else -k - 1
  }

  /** Before time zero the C divisions count whole subframes and frames backwards from it. */
  lemma DecodeBeforeZero(k: int, delta: nat, samples: nat)
    requires k < 0 && delta < samples
    ensures k * samples + delta < 0 && samples * SUBFRAMES > 0
    ensures CDiv(k * samples + delta, samples) == 0 - Behind(k, delta)
    ensures CDiv(k * samples + delta, samples * SUBFRAMES) == 0 - Behind(k, delta) / SUBFRAMES
  {
    var b, r := Behind(k, delta), if delta == 0 then 0 else samples - delta;
    MulMinus(0, k, samples);
    MulMinus(-k, 1, samples);
    MulMonotone(1, -k, samples);
    assert -(k * samples + delta) == b * samples + r;
    DecodeSubframe(b, r, samples);
  }

  class RadioUnit {
    const samples: nat
    var timestampRx: int
    var tsOffset: int
    var frameRx: int
    var ttiRx: int
    var firstRx: bool
    var frame: int
    var subframe: int
    var exited: bool
    /** Whole subframes since local time zero, negative before it, and the rest of local time. */
    ghost var k: int
    ghost var delta: nat

    ghost predicate Valid()
      reads this
    {
      samples > 0 && (!firstRx ==> timestampRx == k * samples + delta && delta < samples)
    }

    /** Recovered and local frame and subframe agree. */
    ghost predicate Synced()
      reads this
    {
      && !firstRx && !exited && k >= 0
      && frame == frameRx == (k / SUBFRAMES) % FRAMES && subframe == ttiRx == k % SUBFRAMES
    }

    constructor (samples: nat)
      requires samples > 0
      ensures Valid() && firstRx && !exited && tsOffset == 0 && this.samples == samples
      ensures frame == 1023 && subframe == 9
    {
      this.samples := samples;
      timestampRx, tsOffset, frameRx, ttiRx, firstRx, exited, k, delta := 0, 0, 0, 0, true, false, 0, 0;
      frame, subframe := FRAMES - 1, SUBFRAMES - 1;
    }

    method Count()
      modifies this`frame, this`subframe
      ensures subframe == if old(subframe) == 9 then 0 else old(subframe) + 1
      ensures frame == if old(subframe) == 9 then (old(frame) + 1) % FRAMES else old(frame)
    {
      if subframe == 9 {
        subframe, frame := 0, (frame + 1) % FRAMES;
      } else {
        subframe := subframe + 1;
      }
    }

    /** Recover frame and subframe and compare them with the local counters, or adopt them. */
    method Recover()
      requires timestampRx == k * samples + delta && delta < samples
      modifies this`frameRx, this`ttiRx, this`frame, this`subframe, this`exited, this`firstRx
      ensures k >= 0 ==> frameRx == (k / SUBFRAMES) % FRAMES && ttiRx == k % SUBFRAMES
      ensures k < 0 ==> timestampRx < 0 && DecodedBeforeZero(Behind(k, delta), frameRx, ttiRx)
      ensures !firstRx
      ensures old(firstRx) ==> frame == frameRx && subframe == ttiRx && exited == old(exited)
      ensures !old(firstRx) ==> frame == old(frame) && subframe == old(subframe)
                                && exited == (old(exited) || ttiRx != subframe || frameRx != frame)
    {
      if k >= 0 {
        DecodeSubframe(k, delta, samples);
        MulMonotone(0, k, samples);
      } else {
        DecodeBeforeZero(k, delta, samples);
      }
      frameRx := CDiv(timestampRx, samples * SUBFRAMES) % FRAMES;
      ttiRx := CMod(CDiv(timestampRx, samples), SUBFRAMES);
      if !firstRx {
        if ttiRx != subframe {
          exited := true;
        }
        if frameRx != frame {
          exited := true;
        }
      } else {
        firstRx := false;
        frame, subframe := frameRx, ttiRx;
      }
    }

    /** The first read makes its own timestamp the local time zero. */
    method First(ts: int)
      requires Valid() && firstRx && !exited
      modifies this
      ensures Valid() && Synced() && k == delta == 0 && (old(tsOffset) == 0 ==> ts == timestampRx + tsOffset)
    {
      Count();
      timestampRx := ts - tsOffset;
      tsOffset := timestampRx;
      timestampRx, k, delta := 0, 0, 0;
      Recover();
    }

    /** A later read under an arbitrary device timestamp. */
    method Next(ts: int)
      requires Valid() && Synced()
      modifies this
      ensures Valid() && Synced() && k == old(k) + 1 && delta == old(delta) && ts == timestampRx + tsOffset
      ensures subframe == Following(old(subframe))
    {
      NextSlotCounts(k, SUBFRAMES);
      Count();
      var oldTs := timestampRx;
      timestampRx := ts - tsOffset;
      if timestampRx - oldTs != samples {
        tsOffset := tsOffset + (timestampRx - oldTs - samples);
        timestampRx := ts - tsOffset;
      }
      MulDistributes(k, 1, samples);
      k := k + 1;
      Recover();
    }

    /** A frame resynchronisation to frame `target`: local time jumps by whole frames, and the drift
        of the same read is not absorbed: together with what earlier resynchronisations left over it
        makes `rest` samples, which shift local time by `moved` subframes. The counters keep
        agreeing exactly when that shift and the frame boundary cancel over whole hyper-frames. If the
        shift reaches back before local time zero, the exits are taken unless the new subframe is the
        first of a frame and the time before zero is whole frames short of it. */
    method Resynch(ts: int, target: nat, ghost rest: int) returns (ghost moved: int)
      requires Valid() && Synced() && target < FRAMES
      requires rest == delta + (ts - tsOffset - timestampRx - samples)
      modifies this
      ensures Valid() && !firstRx && ts == timestampRx + tsOffset
      ensures moved == rest / samples && delta == rest % samples
      ensures k == old(k) + 1 + (target - old(frameRx)) * SUBFRAMES + moved
      ensures subframe == Following(old(subframe)) && frame == target
      ensures Synced() <==> k >= 0 && Cancels(moved, old(subframe))
      ensures k >= 0 && !Synced() ==> exited
      ensures k < 0 ==> timestampRx < 0 && (exited <==> !MeetsBeforeZero(Behind(k, delta), target, old(subframe)))
    {
      ghost var m := k + 1 + (target - frameRx) * SUBFRAMES;
      JumpedCounts(k, target);
      AgreesAfterZero(k, target, m, rest / samples);
      Count();
      moved := Jump(ts, target, m, rest);
      frame := target;
      Compare(old(subframe));
    }

    /** What comparing the recovered time with the counters comes to, on either side of time zero. */
    method Compare(ghost previous: int)
      requires Valid() && !firstRx && !exited && 0 <= frame < FRAMES
      requires 0 <= previous < SUBFRAMES && subframe == Following(previous)
      modifies this`frameRx, this`ttiRx, this`frame, this`subframe, this`exited, this`firstRx
      ensures Valid() && !firstRx && frame == old(frame) && subframe == old(subframe)
      ensures k >= 0 ==>
                && (Synced() <==> (k / SUBFRAMES) % FRAMES == frame && k % SUBFRAMES == subframe)
                && (Synced() <==> !exited)
      ensures k < 0 ==> timestampRx < 0 && (exited <==> !MeetsBeforeZero(Behind(k, delta), frame, previous))
    {
      Recover();
      if k < 0 {
        MeetsMeans(Behind(k, delta), frame, previous, frameRx, ttiRx);
      }
    }

    /** Shift local time by whole frames; what the device drifted stays in it. */
    method Jump(ts: int, target: nat, ghost m: nat, ghost rest: int) returns (ghost moved: int)
      requires Valid() && !firstRx && k >= 0 && m == k + 1 + (target - frameRx) * SUBFRAMES
      requires rest == delta + (ts - tsOffset - timestampRx - samples)
      modifies this`tsOffset, this`timestampRx, this`k, this`delta
      ensures ts == timestampRx + tsOffset
      ensures moved == rest / samples
      ensures delta == rest % samples
      ensures k == m + moved && timestampRx == k * samples + delta && delta < samples
    {
      if frameRx > target {
        tsOffset := tsOffset + Shift(frameRx - target, samples);
      } else {
        tsOffset := tsOffset - Shift(-frameRx + target, samples);
      }
      ShiftBack(frameRx - target, samples);
      timestampRx := ts - tsOffset;
      JumpedTime(k, target - frameRx, samples, m);
      MovedTime(m, rest, samples);
      moved, delta := rest / samples, rest % samples;
      k := m + moved;
    }

    /** Without drift in the same read, a resynchronisation succeeds exactly when the read does not
        start a frame. */
    method ResynchWithoutDrift(ts: int, target: nat)
      requires Valid() && Synced() && target < FRAMES
      requires ts - tsOffset == timestampRx + samples
      modifies this
      ensures Valid() && delta == old(delta)
      ensures Synced() <==> old(subframe) != 9
      ensures !Synced() ==> exited
      ensures Synced() ==> frame == target
    {
      JumpedCounts(k, target);
      DivModUnique(0, samples, delta);
      ghost var moved := Resynch(ts, target, delta);
    }

    /** From the first read over any sequence of reads and resynchronisation commands: the run stays in step up
        to the first command that does not keep it, and at that command the exits are taken or local time
        is before zero. */
    method Run(first: int, rs: seq<Read>) returns (kept: nat)
      requires Valid() && firstRx && !exited && tsOffset == 0
      requires forall i :: 0 <= i < |rs| && rs[i].Resync? ==> rs[i].target < FRAMES
      modifies this
      ensures Valid() && kept <= |rs|
      ensures forall i :: 0 <= i < kept ==> Kept(first, rs, i, samples)
      ensures kept < |rs| ==> !Kept(first, rs, kept, samples) && !Synced() && (exited || timestampRx < 0)
      ensures kept == |rs| ==> Synced() && k == LocalTime(first, rs, kept, samples).k
                                  && delta == LocalTime(first, rs, kept, samples).delta
      ensures rs != [] && kept == |rs| ==> rs[kept - 1].ts == timestampRx + tsOffset
      ensures (forall i :: 0 <= i < |rs| ==> rs[i].Plain?) ==>
                kept == |rs| && timestampRx == |rs| * samples
    {
      First(first);
      kept := 0;
      while kept < |rs|
        invariant 0 <= kept <= |rs| && InStep(first, rs, kept)
        invariant forall i :: 0 <= i < kept ==> Kept(first, rs, i, samples)
      {
        var ok := Turn(first, rs, kept);
        if !ok {
          return;
        }
        kept := kept + 1;
      }
      if forall i :: 0 <= i < |rs| ==> rs[i].Plain? {
        PlainTime(first, rs, |rs|, samples);
      }
    }

    /** The state after `n` reads that were all kept. */
    ghost predicate InStep(first: int, rs: seq<Read>, n: nat)
      requires n <= |rs|
      reads this
    {
      && Valid() && Synced() && subframe == n % SUBFRAMES
      && Local(k, delta) == LocalTime(first, rs, n, samples)
      && DeviceTime(first, rs, n) == timestampRx + tsOffset
    }

    method Turn(first: int, rs: seq<Read>, n: nat) returns (ok: bool)
      requires n < |rs| && InStep(first, rs, n) && (rs[n].Resync? ==> rs[n].target < FRAMES)
      modifies this
      ensures ok <==> Kept(first, rs, n, samples)
      ensures if ok then InStep(first, rs, n + 1) else Valid() && !Synced() && (exited || timestampRx < 0)
    {
      NextSlotCounts(n, SUBFRAMES);
      if rs[n].Plain? {
        Next(rs[n].ts);
        ok := true;
      } else {
        ok := TurnWithCommand(first, rs, n);
      }
    }

    method TurnWithCommand(first: int, rs: seq<Read>, n: nat) returns (ok: bool)
      requires n < |rs| && InStep(first, rs, n) && rs[n].Resync? && rs[n].target < FRAMES
      modifies this
      ensures ok <==> Kept(first, rs, n, samples)
      ensures if ok then InStep(first, rs, n + 1) else Valid() && !Synced() && (exited || timestampRx < 0)
    {
      NextSlotCounts(n, SUBFRAMES);
      ghost var rest := delta + Drift(first, rs, n, samples);
      ghost var moved := Resynch(rs[n].ts, rs[n].target, rest);
      SignOfTime(k, delta, samples);
      ok := !exited && timestampRx >= 0;
    }
  }

  lemma SignOfTime(k: int, delta: nat, samples: nat)
    requires delta < samples
    ensures k * samples + delta >= 0 <==> k >= 0
  {
    if k >= 0 {
      MulMonotone(0, k, samples);
    } else {
      DecodeBeforeZero(k, delta, samples);
    }
  }

  /** What a time so many whole subframes before zero decodes to: the subframe counts down through negative
      numbers. */
  predicate DecodedBeforeZero(behind: nat, frameRx: int, ttiRx: int) {
    frameRx == (0 - behind / SUBFRAMES) % FRAMES && ttiRx == -(behind % SUBFRAMES)
  }

  /** So far before time zero, frame and subframe decode to the target and to what follows `subframe`. */
  predicate MeetsBeforeZero(behind: nat, target: int, subframe: int) {
    subframe == 9 && behind % SUBFRAMES == 0 && (behind / SUBFRAMES + target) % FRAMES == 0
  }

  lemma {:induction false} MeetsMeans(behind: nat, frame: int, previous: int, frameRx: int, ttiRx: int)
    requires DecodedBeforeZero(behind, frameRx, ttiRx)
    requires 0 <= frame < FRAMES && 0 <= previous < SUBFRAMES
    ensures frameRx == frame && ttiRx == Following(previous) <==> MeetsBeforeZero(behind, frame, previous)
  {
    FramesBefore(behind / SUBFRAMES, frame);
  }

  function Following(subframe: int): int {
    if subframe == 9 then 0 else subframe + 1
  }

  /** Moving by so many subframes and passing the frame boundary, if it is one, makes whole hyper-frames. */
  predicate Cancels(moved: int, subframe: int) {
    moved % SUBFRAMES == 0 && (moved / SUBFRAMES + (if subframe == 9 then 1 else 0)) % FRAMES == 0
  }

  // ------------------------------------------------------------------ runs with commands

  /** A read, with the device's timestamp; a resynchronisation command takes effect on a read. */
  datatype Read = Plain(ts: int) | Resync(ts: int, target: nat)

  datatype Local = Local(k: int, delta: nat)

  /** The device's timestamp before read `n`. */
  function DeviceTime(first: int, rs: seq<Read>, n: nat): int
    requires n <= |rs|
  {
    if n == 0 then first else rs[n - 1].ts
  }

  /** How far read `n` is off one subframe. */
  function Drift(first: int, rs: seq<Read>, n: nat, samples: nat): int
    requires n < |rs|
  {
    rs[n].ts - DeviceTime(first, rs, n) - samples
  }

  /** Local time after `n` reads, as long as every command kept it. */
  function LocalTime(first: int, rs: seq<Read>, n: nat, samples: nat): Local
    requires n <= |rs| && samples > 0
  {
    if n == 0 then Local(0, 0)
    else
      Advanced(LocalTime(first, rs, n - 1, samples), rs[n - 1], Drift(first, rs, n - 1, samples), samples)
  }

  /** A read absorbs its drift and advances local time by a subframe; a command jumps by whole frames and
      lets the drift in. */
  function Advanced(t: Local, r: Read, drift: int, samples: nat): Local
    requires samples > 0
  {
    match r
    case Plain(_) => Local(t.k + 1, t.delta)
    case Resync(_, target) =>
      var rest := t.delta + drift;
      Local(t.k + 1 + (target - (t.k / SUBFRAMES) % FRAMES) * SUBFRAMES + rest / samples, rest % samples)
  }

  /** Read `n` keeps the counters in agreement: it is no command, or it does not reach back before zero and
      what it moves cancels. */
  predicate Kept(first: int, rs: seq<Read>, n: nat, samples: nat)
    requires n < |rs| && samples > 0
  {
    rs[n].Plain? ||
    (var rest := LocalTime(first, rs, n, samples).delta + Drift(first, rs, n, samples);
     LocalTime(first, rs, n + 1, samples).k >= 0 && Cancels(rest / samples, n % SUBFRAMES))
  }

  /** Without commands, local time is exactly `n` subframes after `n` reads, whatever the device does. */
  lemma {:induction false} PlainTime(first: int, rs: seq<Read>, n: nat, samples: nat)
    requires n <= |rs| && samples > 0 && forall i :: 0 <= i < |rs| ==> rs[i].Plain?
    ensures LocalTime(first, rs, n, samples) == Local(n, 0)
  {
    if n > 0 {
      PlainTime(first, rs, n - 1, samples);
    }
  }

  /** Nine undisturbed reads and then a command, without any drift: the command is not kept. */
  lemma CommandAtFrameEnd(samples: nat, target: nat)
    requires samples > 0 && target < FRAMES
    ensures var rs := seq(9, i requires 0 <= i < 9 => Plain((i + 1) * samples)) + [Resync(10 * samples, target)];
            !Kept(0, rs, 9, samples)
  {
    var plain := seq(9, i requires 0 <= i < 9 => Plain((i + 1) * samples));
    var rs := plain + [Resync(10 * samples, target)];
    SamePrefix(0, plain, rs, 9, samples);
    PlainTime(0, plain, 9, samples);
    assert Drift(0, rs, 9, samples) == 0;
  }

  lemma {:induction false} SamePrefix(first: int, a: seq<Read>, b: seq<Read>, n: nat, samples: nat)
    requires n <= |a| <= |b| && samples > 0 && a == b[..|a|]
    ensures LocalTime(first, a, n, samples) == LocalTime(first, b, n, samples)
  {
    if n > 0 {
      SamePrefix(first, a, b, n - 1, samples);
    }
  }

  // ------------------------------------------------------------------ jumps

  /** Samples of a number of frames. */
  function Shift(frames: int, samples: nat): int {
    frames * samples * SUBFRAMES
  }

  lemma ShiftBack(frames: int, samples: nat)
    ensures Shift(-frames, samples) == -Shift(frames, samples)
  {
  }

  lemma JumpedTime(k: nat, jump: int, samples: nat, m: nat)
    requires m == k + 1 + jump * SUBFRAMES
    ensures k * samples + samples + Shift(jump, samples) == m * samples
  {
    var x := jump * samples;
    assert (jump * SUBFRAMES) * samples == x * SUBFRAMES;
    assert m * samples == (k + 1) * samples + (jump * SUBFRAMES) * samples;
  }

  lemma MovedTime(m: nat, rest: int, samples: nat)
    requires samples > 0
    ensures m * samples + rest == (m + rest / samples) * samples + rest % samples
    ensures 0 <= rest % samples < samples
  {
    var moved := rest / samples;
    MulMinus(m, -moved, samples);
    MulMinus(0, moved, samples);
  }

  lemma JumpedCounts(k: nat, target: nat)
    requires target < FRAMES
    ensures var m := k + 1 + (target - (k / SUBFRAMES) % FRAMES) * SUBFRAMES;
            && m >= 0 && m % SUBFRAMES == (k + 1) % SUBFRAMES
            && (m / SUBFRAMES) % FRAMES == if k % SUBFRAMES == 9 then (target + 1) % FRAMES else target
  {
    var q, r := Divide(k, SUBFRAMES);
    var hyper, f := Divide(q, FRAMES);
    var base := hyper * FRAMES + target;
    NextSlotCounts(k, SUBFRAMES);
    DivModUnique(hyper, FRAMES, target);
    if r == 9 {
      DivModUnique(base + 1, SUBFRAMES, 0);
      ModAdd(base, 1, FRAMES);
    } else {
      DivModUnique(base, SUBFRAMES, r + 1);
    }
  }

  /** Where a jump to the target frame and a further move lands, the counters agree exactly when the move and
      the frame boundary cancel. */
  lemma AgreesAfterZero(k: nat, target: nat, m: nat, moved: int)
    requires target < FRAMES && m == k + 1 + (target - (k / SUBFRAMES) % FRAMES) * SUBFRAMES
    ensures m + moved >= 0 ==>
              (((m + moved) / SUBFRAMES) % FRAMES == target && (m + moved) % SUBFRAMES == Following(k % SUBFRAMES)
               <==> Cancels(moved, k % SUBFRAMES))
  {
    NextSlotCounts(k, SUBFRAMES);
    JumpedCounts(k, target);
    SubframesMoved(m, moved);
    FramesMoved(m / SUBFRAMES, moved / SUBFRAMES, target, if k % SUBFRAMES == 9 then 1 else 0);
  }

  /** Frame numbers before time zero count down from 1024. */
  lemma FramesBefore(q: nat, target: nat)
    requires target < FRAMES
    ensures (0 - q) % FRAMES == target <==> (q + target) % FRAMES == 0
  {
  }

  lemma SubframesMoved(m: nat, moved: int)
    ensures (m + moved) % SUBFRAMES == m % SUBFRAMES <==> moved % SUBFRAMES == 0
    ensures moved % SUBFRAMES == 0 ==> (m + moved) / SUBFRAMES == m / SUBFRAMES + moved / SUBFRAMES
  {
    var g, h := moved / SUBFRAMES, moved % SUBFRAMES;
    var q, r := Divide(m, SUBFRAMES);
    IntShift(r + h, q + g, SUBFRAMES);
    assert m + moved == r + h + (q + g) * SUBFRAMES;
    if r + h < SUBFRAMES {
      IntQuotient(r + h, 0, r + h, SUBFRAMES);
    } else {
      IntQuotient(r + h, 1, r + h - SUBFRAMES, SUBFRAMES);
    }
  }

  /** `b` is the target frame, or the one after it, modulo 1024; `g` frames later it is the target
      again exactly when `g` cancels that step. */
  lemma FramesMoved(b: nat, g: int, target: nat, carry: nat)
    requires target < FRAMES && carry <= 1 && b % FRAMES == (target + carry) % FRAMES
    ensures (b + g) % FRAMES == target <==> (g + carry) % FRAMES == 0
  {
    var w := if target + carry == FRAMES then 1 else 0;
    IntQuotient(target + carry, w, target + carry - w * FRAMES, FRAMES);
    var y := g + carry;
    var q, r := y / FRAMES, y % FRAMES;
    var j := b / FRAMES - w + q;
    assert b + g == target + r + j * FRAMES;
    IntShift(target + r, j, FRAMES);
    if target + r < FRAMES {
      IntQuotient(target + r, 0, target + r, FRAMES);
    } else {
      IntQuotient(target + r, 1, target + r - FRAMES, FRAMES);
    }
  }

  // ------------------------------------------------------------------ the transmit side

  /** Timestamp, frame and subframe handed to L1 for transmission `ahead` subframes later: the subframe is
      always the one the timestamp decodes to, the frame exactly when the subframes ahead cross no frame
      boundary, or one and a multiple of 1024 more - so for every look-ahead of up to ten subframes. */
  method TransmitTime(timestampRx: nat, frameRx: nat, ttiRx: nat, ahead: nat, samples: nat,
                      ghost k: nat, ghost delta: nat)
    returns (timestampTx: nat, frameTx: nat, subframeTx: nat)
    requires delta < samples && timestampRx == k * samples + delta
    requires frameRx == (k / SUBFRAMES) % FRAMES && ttiRx == k % SUBFRAMES
    ensures timestampTx == timestampRx + ahead * samples && samples * SUBFRAMES > 0
    ensures subframeTx == (timestampTx / samples) % SUBFRAMES
    ensures var crossed := (ttiRx + ahead) / SUBFRAMES;
            frameTx == (timestampTx / (samples * SUBFRAMES)) % FRAMES
            <==> crossed == 0 || (crossed - 1) % FRAMES == 0
  {
    timestampTx := timestampRx + ahead * samples;
    frameTx := if ttiRx > 9 - ahead then (frameRx + 1) % FRAMES else frameRx;
    subframeTx := (ttiRx + ahead) % SUBFRAMES;
    MulDistributes(k, ahead, samples);
    DecodeSubframe(k + ahead, delta, samples);
    ghost var q, r := Divide(k, SUBFRAMES);
    ghost var crossed, rest := Divide(ttiRx + ahead, SUBFRAMES);
    DivModUnique(q + crossed, SUBFRAMES, rest);
    LookAhead.FrameCarry(q, if crossed == 0 then 0 else crossed - 1, crossed > 0, q + crossed);
  }

  /** Twenty subframes ahead, the announced frame is one short of the decoded one, from every subframe. */
  lemma TwentyAheadMisses(k: nat)
    ensures ((k / SUBFRAMES) % FRAMES + 1) % FRAMES != ((k + 20) / SUBFRAMES) % FRAMES
  {
    var q, r := Divide(k, SUBFRAMES);
    DivModUnique(q + 2, SUBFRAMES, r);
    LookAhead.FrameCarry(q, 1, true, q + 2);
  }
}
