/** The transmit slot the RU thread prepares `ahead` slots after the slot its counters name. After a
    misaligned first read the counters still name the slot that was skipped, while the timestamp is the
    start of the next one. */
module LookAhead {
  import opened Arithmetic
  import opened SymbolTime
  import opened SampleGrid
  import opened SlotGrid

  // ------------------------------------------------------------------ frames

  lemma MinusMultiple(x: nat, a: nat)
    ensures x % FRAMES == (x + a) % FRAMES <==> a % FRAMES == 0
  {
  }

  /** The quotient and remainder of a sum of two quotients with remainders. */
  lemma CarryOnce(q: nat, s: nat, k: nat, b: nat, spf: nat) returns (total: nat, rest: nat)
    requires s < spf && b < spf
    ensures total == q + k + (if s + b >= spf then 1 else 0)
    ensures rest == if s + b >= spf then s + b - spf else s + b
    ensures (q * spf + s) + (k * spf + b) == total * spf + rest
    ensures ((q * spf + s) + (k * spf + b)) / spf == total && ((q * spf + s) + (k * spf + b)) % spf == rest
  {
    MulDistributes(q, k, spf);
    MulDistributes(q + k, 1, spf);
    total, rest := if s + b >= spf then q + k + 1 else q + k, if s + b >= spf then s + b - spf else s + b;
    DivModUnique(total, spf, rest);
  }

  lemma FrameCarry(q: nat, frames: nat, carry: bool, total: nat)
    requires total == q + frames + (if carry then 1 else 0)
    ensures (if carry then (q % FRAMES + 1) % FRAMES else q % FRAMES) == total % FRAMES <==> frames % FRAMES == 0
  {
    if carry {
      ModAdd(q, 1, FRAMES);
      MinusMultiple(q + 1, frames);
    } else {
      MinusMultiple(q, frames);
    }
  }

  // ------------------------------------------------------------------ slots

  lemma {:induction false} StartsIncrease(p: Parms, a: nat, b: nat)
    requires Ok(p) && p.SlotsPerFrame() > 0 && a < b
    ensures SlotStart(p, a + 1) <= SlotStart(p, b)
    decreases b
  {
    SlotStartNext(p, b - 1);
    if a < b - 1 {
      StartsIncrease(p, a, b - 1);
    }
  }

  lemma OneFrameLater(p: Parms, a: nat)
    requires Ok(p) && p.SlotsPerFrame() > 0
    ensures SlotStart(p, a + p.SlotsPerFrame()) == SlotStart(p, a) + p.Frame()
  {
    var q, s := Divide(a, p.SlotsPerFrame());
    MulDistributes(q, 1, p.SlotsPerFrame());
    DivModUnique(q + 1, p.SlotsPerFrame(), s);
    MulDistributes(q, 1, p.Frame());
  }

  lemma ShorterThanFrame(p: Parms, s: nat)
    requires Ok(p) && s < p.SlotsPerFrame()
    ensures 0 < SamplesPerSlot(p, s) < p.Frame()
  {
    TotalsAddUp(p);
    SlotIsSum(p, s);
    SlotIsSum(p, 0);
    SlotIsSum(p, 1);
    SlotsIncrease(p, s, p.SlotsPerFrame());
    SlotsIncrease(p, 1, p.SlotsPerFrame());
    NextSlot(p, 0);
    if s > 0 {
      SlotsIncrease(p, 1, s);
    }
  }

  /** A sample less than a frame after the start of slot `a` decodes to that slot's number exactly when it
      lies in the slot, and to the next frame exactly when it lies past the end of the slot's frame. */
  lemma DecodeBeyond(p: Parms, a: nat, d: nat)
    requires Ok(p) && p.SlotsPerFrame() > 0 && d < p.Frame()
    ensures SlotStart(p, a) >= 0
    ensures var spf, t := p.SlotsPerFrame(), SlotStart(p, a) + d;
            && (SlotFromTimestamp(p, t) == a % spf <==> d < SamplesPerSlot(p, a % spf))
            && t / p.Frame() == a / spf + (if SlotTimestamp(p, a % spf) + d < p.Frame() then 0 else 1)
  {
    SlotStartNext(p, a);
    DecodeSlot(p, a, 0);
    BeyondFrame(p, a, d);
    if d < SamplesPerSlot(p, a % p.SlotsPerFrame()) {
      DecodeSlot(p, a, d);
    } else {
      BeyondSlot(p, a, d);
    }
  }

  lemma BeyondSlot(p: Parms, a: nat, d: nat)
    requires Ok(p) && p.SlotsPerFrame() > 0 && SamplesPerSlot(p, a % p.SlotsPerFrame()) <= d < p.Frame()
    requires SlotStart(p, a) >= 0
    ensures SlotFromTimestamp(p, SlotStart(p, a) + d) != a % p.SlotsPerFrame()
  {
    var spf := p.SlotsPerFrame();
    var n, x := Locate(p, SlotStart(p, a) + d);
    SlotStartNext(p, a);
    SlotStartNext(p, n);
    OneFrameLater(p, a);
    if n < a {
      StartsIncrease(p, n, a);
    }
    if n >= a + spf {
      if n > a + spf {
        SlotStartNext(p, a + spf);
        StartsIncrease(p, a + spf, n);
      }
    }
    assert a < n < a + spf;
    DistinctNumbers(a, n, spf);
  }

  lemma DistinctNumbers(a: nat, n: nat, spf: nat)
    requires a < n < a + spf
    ensures a % spf != n % spf
  {
    var q, s := Divide(a, spf);
    var total, rest := CarryOnce(q, s, 0, n - a, spf);
  }

  lemma BeyondFrame(p: Parms, a: nat, d: nat)
    requires Ok(p) && p.SlotsPerFrame() > 0 && d < p.Frame()
    ensures (SlotStart(p, a) + d) / p.Frame()
         == a / p.SlotsPerFrame() + (if SlotTimestamp(p, a % p.SlotsPerFrame()) + d < p.Frame() then 0 else 1)
  {
    var q, s := Divide(a, p.SlotsPerFrame());
    TotalsAddUp(p);
    SlotsIncrease(p, 0, s);
    SlotsIncrease(p, s, p.SlotsPerFrame());
    SlotIsSum(p, s);
    var y := SlotTimestamp(p, s) + d;
    if y < p.Frame() {
      DivModUnique(q, p.Frame(), y);
    } else {
      MulDistributes(q, 1, p.Frame());
      DivModUnique(q + 1, p.Frame(), y - p.Frame());
    }
  }

  // ------------------------------------------------------------------ the RU thread's code

  /** Adding up the lengths of the `ahead` slots from the one the counters name, frame boundaries
      included. */
  method SumAhead(p: Parms, timestampRx: int, ttiRx: nat, ahead: nat, ghost m: nat) returns (timestampTx: int)
    requires p.Valid() && Ok(p) && p.SlotsPerFrame() > 0 && ttiRx == m % p.SlotsPerFrame()
    ensures timestampTx == timestampRx + (SlotStart(p, m + ahead) - SlotStart(p, m))
  {
    timestampTx := timestampRx;
    var i := ttiRx;
    while i < ttiRx + ahead
      invariant ttiRx <= i <= ttiRx + ahead
      invariant timestampTx == timestampRx + (SlotStart(p, m + (i - ttiRx)) - SlotStart(p, m))
    {
      ModAdd(m, i - ttiRx, p.SlotsPerFrame());
      SlotStartNext(p, m + (i - ttiRx));
      timestampTx := timestampTx + SamplesPerSlot(p, i % p.SlotsPerFrame());
      i := i + 1;
    }
  }

  /** Frame and slot announced for the transmit side, `ahead` being `k` frames and `b` slots: the slot is
      right for every look-ahead, the frame carries at most once. It is the frame `more` frames past the
      look-ahead's exactly when that makes whole hyper-frames. */
  method Announce(frameRx: nat, ttiRx: nat, ahead: nat, spf: nat, ghost q: nat, ghost k: nat, ghost b: nat,
                  ghost more: nat)
    returns (frameTx: nat, ttiTx: nat)
    requires ttiRx < spf && b < spf && ahead == k * spf + b && frameRx == q % FRAMES
    ensures ttiTx == if ttiRx + b >= spf then ttiRx + b - spf else ttiRx + b
    ensures var total := q + k + (if ttiRx + b >= spf then 1 else 0);
            frameTx == (total + more) % FRAMES <==> (k + more) % FRAMES == 0
  {
    ghost var _, rest := CarryOnce(0, ttiRx, k, b, spf);
    ttiTx := (ttiRx + ahead) % spf;
    frameTx := if ttiRx > ttiTx then (frameRx + 1) % FRAMES else frameRx;
    FrameCarry(q, k + more, ttiRx > ttiTx, q + k + more + (if ttiRx > ttiTx then 1 else 0));
  }

  /** What the look-ahead's timestamp decodes to: the start of slot `a`, or with stale counters that plus the
      length of the slot they name. */
  lemma LateDecodes(p: Parms, m: nat, a: nat, stale: bool)
    requires p.Valid() && Ok(p) && p.SlotsPerFrame() > 0
    ensures var spf := p.SlotsPerFrame();
            var own, sent := m % spf, a % spf;
            var t := SlotStart(p, a) + (if stale then SamplesPerSlot(p, own) else 0);
            && t >= 0 && (t == SlotStart(p, a) <==> !stale)
            && (SlotFromTimestamp(p, t) == sent <==> !stale || SamplesPerSlot(p, own) < SamplesPerSlot(p, sent))
            && t / p.Frame() == a / spf + (if Spills(p, own, sent, stale) then 1 else 0)
  {
    var spf := p.SlotsPerFrame();
    ShorterThanFrame(p, m % spf);
    SlotStartNext(p, a);
    NotSpilled(p, a);
    DecodeBeyond(p, a, if stale then SamplesPerSlot(p, m % spf) else 0);
  }

  /** For every slot `m` the counters name, with the timestamp at its start or, after a misaligned first
      read, at the start of the slot after it, and for every look-ahead:
      the timestamp is the start of the announced slot exactly when the counters are not stale; it decodes
      to the announced slot exactly when they are not stale or the slot they name is shorter than the
      announced one; and it decodes to the announced frame exactly when the look-ahead spans a multiple
      of 1024 whole frames, one more being spanned when stale counters push it past the frame's end. */
  method TransmitSlot(p: Parms, timestampRx: int, frameRx: nat, ttiRx: nat, ahead: nat, ghost m: nat, ghost n: nat)
    returns (timestampTx: int, frameTx: nat, ttiTx: nat)
    requires p.Valid() && Ok(p) && p.SlotsPerFrame() > 0
    requires ttiRx == m % p.SlotsPerFrame() && frameRx == (m / p.SlotsPerFrame()) % FRAMES
    requires timestampRx == SlotStart(p, n) && (n == m || n == m + 1)
    ensures timestampTx >= 0 && ttiTx == (m + ahead) % p.SlotsPerFrame()
    ensures timestampTx == SlotStart(p, m + ahead) <==> n == m
    ensures ttiTx == SlotFromTimestamp(p, timestampTx)
       <==> n == m || SamplesPerSlot(p, ttiRx) < SamplesPerSlot(p, ttiTx)
    ensures frameTx == (timestampTx / p.Frame()) % FRAMES
       <==> (ahead / p.SlotsPerFrame() + (if Spills(p, ttiRx, ttiTx, n != m) then 1 else 0)) % FRAMES == 0
  {
    ghost var spf := p.SlotsPerFrame();
    ghost var q, own := Divide(m, spf);
    ghost var k, b := Divide(ahead, spf);
    ghost var total, sent := CarryOnce(q, own, k, b, spf);
    timestampTx := SumAhead(p, timestampRx, ttiRx, ahead, m);
    frameTx, ttiTx := Announce(frameRx, ttiRx, ahead, p.SlotsPerFrame(), q, k, b,
                               if Spills(p, own, sent, n != m) then 1 else 0);
    SlotStartNext(p, m);
    LateDecodes(p, m, m + ahead, n != m);
  }

  lemma NotSpilled(p: Parms, a: nat)
    requires Ok(p) && p.SlotsPerFrame() > 0
    ensures SlotTimestamp(p, a % p.SlotsPerFrame()) < p.Frame()
  {
    var s := a % p.SlotsPerFrame();
    TotalsAddUp(p);
    SlotIsSum(p, s);
    SlotsIncrease(p, s, p.SlotsPerFrame());
  }

  /** With stale counters the timestamp lies one slot of the named length after the start of the announced
      slot, which may be past the end of the frame. */
  predicate Spills(p: Parms, ttiRx: nat, ttiTx: nat, stale: bool)
    requires p.mu != 0 ==> p.Half() > 0
  {
    stale && SlotTimestamp(p, ttiTx) + SamplesPerSlot(p, ttiRx) >= p.Frame()
  }

  // ------------------------------------------------------------------ failing inputs

  /** A look-ahead of exactly one frame announces the frame of the slot that was received. */
  lemma WholeFrameMisses(p: Parms, n: nat)
    requires Ok(p) && p.SlotsPerFrame() > 0
    ensures var spf := p.SlotsPerFrame();
            && SlotStart(p, n + spf) >= 0 && (n % spf + spf) % spf == n % spf
            && (SlotStart(p, n + spf) / p.Frame()) % FRAMES != (n / spf) % FRAMES
  {
    var spf := p.SlotsPerFrame();
    var q, s := Divide(n, spf);
    MulDistributes(q, 1, spf);
    DivModUnique(q + 1, spf, s);
    DivModUnique(1, spf, s);
    SlotStartNext(p, n + spf);
    DecodeSlot(p, n + spf, 0);
    MinusMultiple(q, 1);
  }

  /** A first timestamp one sample into a slot of a 15 kHz carrier: the counters name slot `m`, the
      timestamp is the start of slot `m + 1`, and what is sent `ahead` slots later decodes to the slot
      after the announced one. */
  lemma StaleCountersMiss(p: Parms, m: nat, ahead: nat)
    requires Ok(p) && p.SlotsPerFrame() > 0 && p.mu == 0
    ensures var t := SlotStart(p, m + 1) + (SlotStart(p, m + ahead) - SlotStart(p, m));
            && t == SlotStart(p, m + ahead + 1) >= 0
            && SlotFromTimestamp(p, t) == (m + ahead + 1) % p.SlotsPerFrame() != (m + ahead) % p.SlotsPerFrame()
  {
    SlotStartNext(p, m);
    SlotStartNext(p, m + ahead);
    SlotStartNext(p, m + ahead + 1);
    DecodeSlot(p, m + ahead + 1, 0);
    DistinctNumbers(m + ahead, m + ahead + 1, p.SlotsPerFrame());
  }
}
