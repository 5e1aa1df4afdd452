/** Absolute slots on the sample grid: slot starts are the running sum of unequal slot lengths, and
    frame and slot recovery from a timestamp inverts them. */
module SlotGrid {
  import opened Arithmetic
  import opened SymbolTime
  import opened SampleGrid

  ghost predicate Ok(p: Parms) {
    p.Valid() && (p.mu != 0 ==> p.Half() > 0) && p.Subframe() > 1
  }

  lemma AlwaysOk(p: Parms)
    requires p.Valid()
    ensures Ok(p) && p.SlotsPerFrame() > 0
  {
    HalfPositive(p);
  }

  /** Samples of half a subframe, for `mu > 0`. */
  function HalfLength(p: Parms): int
  {
    p.Slot0() + (p.Half() - 1) * p.SlotN0()
  }

  lemma HalfProducts(n: nat, h: nat)
    requires h > 0
    ensures n * (SYMBOLS * (2 * h) - 2) == 2 * (13 * n + (h - 1) * (n * SYMBOLS))
  {
    var x := n * h;
    assert n * (28 * h - 2) == 28 * x - 2 * n;
    assert (h - 1) * (n * 14) == 14 * x - 14 * n;
  }

  lemma HalfOfSubframe(p: Parms)
    requires Ok(p) && p.mu != 0
    ensures p.Subframe() == 2 * HalfLength(p) && HalfLength(p) > 0 && p.Subframe() / 2 == HalfLength(p)
    ensures p.SlotsPerFrame() == 20 * p.Half()
  {
    HalfPositive(p);
    HalfProducts(p.Normal(), p.Half());
  }

  /** Samples before slot `rem` of half a subframe. */
  function Within(p: Parms, rem: nat): int {
    if rem > 0 then p.Slot0() + (rem - 1) * p.SlotN0() else 0
  }

  lemma SlotTimestampSplit(p: Parms, slot: nat)
    requires Ok(p) && p.mu != 0
    ensures SlotTimestamp(p, slot) == (slot / p.Half()) * HalfLength(p) + Within(p, slot % p.Half())
  {
    HalfOfSubframe(p);
    HalveProduct(slot / p.Half(), p.Subframe(), HalfLength(p));
  }

  lemma HalveProduct(q: nat, whole: int, half: int)
    requires whole == 2 * half
    ensures (q * whole) / 2 == q * half
  {
    assert q * whole == 2 * (q * half);
  }

  lemma WithinNext(p: Parms, rem: nat)
    requires Ok(p) && p.mu != 0 && rem < p.Half()
    ensures (if rem + 1 < p.Half() then Within(p, rem + 1) else HalfLength(p))
         == Within(p, rem) + (if rem == 0 then p.Slot0() else p.SlotN0())
  {
    if rem > 0 {
      MulDistributes(rem - 1, 1, p.SlotN0());
    }
  }

  lemma NextSlot(p: Parms, slot: nat)
    requires Ok(p)
    ensures SlotTimestamp(p, slot + 1) == SlotTimestamp(p, slot) + SamplesPerSlot(p, slot)
  {
    if p.mu == 0 {
      MulDistributes(slot, 1, p.Subframe());
    } else {
      var h := p.Half();
      var q, rem := Divide(slot, h);
      SlotTimestampSplit(p, slot);
      SlotTimestampSplit(p, slot + 1);
      WithinNext(p, rem);
      if rem + 1 < h {
        DivModUnique(q, h, rem + 1);
      } else {
        MulDistributes(q, 1, h);
        DivModUnique(q + 1, h, 0);
        HalfOfSubframe(p);
        MulDistributes(q, 1, HalfLength(p));
      }
    }
  }

  /** The closed form of a slot's start is the sum of the slots before it. */
  lemma {:induction false} SlotTimestampIsSum(p: Parms, slots: nat)
    requires Ok(p)
    ensures SlotTimestamp(p, slots) == SlotSum(p, slots)
  {
    if slots > 0 {
      SlotTimestampIsSum(p, slots - 1);
      NextSlot(p, slots - 1);
    }
  }

  /** All symbols of a subframe, and all slots of a frame, add up to the configured totals. */
  lemma TotalsAddUp(p: Parms)
    requires Ok(p)
    ensures SlotSum(p, p.SlotsPerSubframe()) == p.Subframe()
    ensures SlotSum(p, p.SlotsPerFrame()) == SlotTimestamp(p, p.SlotsPerFrame()) == p.Frame()
    ensures forall slot :: SamplesPerSlot(p, slot) == SymbolSum(p, slot, 0, SYMBOLS)
  {
    SlotTimestampIsSum(p, p.SlotsPerSubframe());
    SlotTimestampIsSum(p, p.SlotsPerFrame());
    if p.mu != 0 {
      HalfPositive(p);
      HalfOfSubframe(p);
      SlotTimestampSplit(p, p.SlotsPerSubframe());
      SlotTimestampSplit(p, p.SlotsPerFrame());
      DivModUnique(2, p.Half(), 0);
      DivModUnique(20, p.Half(), 0);
    }
    forall slot
      ensures SamplesPerSlot(p, slot) == SymbolSum(p, slot, 0, SYMBOLS)
    {
      SlotIsSum(p, slot);
    }
  }

  lemma {:induction false} SlotsIncrease(p: Parms, a: nat, b: nat)
    requires Ok(p) && a <= b
    ensures SlotTimestamp(p, a) <= SlotTimestamp(p, b)
    ensures a < b ==> SlotTimestamp(p, a) + SamplesPerSlot(p, a) <= SlotTimestamp(p, b)
    decreases b
  {
    if a < b {
      SlotsIncrease(p, a, b - 1);
      NextSlot(p, b - 1);
      SlotIsSum(p, b - 1);
      NextSlot(p, a);
      if a < b - 1 {
        SlotsIncrease(p, a + 1, b - 1);
      }
    }
  }

  // ------------------------------------------------------------------ slot recovery

  /** `t` lies inside slot `s` of its frame. */
  predicate Inside(p: Parms, t: int, s: nat)
    requires p.mu != 0 ==> p.Half() > 0
  {
    SlotTimestamp(p, s) <= t < SlotTimestamp(p, s) + SamplesPerSlot(p, s)
  }

  lemma CeilOfNext(x: nat, b: nat)
    requires b > 0
    ensures CeilDiv(x + 1, b) == x / b + 1
  {
    var q, r := Divide(x, b);
    MulDistributes(q, 1, b);
    DivModUnique(q + 1, b, r);
  }

  lemma RecoverPlain(p: Parms, t: nat)
    requires Ok(p) && p.mu == 0 && t < p.Frame()
    ensures var s := SlotFromTimestamp(p, t);
            0 <= s < p.SlotsPerFrame() && Inside(p, t, s)
  {
    DivModUnique(0, p.Frame(), t);
    var q, r := Divide(t, p.Subframe());
    QuotientBelow(t, q, r, 10, p.Subframe());
    if t < p.Slot0() {
      assert p.Slot0() <= p.Subframe();
    }
  }

  lemma RecoverHalf(p: Parms, t: nat, q: nat, y: nat)
    requires Ok(p) && p.mu != 0 && t < p.Frame() && t == q * HalfLength(p) + y && y < HalfLength(p)
    ensures q < 20
    ensures SlotFromTimestamp(p, t) == q * p.Half() + (if y < p.Slot0() then 0 else 1 + (y - p.Slot0()) / p.SlotN0())
  {
    HalfOfSubframe(p);
    var h, half := p.Half(), HalfLength(p);
    DivModUnique(0, p.Frame(), t);
    DivModUnique(q, half, y);
    QuotientBelow(t, q, y, 20, half);
    if q > 0 {
      MulMonotone(0, h - 1, p.SlotN0());
      MulMonotone(1, q, half);
    }
    if y >= p.Slot0() {
      CeilOfNext(y - p.Slot0(), p.SlotN0());
    }
  }

  lemma RecoverFirst(p: Parms, t: nat, q: nat, y: nat)
    requires Ok(p) && p.mu != 0 && t < p.Frame() && t == q * HalfLength(p) + y && y < HalfLength(p) && y < p.Slot0()
    ensures var s := SlotFromTimestamp(p, t);
            0 <= s < p.SlotsPerFrame() && Inside(p, t, s)
  {
    HalfOfSubframe(p);
    RecoverHalf(p, t, q, y);
    MulMonotone(q, 20, p.Half());
    DivModUnique(q, p.Half(), 0);
    SlotTimestampSplit(p, q * p.Half());
  }

  lemma RecoverLater(p: Parms, t: nat, q: nat, y: nat)
    requires Ok(p) && p.mu != 0 && t < p.Frame() && t == q * HalfLength(p) + y && p.Slot0() <= y < HalfLength(p)
    ensures var s := SlotFromTimestamp(p, t);
            0 <= s < p.SlotsPerFrame() && Inside(p, t, s)
  {
    HalfOfSubframe(p);
    RecoverHalf(p, t, q, y);
    var h, n0 := p.Half(), p.SlotN0();
    MulMonotone(q, 20, h);
    var j, x := Divide(y - p.Slot0(), n0);
    QuotientBelow(y - p.Slot0(), j, x, h - 1, n0);
    DivModUnique(q, h, 1 + j);
    SlotTimestampSplit(p, q * h + (1 + j));
  }

  lemma RecoverSplit(p: Parms, t: nat)
    requires Ok(p) && p.mu != 0 && t < p.Frame()
    ensures var s := SlotFromTimestamp(p, t);
            0 <= s < p.SlotsPerFrame() && Inside(p, t, s)
  {
    HalfOfSubframe(p);
    var q, y := Divide(t, HalfLength(p));
    if y < p.Slot0() {
      RecoverFirst(p, t, q, y);
    } else {
      RecoverLater(p, t, q, y);
    }
  }

  /** The slot recovered from a timestamp is the slot the timestamp lies in. */
  lemma RecoverSlot(p: Parms, t: nat)
    requires Ok(p) && t < p.Frame()
    ensures var s := SlotFromTimestamp(p, t);
            0 <= s < p.SlotsPerFrame() && Inside(p, t, s)
  {
    if p.mu == 0 {
      RecoverPlain(p, t);
    } else {
      RecoverSplit(p, t);
    }
  }

  lemma InsideIsUnique(p: Parms, t: int, a: nat, b: nat)
    requires Ok(p) && Inside(p, t, a) && Inside(p, t, b)
    ensures a == b
  {
    if a < b {
      SlotsIncrease(p, a, b);
    } else if b < a {
      SlotsIncrease(p, b, a);
    }
  }

  // ------------------------------------------------------------------ absolute slots

  /** First sample of the `n`th slot since sample 0. */
  function SlotStart(p: Parms, n: nat): int
    requires p.mu != 0 ==> p.Half() > 0
    requires p.SlotsPerFrame() > 0
  {
    (n / p.SlotsPerFrame()) * p.Frame() + SlotTimestamp(p, n % p.SlotsPerFrame())
  }

  /** Where slot `s` of frame `q` starts, by its number. */
  lemma SlotStartAt(p: Parms, q: nat, s: nat)
    requires Ok(p) && s < p.SlotsPerFrame()
    ensures SlotStart(p, q * p.SlotsPerFrame() + s) == q * p.Frame() + SlotTimestamp(p, s)
  {
    DivModUnique(q, p.SlotsPerFrame(), s);
  }

  /** The slot after the last one of a frame starts the next. */
  lemma FrameStartAt(p: Parms, q: nat)
    requires Ok(p) && p.SlotsPerFrame() > 0
    ensures SlotStart(p, q * p.SlotsPerFrame() + p.SlotsPerFrame())
         == q * p.Frame() + SlotTimestamp(p, p.SlotsPerFrame())
  {
    TotalsAddUp(p);
    MulDistributes(q, 1, p.SlotsPerFrame());
    MulDistributes(q, 1, p.Frame());
    SlotStartAt(p, q + 1, 0);
  }

  lemma SlotStartNext(p: Parms, n: nat)
    requires Ok(p) && p.SlotsPerFrame() > 0
    ensures SlotStart(p, n + 1) == SlotStart(p, n) + SamplesPerSlot(p, n % p.SlotsPerFrame())
    ensures SamplesPerSlot(p, n % p.SlotsPerFrame()) > 0
  {
    var spf := p.SlotsPerFrame();
    var q, s := Divide(n, spf);
    NextSlot(p, s);
    SlotIsSum(p, s);
    SlotStartAt(p, q, s);
    if s + 1 < spf {
      SlotStartAt(p, q, s + 1);
    } else {
      FrameStartAt(p, q);
    }
  }

  /** Frame and slot recovered from any timestamp inside the `n`th slot are those of slot `n`. */
  lemma DecodeSlot(p: Parms, n: nat, x: nat)
    requires Ok(p) && p.SlotsPerFrame() > 0
    requires x < SamplesPerSlot(p, n % p.SlotsPerFrame())
    ensures SlotStart(p, n) >= 0
    ensures (SlotStart(p, n) + x) / p.Frame() == n / p.SlotsPerFrame()
    ensures SlotFromTimestamp(p, SlotStart(p, n) + x) == n % p.SlotsPerFrame()
  {
    var spf, frame := p.SlotsPerFrame(), p.Frame();
    var q, s := Divide(n, spf);
    SlotsIncrease(p, 0, s);
    SlotsIncrease(p, s, spf);
    TotalsAddUp(p);
    var t := SlotTimestamp(p, s) + x;
    MulMonotone(0, q, frame);
    DivModUnique(q, frame, t);
    DivModUnique(0, frame, t);
    RecoverSlot(p, t);
    InsideIsUnique(p, t, s, SlotFromTimestamp(p, t));
  }

  /** Every timestamp lies in the slot its recovered frame and slot name. */
  lemma Locate(p: Parms, t: nat) returns (n: nat, x: nat)
    requires Ok(p) && p.SlotsPerFrame() > 0
    ensures 0 <= SlotFromTimestamp(p, t) < p.SlotsPerFrame()
    ensures n == (t / p.Frame()) * p.SlotsPerFrame() + SlotFromTimestamp(p, t)
    ensures n / p.SlotsPerFrame() == t / p.Frame() && n % p.SlotsPerFrame() == SlotFromTimestamp(p, t)
    ensures t == SlotStart(p, n) + x && x < SamplesPerSlot(p, n % p.SlotsPerFrame())
    ensures t % p.Frame() - SlotTimestamp(p, SlotFromTimestamp(p, t)) == x
  {
    var frame := p.Frame();
    var q, y := Divide(t, frame);
    DivModUnique(0, frame, y);
    RecoverSlot(p, y);
    var s := SlotFromTimestamp(p, t);
    n, x := q * p.SlotsPerFrame() + s, y - SlotTimestamp(p, s);
    DivModUnique(q, p.SlotsPerFrame(), s);
  }
}
