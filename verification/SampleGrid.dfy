/** The sample grid of an NR carrier: symbol, slot and frame lengths in samples with two cyclic
    prefix lengths, and the conversions between timestamps and slots. */
module SampleGrid {
  import opened Arithmetic
  import opened SymbolTime

  /** Frame parameters: numerology, OFDM symbol size, normal and long cyclic prefix. */
  datatype Parms = Parms(mu: nat, size: nat, cp: nat, cp0: nat) {
    predicate Valid() {
      size > 0 && cp <= cp0
    }

    function SlotsPerSubframe(): nat { Pow2(mu) }

    function SlotsPerFrame(): nat { 10 * Pow2(mu) }

    /** Slots of half a subframe; meaningful for `mu > 0`. */
    function Half(): nat { SlotsPerSubframe() / 2 }

    function Normal(): nat { cp + size }

    function Long(): nat { cp0 + size }

    function SlotN0(): nat { Normal() * SYMBOLS }

    function Slot0(): nat { cp0 + (SYMBOLS - 1) * cp + SYMBOLS * size }

    function Subframe(): int { Long() * 2 + Normal() * (SYMBOLS * SlotsPerSubframe() - 2) }

    function Frame(): int { 10 * Subframe() }
  }

  // ------------------------------------------------------------------ lengths as the code computes them

  /** The test of the OFDM modulator for the long prefix. */
  predicate LongPrefix(p: Parms, slot: nat, symbol: nat)
    requires p.mu != 0 ==> p.Half() > 0
  {
    if p.mu != 0 then slot % p.Half() == 0 && symbol == 0 else symbol % 7 == 0
  }

  function SymbolLength(p: Parms, slot: nat, symbol: nat): nat
    requires p.mu != 0 ==> p.Half() > 0
  {
    if LongPrefix(p, slot, symbol) then p.Long() else p.Normal()
  }

  function SamplesPerSlot(p: Parms, slot: nat): int
    requires p.mu != 0 ==> p.Half() > 0
  {
    if p.mu == 0 then p.Subframe() else if slot % p.Half() != 0 then p.SlotN0() else p.Slot0()
  }

  /** Samples of symbols `first .. first + count - 1` of a slot. */
  function SymbolDuration(p: Parms, slot: nat, first: nat, count: nat): int
    requires p.mu != 0 ==> p.Half() > 0
    requires 1 <= count && first + count <= SYMBOLS
  {
    var last := first + count - 1;
    if count == SYMBOLS then SamplesPerSlot(p, slot)
    else
      var added := if p.mu == 0 then (if first == 0 then 1 else 0) + (if first <= 7 <= last then 1 else 0)
                   else if first == 0 then 1 else 0;
      var samples := if p.mu == 0 then added * p.Long()
                     else if first == 0 then (if slot % p.Half() != 0 then p.cp else p.cp0) + p.size else 0;
      samples + (if count - added > 0 then count - added else 0) * p.Normal()
  }

  function SymbolTimestamp(p: Parms, slot: nat, symbol: nat): int
    requires p.mu != 0 ==> p.Half() > 0
    requires symbol <= SYMBOLS
  {
    if symbol == 0 then 0 else SymbolDuration(p, slot, 0, symbol)
  }

  function SlotTimestamp(p: Parms, slot: nat): int
    requires p.mu != 0 ==> p.Half() > 0
  {
    if slot == 0 then 0
    else if p.mu == 0 then slot * p.Subframe()
    else
      var rem := slot % p.Half();
      ((slot / p.Half()) * p.Subframe()) / 2 + (if rem > 0 then p.Slot0() + (rem - 1) * p.SlotN0() else 0)
  }

  function CeilDiv(a: nat, b: nat): nat
    requires b > 0
  {
    (a + b - 1) / b
  }

  /** The slot a timestamp falls into, counted from the start of its frame. */
  function SlotFromTimestamp(p: Parms, timestamp: nat): int
    requires p.Valid() && (p.mu != 0 ==> p.Half() > 0) && p.Subframe() > 1
  {
    var t := timestamp % p.Frame();
    if t < p.Slot0() then 0
    else if p.mu == 0 then t / p.Subframe()
    else
      var halves := t / (p.Subframe() / 2);
      var before := halves * (p.Subframe() / 2) - 1;
      var afterFirst := before + p.Slot0();
      halves * p.Half() + 1 + (if afterFirst < t then CeilDiv(t - afterFirst, p.SlotN0()) else 0) - 1
  }

  // ------------------------------------------------------------------ lengths as sums

  function SymbolSum(p: Parms, slot: nat, first: nat, count: nat): nat
    requires p.mu != 0 ==> p.Half() > 0
  {
    if count == 0 then 0 else SymbolSum(p, slot, first, count - 1) + SymbolLength(p, slot, first + count - 1)
  }

  function SlotSum(p: Parms, slots: nat): int
    requires p.mu != 0 ==> p.Half() > 0
  {
    if slots == 0 then 0 else SlotSum(p, slots - 1) + SamplesPerSlot(p, slots - 1)
  }

  lemma {:induction false} SumSplits(p: Parms, slot: nat, first: nat, a: nat, b: nat)
    requires p.mu != 0 ==> p.Half() > 0
    ensures SymbolSum(p, slot, first, a + b) == SymbolSum(p, slot, first, a) + SymbolSum(p, slot, first + a, b)
  {
    if b > 0 {
      SumSplits(p, slot, first, a, b - 1);
    }
  }

  lemma HalfPositive(p: Parms)
    ensures p.mu != 0 ==> p.Half() > 0 && 2 * p.Half() == p.SlotsPerSubframe() && p.Half() == Pow2(p.mu - 1)
    ensures p.Valid() ==> p.Subframe() > 1
  {
    if p.Valid() {
      MulMonotone(1, SYMBOLS * p.SlotsPerSubframe() - 2, p.Normal());
    }
  }

  /** For every numerology the slot and symbol test selects exactly the symbols l = 0 and
      l = 7 * 2^mu of the subframe (section 5.3.1 of 3GPP TS 38.211). */
  lemma LongPrefixIsTheStandards(p: Parms, slot: nat, symbol: nat)
    requires symbol < SYMBOLS
    ensures p.mu != 0 ==> p.Half() > 0
    ensures LongPrefix(p, slot, symbol)
       <==> var l := (slot % p.SlotsPerSubframe()) * SYMBOLS + symbol;
            l == 0 || l == 7 * Pow2(p.mu)
  {
    HalfPositive(p);
    if p.mu != 0 {
      var h := p.Half();
      var s := slot % (2 * h);
      ModOfMultiple(slot, h, 2, 2 * h);
      ModNearby(s, h);
    }
  }

  /** What the long symbols among `count` symbols from `first` add. */
  function Extra(p: Parms, slot: nat, first: nat, count: nat): int
    requires p.mu != 0 ==> p.Half() > 0
  {
    var d := p.cp0 - p.cp;
    if p.mu == 0 then (if first == 0 && count > 0 then d else 0) + (if first <= 7 < first + count then d else 0)
    else if first == 0 && count > 0 && slot % p.Half() == 0 then d else 0
  }

  lemma {:induction false} SumOfSymbols(p: Parms, slot: nat, first: nat, count: nat)
    requires p.Valid() && (p.mu != 0 ==> p.Half() > 0) && first + count <= SYMBOLS
    ensures SymbolSum(p, slot, first, count) == count * p.Normal() + Extra(p, slot, first, count)
  {
    if count > 0 {
      SumOfSymbols(p, slot, first, count - 1);
      MulDistributes(count - 1, 1, p.Normal());
      var last := first + count - 1;
      assert p.mu == 0 ==> LongPrefix(p, slot, last) == (last == 0 || last == 7);
    }
  }

  lemma WholeSlot(p: Parms, slot: nat)
    requires p.Valid() && (p.mu != 0 ==> p.Half() > 0)
    ensures SamplesPerSlot(p, slot) == SYMBOLS * p.Normal() + Extra(p, slot, 0, SYMBOLS)
  {
  }

  lemma PartOfLongSlot(p: Parms, slot: nat, first: nat, count: nat)
    requires p.Valid() && p.mu == 0 && 1 <= count < SYMBOLS && first + count <= SYMBOLS
    ensures SymbolDuration(p, slot, first, count) == count * p.Normal() + Extra(p, slot, first, count)
  {
    var added := (if first == 0 then 1 else 0) + (if first <= 7 < first + count then 1 else 0);
    MulDistributes(count - added, added, p.Normal());
    assert added == 0 || added == 1 || added == 2;
    assert SymbolDuration(p, slot, first, count) == added * p.Long() + (count - added) * p.Normal();
  }

  lemma PartOfSlot(p: Parms, slot: nat, first: nat, count: nat)
    requires p.Valid() && p.mu != 0 && p.Half() > 0 && 1 <= count < SYMBOLS && first + count <= SYMBOLS
    ensures SymbolDuration(p, slot, first, count) == count * p.Normal() + Extra(p, slot, first, count)
  {
    MulDistributes(count - 1, 1, p.Normal());
  }

  /** The closed form of a symbol range is the sum of its symbols' lengths. */
  lemma DurationIsSum(p: Parms, slot: nat, first: nat, count: nat)
    requires p.Valid() && (p.mu != 0 ==> p.Half() > 0) && 1 <= count && first + count <= SYMBOLS
    ensures SymbolDuration(p, slot, first, count) == SymbolSum(p, slot, first, count)
  {
    SumOfSymbols(p, slot, first, count);
    if count == SYMBOLS {
      WholeSlot(p, slot);
    } else if p.mu == 0 {
      PartOfLongSlot(p, slot, first, count);
    } else {
      PartOfSlot(p, slot, first, count);
    }
  }

  lemma SlotIsSum(p: Parms, slot: nat)
    requires p.Valid() && (p.mu != 0 ==> p.Half() > 0)
    ensures SamplesPerSlot(p, slot) == SymbolSum(p, slot, 0, SYMBOLS) > 0
  {
    DurationIsSum(p, slot, 0, SYMBOLS);
    SumOfSymbols(p, slot, 0, SYMBOLS);
  }
}
