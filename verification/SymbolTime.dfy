/** Absolute symbol numbers: frame, slot and symbol packed into one counter that wraps after 1024
    frames, as used by the O-RU south reader and its uplink calendar. */
module SymbolTime {
  import opened Arithmetic

  const SYMBOLS := 14
  const FRAMES := 1024

  /** The number of absolute symbols before the counter wraps. */
  function Total(slotsPerFrame: nat): nat {
    FRAMES * slotsPerFrame * SYMBOLS
  }

  function AbsSymbol(frame: nat, slot: nat, symbol: nat, slotsPerFrame: nat): nat {
    (frame * slotsPerFrame + slot) * SYMBOLS + symbol
  }

  predicate InFrame(frame: nat, slot: nat, symbol: nat, slotsPerFrame: nat) {
    frame < FRAMES && slot < slotsPerFrame && symbol < SYMBOLS
  }

  /** The shortest-path difference of the calendar: one correction by the wrap period. */
  function SymbolDiff(a: nat, b: nat, slotsPerFrame: nat): int {
    var total := Total(slotsPerFrame);
    var diff := a - b;
    if diff < -(total / 2) then diff + total else if diff > total / 2 then diff - total else diff
  }

  function FrameOf(abs: nat, slotsPerFrame: nat): nat
    requires slotsPerFrame > 0
  {
    abs / (slotsPerFrame * SYMBOLS)
  }

  function SlotOf(abs: nat, slotsPerFrame: nat): nat
    requires slotsPerFrame > 0
  {
    (abs % (slotsPerFrame * SYMBOLS)) / SYMBOLS
  }

  function SymbolOf(abs: nat): nat {
    abs % SYMBOLS
  }

  /** The symbol `k` after `r` on the wrapping counter. */
  function After(r: nat, k: nat, slotsPerFrame: nat): nat
    requires slotsPerFrame > 0
  {
    (r + k) % Total(slotsPerFrame)
  }

  /** Packing is injective and its inverse is the division and remainder the tick uses. */
  lemma DecodeInvertsEncode(frame: nat, slot: nat, symbol: nat, slotsPerFrame: nat)
    requires slot < slotsPerFrame && symbol < SYMBOLS
    ensures var abs := AbsSymbol(frame, slot, symbol, slotsPerFrame);
            && FrameOf(abs, slotsPerFrame) == frame
            && SlotOf(abs, slotsPerFrame) == slot
            && SymbolOf(abs) == symbol
            && (frame < FRAMES ==> abs < Total(slotsPerFrame))
  {
    var perFrame := slotsPerFrame * SYMBOLS;
    var within := slot * SYMBOLS + symbol;
    MulAssociates(frame, slotsPerFrame, SYMBOLS);
    DivModUnique(frame, perFrame, within);
    DivModUnique(slot, SYMBOLS, symbol);
    DivModUnique(frame * slotsPerFrame + slot, SYMBOLS, symbol);
    if frame < FRAMES {
      MulMonotone(frame, FRAMES, perFrame);
    }
  }

  lemma EncodeInvertsDecode(abs: nat, slotsPerFrame: nat)
    requires slotsPerFrame > 0 && abs < Total(slotsPerFrame)
    ensures InFrame(FrameOf(abs, slotsPerFrame), SlotOf(abs, slotsPerFrame), SymbolOf(abs), slotsPerFrame)
    ensures AbsSymbol(FrameOf(abs, slotsPerFrame), SlotOf(abs, slotsPerFrame), SymbolOf(abs), slotsPerFrame) == abs
  {
    var perFrame := slotsPerFrame * SYMBOLS;
    var q, within := Divide(abs, perFrame);
    var slot, symbol := Divide(within, SYMBOLS);
    ModOfMultiple(abs, SYMBOLS, slotsPerFrame, perFrame);
    QuotientBelow(abs, q, within, FRAMES, perFrame);
    QuotientBelow(within, slot, symbol, slotsPerFrame, SYMBOLS);
    MulAssociates(q, slotsPerFrame, SYMBOLS);
  }

  /** `SymbolDiff` is `k` exactly when `a` lies `k` symbols after `b` on the circle, for every
      distance shorter than half the period. */
  lemma DiffIsCircular(a: nat, b: nat, k: int, slotsPerFrame: nat)
    requires slotsPerFrame > 0
    requires a < Total(slotsPerFrame) && b < Total(slotsPerFrame)
    requires -(Total(slotsPerFrame) / 2) < k < Total(slotsPerFrame) / 2
    ensures SymbolDiff(a, b, slotsPerFrame) == k <==> a == (b + k + Total(slotsPerFrame)) % Total(slotsPerFrame)
  {
    ModNearby(b + k + Total(slotsPerFrame), Total(slotsPerFrame));
  }

  /** At exactly half the period, where both ways round are equally short, the difference is not corrected. */
  lemma DiffAtHalf(a: nat, b: nat, slotsPerFrame: nat)
    requires a - b == Total(slotsPerFrame) / 2 || b - a == Total(slotsPerFrame) / 2
    ensures SymbolDiff(a, b, slotsPerFrame) == a - b
  {
  }

  lemma WrapOnce(x: nat, slotsPerFrame: nat)
    requires slotsPerFrame > 0 && x < 3 * Total(slotsPerFrame)
    ensures x % Total(slotsPerFrame)
         == if x < Total(slotsPerFrame) then x
            else if x < 2 * Total(slotsPerFrame) then x - Total(slotsPerFrame) else x - 2 * Total(slotsPerFrame)
  {
    ModNearby(x, Total(slotsPerFrame));
  }

  lemma AfterAfter(r: nat, j: nat, k: nat, slotsPerFrame: nat)
    requires slotsPerFrame > 0
    ensures After(After(r, j, slotsPerFrame), k, slotsPerFrame) == After(r, j + k, slotsPerFrame)
  {
    ModAddTwice(r, j, k, Total(slotsPerFrame));
  }

  lemma ModAddTwice(r: nat, j: nat, k: nat, t: nat)
    requires t > 0
    ensures ((r + j) % t + k) % t == (r + (j + k)) % t
  {
    ModAdd(r + j, k, t);
  }

  /** Slot and frame counters step together with the absolute slot number. */
  lemma NextSlotCounts(n: nat, spf: nat)
    requires spf > 0
    ensures (n + 1) % spf == if n % spf + 1 == spf then 0 else n % spf + 1
    ensures (n + 1) / spf == if n % spf + 1 == spf then n / spf + 1 else n / spf
    ensures ((n + 1) / spf) % FRAMES
         == if n % spf + 1 == spf then ((n / spf) % FRAMES + 1) % FRAMES else (n / spf) % FRAMES
    ensures (n % spf + 1) % spf == (n + 1) % spf
  {
    var q, s := Divide(n, spf);
    ModAdd(q, 1, FRAMES);
    ModAdd(n, 1, spf);
    if s + 1 < spf {
      DivModUnique(q, spf, s + 1);
    } else {
      MulDistributes(q, 1, spf);
      DivModUnique(q + 1, spf, 0);
    }
  }
}
