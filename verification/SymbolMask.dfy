/** Assembly of a subframe from IF4p5 fronthaul packets: one bit per received symbol, compared as a
    number with the mask of a full subframe. */
module SymbolMask {
  import opened Arithmetic
  import opened Helpers

  datatype Packet =
    | Fft(frame: nat, subframe: nat, symbol: nat)
    | Tick(frame: nat, subframe: nat)
    | Prach(frame: nat, subframe: nat)

  /** The bits of a 32-bit mask. */
  type Mask = set<nat>

  /** The number the lowest `n` bits of a mask stand for. */
  function Value(m: Mask, n: nat): nat {
    if n == 0 then 0 else Value(m, n - 1) + (if n - 1 in m then Pow2(n - 1) else 0)
  }

  const WIDTH := 32

  const TICK_BITS := 16

  /** What a tick stores: 0xffff. */
  function AllSixteen(): Mask {
    LowBits(TICK_BITS)
  }

  lemma TickSetsSixteen(i: nat)
    ensures i in AllSixteen() <==> i < 16
  {
  }

  predicate BelowFull(m: Mask, expected: nat) {
    Value(m, WIDTH) < Pow2(expected) - 1
  }

  function Apply(m: Mask, p: Packet, subframe: nat): Mask {
    if p.subframe != subframe then m
    else match p
      case Fft(_, _, s) => m + {s}
      case Tick(_, _) => AllSixteen()
      case Prach(_, _) => m
  }

  /** The mask of a subframe after the packets received since it was last reset. */
  function MaskOf(ps: seq<Packet>, subframe: nat): Mask {
    if ps == [] then {} else Apply(MaskOf(ps[..|ps| - 1], subframe), ps[|ps| - 1], subframe)
  }

  predicate HasTick(ps: seq<Packet>, subframe: nat) {
    exists i :: 0 <= i < |ps| && ps[i].Tick? && ps[i].subframe == subframe
  }

  predicate HasSymbol(ps: seq<Packet>, subframe: nat, s: nat) {
    exists i :: 0 <= i < |ps| && ps[i].Fft? && ps[i].subframe == subframe && ps[i].symbol == s
  }

  /** Every expected symbol, or a tick, has arrived. */
  predicate Complete(ps: seq<Packet>, subframe: nat, expected: nat) {
    HasTick(ps, subframe) || forall s :: 0 <= s < expected ==> HasSymbol(ps, subframe, s)
  }

  /** Symbol numbers stay below the number of expected symbols. */
  predicate InRange(ps: seq<Packet>, subframe: nat, expected: nat) {
    forall i :: 0 <= i < |ps| && ps[i].Fft? && ps[i].subframe == subframe ==> ps[i].symbol < expected
  }

  // ------------------------------------------------------------------ masks as numbers

  lemma {:induction false} ValueBound(m: Mask, n: nat)
    ensures Value(m, n) <= Pow2(n) - 1
    ensures Value(m, n) == Pow2(n) - 1 <==> forall i :: 0 <= i < n ==> i in m
  {
    if n > 0 {
      ValueBound(m, n - 1);
    }
  }

  lemma {:induction false} ValueGrows(a: Mask, b: Mask, n: nat, k: nat)
    requires k <= n && a <= b
    ensures Value(a, k) <= Value(b, n)
    decreases n
  {
    if k < n {
      ValueGrows(a, b, n - 1, k);
    } else if n > 0 {
      ValueGrows(a, b, n - 1, k - 1);
    }
  }

  lemma {:induction false} ValueAbove(m: Mask, k: nat, n: nat)
    requires k <= n && forall i :: i in m ==> i < k
    ensures Value(m, n) == Value(m, k)
    decreases n
  {
    if k < n {
      ValueAbove(m, k, n - 1);
    }
  }

  /** A mask whose bits are all expected is below the full mask exactly when a bit is missing; a mask
      that holds the sixteen tick bits never is. */
  lemma BelowFullMeans(m: Mask, expected: nat)
    requires expected <= TICK_BITS
    requires AllSixteen() <= m || forall i :: i in m ==> i < expected
    ensures BelowFull(m, expected) <==> !(AllSixteen() <= m || forall i :: 0 <= i < expected ==> i in m)
  {
    ValueBound(m, expected);
    if AllSixteen() <= m {
      ValueGrows(m, m, WIDTH, expected);
      assert forall i: nat :: i < expected ==> i in AllSixteen();
    } else {
      ValueAbove(m, expected, WIDTH);
    }
  }

  lemma {:induction false} MaskMeans(ps: seq<Packet>, subframe: nat)
    ensures HasTick(ps, subframe) ==> AllSixteen() <= MaskOf(ps, subframe)
    ensures !HasTick(ps, subframe) ==>
              forall s: nat :: s in MaskOf(ps, subframe) <==> HasSymbol(ps, subframe, s)
  {
    if ps != [] {
      MaskMeans(ps[..|ps| - 1], subframe);
      ExtendHas(ps, subframe);
    }
  }

  lemma ExtendHas(ps: seq<Packet>, subframe: nat)
    requires ps != []
    ensures var init, p := ps[..|ps| - 1], ps[|ps| - 1];
            && (HasTick(ps, subframe) <==> HasTick(init, subframe) || (p.Tick? && p.subframe == subframe))
            && forall s: nat :: HasSymbol(ps, subframe, s)
                 <==> HasSymbol(init, subframe, s) || (p.Fft? && p.subframe == subframe && p.symbol == s)
  {
  }

  lemma {:induction false} Pow2Grows(a: nat, b: nat)
    requires a <= b
    ensures Pow2(a) <= Pow2(b)
    decreases b
  {
    if a < b {
      Pow2Grows(a, b - 1);
    }
  }

  /** A single bit at or above the expected ones outweighs all of them. */
  lemma HighBitIsFull(m: Mask, expected: nat, s: nat)
    requires s in m && expected <= s < WIDTH
    ensures !BelowFull(m, expected)
  {
    ValueGrows(m, m, WIDTH, s + 1);
    Pow2Grows(expected, s);
  }

  /** The numeric test passes exactly when the subframe is complete or some symbol number is out of the
      expected range. */
  lemma TestPasses(ps: seq<Packet>, subframe: nat, expected: nat)
    requires expected <= TICK_BITS && InRange(ps, subframe, WIDTH)
    ensures !BelowFull(MaskOf(ps, subframe), expected)
       <==> Complete(ps, subframe, expected) || !InRange(ps, subframe, expected)
  {
    var m := MaskOf(ps, subframe);
    MaskMeans(ps, subframe);
    if HasTick(ps, subframe) {
      BelowFullMeans(m, expected);
    } else if InRange(ps, subframe, expected) {
      assert forall s :: s in m ==> HasSymbol(ps, subframe, s);
      BelowFullMeans(m, expected);
      assert AllSixteen() <= m ==> forall s: nat :: s < expected ==> s in AllSixteen();
    } else {
      var i :| 0 <= i < |ps| && ps[i].Fft? && ps[i].subframe == subframe && ps[i].symbol >= expected;
      assert HasSymbol(ps, subframe, ps[i].symbol);
      HighBitIsFull(m, expected, ps[i].symbol);
    }
  }

  /** With symbol numbers in range, the test says exactly whether the subframe is complete. */
  lemma TestIsExact(ps: seq<Packet>, subframe: nat, expected: nat)
    requires InRange(ps, subframe, expected) && expected <= TICK_BITS
    ensures BelowFull(MaskOf(ps, subframe), expected) <==> !Complete(ps, subframe, expected)
  {
    TestPasses(ps, subframe, expected);
  }

  /** Any symbol number out of range passes for a full subframe, whatever else has arrived. */
  lemma OutOfRangePasses(ps: seq<Packet>, subframe: nat, expected: nat, i: nat)
    requires expected <= TICK_BITS && InRange(ps, subframe, WIDTH)
    requires i < |ps| && ps[i].Fft? && ps[i].subframe == subframe && ps[i].symbol >= expected
    ensures !BelowFull(MaskOf(ps, subframe), expected)
  {
    TestPasses(ps, subframe, expected);
  }

  /** So a subframe of which only one such packet has arrived passes, incomplete as it is. */
  lemma OneOutOfRangePasses(expected: nat, symbol: nat)
    requires 1 <= expected <= TICK_BITS && expected <= symbol < WIDTH
    ensures var ps := [Fft(0, 0, symbol)];
            !BelowFull(MaskOf(ps, 0), expected) && !Complete(ps, 0, expected)
  {
    var ps := [Fft(0, 0, symbol)];
    OutOfRangePasses(ps, 0, expected, 0);
    assert !HasSymbol(ps, 0, 0);
  }

  /** After fewer than `n` further packets the subframe has not tested full. */
  predicate Short(was: seq<Packet>, packets: seq<Packet>, n: nat, subframe: nat, expected: nat) {
    n <= |packets| && forall u :: 0 <= u < n ==> BelowFull(MaskOf(was + packets[..u], subframe), expected)
  }

  /** Every subframe has received `ps` on top of what it had. */
  predicate Appended(was: seq<seq<Packet>>, now: seq<seq<Packet>>, ps: seq<Packet>) {
    |now| == |was| && forall x :: 0 <= x < |was| ==> now[x] == was[x] + ps
  }

  lemma AppendedMore(was: seq<seq<Packet>>, mid: seq<seq<Packet>>, now: seq<seq<Packet>>, packets: seq<Packet>, n: nat)
    requires n < |packets| && Appended(was, mid, packets[..n]) && Appended(mid, now, [packets[n]])
    ensures Appended(was, now, packets[..n + 1])
  {
    assert packets[..n + 1] == packets[..n] + [packets[n]];
  }

  // ------------------------------------------------------------------ the receive call

  class Fronthaul {
    const samples: nat
    const masks: array<Mask>
    var firstRx: bool
    var frameRx: nat
    var ttiRx: nat
    var timestampRx: nat
    /** A resynchronisation has been requested and waits for the next received frame number. */
    var waitResynch: bool
    /** The packets received since each subframe was last reset. */
    ghost var since: seq<seq<Packet>>

    ghost predicate Valid()
      reads this, masks
    {
      && masks.Length == |since| == 10
      && forall x :: 0 <= x < 10 ==> masks[x] == MaskOf(since[x], x)
    }

    constructor (samples: nat)
      ensures Valid() && fresh(masks) && firstRx && !waitResynch && this.samples == samples
      ensures forall x :: 0 <= x < 10 ==> since[x] == []
    {
      this.samples := samples;
      masks := new Mask[10](i => {});
      firstRx, waitResynch, frameRx, ttiRx, timestampRx := true, false, 0, 0, 0;
      since := seq(10, i => []);
    }

    /** Receive until the wanted subframe is full. `packets` is what the fronthaul delivers: the call
        is still blocked when they run out. It returns at the first moment the subframe tests full,
        for that subframe and the frame of the last packet read, and resets that subframe alone: the
        packets of all others stay counted. */
    method SouthIn(frame: nat, subframe: nat, expected: nat, packets: seq<Packet>)
      returns (returned: bool, used: nat, newFrame: nat, newSubframe: nat)
      requires Valid() && subframe < 10
      requires forall i :: 0 <= i < |packets| ==> packets[i].subframe < 10
      modifies this, masks
      ensures Valid() && used <= |packets| && (!returned ==> used == |packets|)
      ensures Short(old(since)[subframe], packets, used, subframe, expected)
      ensures returned <==> !BelowFull(MaskOf(old(since)[subframe] + packets[..used], subframe), expected)
      ensures var all := old(since)[subframe] + packets[..used];
              expected <= TICK_BITS && InRange(all, subframe, WIDTH) ==>
                (returned <==> Complete(all, subframe, expected) || !InRange(all, subframe, expected))
      ensures returned && used > 0 ==> packets[used - 1].subframe == subframe
      ensures returned ==> newSubframe == ttiRx == subframe && !firstRx
      ensures returned ==> frameRx == if used == 0 then frame else packets[used - 1].frame
      ensures returned ==> timestampRx == (frameRx * 10 + subframe) * samples
      ensures returned ==> newFrame == if old(firstRx) || old(waitResynch) then frameRx else frame
      ensures waitResynch <==> old(waitResynch) && !(returned && !old(firstRx) && frameRx != frame)
      ensures forall x :: 0 <= x < 10 ==>
                since[x] == if returned && x == subframe then [] else old(since)[x] + packets[..used]
    {
      var f, sf;
      f, sf, used := Assemble(frame, subframe, expected, packets);
      newFrame, newSubframe := frame, subframe;
      returned := !BelowFull(masks[subframe], expected);
      if expected <= TICK_BITS && InRange(since[subframe], subframe, WIDTH) {
        TestPasses(since[subframe], subframe, expected);
      }
      if returned {
        newFrame, newSubframe := Announce(frame, subframe, f, sf);
        masks[sf] := {};
        since := since[sf := []];
      }
    }

    /** The packet loop. */
    method Assemble(frame: nat, subframe: nat, expected: nat, packets: seq<Packet>)
      returns (f: nat, sf: nat, used: nat)
      requires Valid() && subframe < 10
      requires forall i :: 0 <= i < |packets| ==> packets[i].subframe < 10
      modifies this`since, masks
      ensures Valid() && used <= |packets|
      ensures BelowFull(masks[subframe], expected) ==> used == |packets|
      ensures Short(old(since)[subframe], packets, used, subframe, expected)
      ensures if used == 0 then f == frame && sf == subframe
              else f == packets[used - 1].frame && sf == packets[used - 1].subframe
      ensures !BelowFull(masks[subframe], expected) ==> sf == subframe
      ensures Appended(old(since), since, packets[..used])
    {
      f, sf, used := frame, subframe, 0;
      assert Appended(since, since, packets[..0]);
      while used < |packets| && BelowFull(masks[subframe], expected)
        invariant 0 <= used <= |packets| && Valid()
        invariant Short(old(since)[subframe], packets, used, subframe, expected)
        invariant Appended(old(since), since, packets[..used])
        invariant used == 0 ==> f == frame && sf == subframe
        invariant used > 0 ==> f == packets[used - 1].frame && sf == packets[used - 1].subframe
        invariant sf != subframe ==> BelowFull(masks[subframe], expected)
      {
        ghost var mid := since;
        Take(packets[used]);
        AppendedMore(old(since), mid, since, packets, used);
        f, sf := packets[used].frame, packets[used].subframe;
        used := used + 1;
      }
    }

    /** One packet: set a bit, set all of them, or nothing. */
    method Take(p: Packet)
      requires Valid() && p.subframe < 10
      modifies this`since, masks
      ensures Valid()
      ensures Appended(old(since), since, [p])
      ensures forall x :: 0 <= x < 10 && x != p.subframe ==> masks[x] == old(masks[x])
    {
      if p.Fft? {
        masks[p.subframe] := masks[p.subframe] + {p.symbol};
      } else if p.Tick? {
        masks[p.subframe] := AllSixteen();
      }
      ghost var was := since;
      since := seq(10, x requires 0 <= x < 10 => was[x] + [p]);
      assert forall x :: 0 <= x < 10 ==> since[x][..|since[x]| - 1] == was[x];
    }

    /** Publish the received time and reconcile the thread's counters with it. */
    method Announce(frame: nat, subframe: nat, f: nat, sf: nat) returns (newFrame: nat, newSubframe: nat)
      modifies this`firstRx, this`frameRx, this`ttiRx, this`timestampRx, this`waitResynch
      ensures ttiRx == sf && frameRx == f && timestampRx == (f * 10 + sf) * samples && !firstRx
      ensures newSubframe == sf && newFrame == if old(firstRx) || old(waitResynch) then f else frame
      ensures waitResynch <==> old(waitResynch) && (old(firstRx) || f == frame)
    {
      ttiRx, frameRx, timestampRx := sf, f, (f * 10 + sf) * samples;
      newFrame, newSubframe := frame, subframe;
      if !firstRx {
        if ttiRx != subframe {
          newSubframe := sf;
        }
        if waitResynch && frameRx != frame {
          waitResynch, newFrame := false, frameRx;
        }
      } else {
        firstRx, newFrame, newSubframe := false, frameRx, ttiRx;
      }
    }
  }
}
