/** Writing part of a slot to the radio: how many symbols and samples a call sends and which burst
    flag it carries, for a slot sent whole or in consecutive batches. */
module TxBurst {
  import opened SymbolTime
  import opened SampleGrid
  import opened SlotGrid

  datatype Link = Down | Up | Flexible

  datatype SlotType = Downlink | Uplink | Mixed

  datatype Flag = BurstStart | BurstMiddle | BurstEnd

  /** What one call writes: `symbols` symbols of together `samples` samples, after `extension` samples sent
      ahead of them; `Fatal` stops the program. */
  datatype Burst = Fatal | Nothing | Burst(symbols: nat, samples: int, flag: Flag, extension: nat)

  /** The TDD configuration of one slot. */
  predicate SlotConfig(links: seq<Link>) {
    |links| == SYMBOLS
  }

  predicate All(links: seq<Link>, link: Link) {
    forall i :: 0 <= i < |links| ==> links[i] == link
  }

  function TypeOf(links: seq<Link>): SlotType {
    if All(links, Up) then Uplink else if All(links, Down) then Downlink else Mixed
  }

  function Downs(links: seq<Link>): nat {
    if links == [] then 0 else Downs(links[..|links| - 1]) + (if links[|links| - 1] == Down then 1 else 0)
  }

  function DownAt(links: seq<Link>): set<int> {
    set i | 0 <= i < |links| && links[i] == Down
  }

  lemma {:induction false} DownsCount(links: seq<Link>)
    ensures Downs(links) == |DownAt(links)|
  {
    if links != [] {
      var n := |links| - 1;
      DownsCount(links[..n]);
      assert DownAt(links) == DownAt(links[..n]) + if links[n] == Down then {n} else {};
    }
  }

  lemma {:induction false} DownsBelow(links: seq<Link>)
    ensures Downs(links) <= |links|
    ensures Downs(links) == |links| ==> All(links, Down)
  {
    if links != [] {
      DownsBelow(links[..|links| - 1]);
    }
  }

  /** A mixed slot never counts 14 downlink symbols. */
  lemma MixedIsNotFull(links: seq<Link>)
    requires SlotConfig(links) && !All(links, Down)
    ensures Downs(links) < SYMBOLS
  {
    DownsBelow(links);
  }

  function MixedBurst(p: Parms, slot: nat, downs: nat, first: nat, count: nat): Burst
    requires p.mu != 0 ==> p.Half() > 0
    requires 1 <= count && first + count <= SYMBOLS
  {
    if downs == 0 then Fatal
    else if downs < first then Nothing
    else
      var last := first + count - 1;
      var n := (if downs < last then downs else last) - first + 1;
      Burst(n, SymbolDuration(p, slot, first, n), if last >= downs then BurstEnd else BurstMiddle, 0)
  }

  /** The call sends exactly those of its symbols that are not past symbol `downs`, and ends the burst if
      symbol `downs` is among them. */
  ghost predicate SendsUpTo(p: Parms, slot: nat, downs: nat, first: nat, count: nat, b: Burst)
    requires p.mu != 0 ==> p.Half() > 0
  {
    if downs < first then b == Nothing
    else
      && b.Burst? && b.extension == 0
      && 1 <= b.symbols <= count && first + b.symbols - 1 <= downs
      && (b.symbols == count || first + b.symbols - 1 == downs)
      && b.samples == SymbolSum(p, slot, first, b.symbols)
      && b.flag == if first <= downs < first + count then BurstEnd else BurstMiddle
  }

  lemma MixedSendsUpTo(p: Parms, slot: nat, downs: nat, first: nat, count: nat)
    requires p.Valid() && Ok(p) && downs > 0 && 1 <= count && first + count <= SYMBOLS
    ensures SendsUpTo(p, slot, downs, first, count, MixedBurst(p, slot, downs, first, count))
  {
    var b := MixedBurst(p, slot, downs, first, count);
    if b.Burst? {
      DurationIsSum(p, slot, first, b.symbols);
    }
  }

  /** The call for symbols `first .. first + count - 1` of a slot; `before` and `after` are the
      neighbouring slots, `bursts` says that the carrier is TDD and not transmitting continuously, and
      `firstTx` that nothing has been sent yet.
      In an uplink slot nothing is sent, in a mixed one the symbols up to the first after the downlink
      ones, in any other slot all of them. A burst starts, with the extension, after an uplink slot, and
      ends before one; the first transmission of all starts one too. */
  method TxRfSymbols(p: Parms, links: seq<Link>, before: seq<Link>, after: seq<Link>, slot: nat, first: nat, count: nat,
                     bursts: bool, extension: nat, firstTx: bool)
    returns (b: Burst, stillFirst: bool)
    requires p.Valid() && Ok(p) && SlotConfig(links) && SlotConfig(before) && SlotConfig(after)
    requires 1 <= count && first + count <= SYMBOLS
    ensures stillFirst <==> firstTx && !b.Burst?
    ensures bursts && All(links, Up) ==> b == Nothing
    ensures bursts && !All(links, Up) && !All(links, Down) ==>
              var downs := |DownAt(links)|;
              && b == MixedBurst(p, slot, downs, first, count)
              && (if downs == 0 then b == Fatal else SendsUpTo(p, slot, downs, first, count, b))
    ensures !bursts || All(links, Down) ==>
              && b.Burst? && b.symbols == count && b.samples == SymbolSum(p, slot, first, count)
              && b.extension == (if bursts && All(before, Up) then extension else 0)
              && (b.flag == BurstEnd <==> bursts && !All(before, Up) && All(after, Up))
              && (b.flag == BurstStart <==> (bursts && All(before, Up)) || (firstTx && b.flag != BurstEnd))
  {
    stillFirst := firstTx;
    DownsCount(links);
    assert !(All(links, Up) && links[0] == Down);
    DurationIsSum(p, slot, first, count);
    if !bursts {
      return Burst(count, SymbolDuration(p, slot, first, count), if firstTx then BurstStart else BurstMiddle, 0), false;
    }
    match TypeOf(links)
    case Mixed =>
      b := TxMixed(p, links, slot, first, count);
      stillFirst := firstTx && !b.Burst?;
    case Downlink =>
      var flag, ahead := BurstMiddle, 0;
      if TypeOf(before) == Uplink {
        flag, ahead := BurstStart, extension;
      } else if TypeOf(after) == Uplink {
        flag := BurstEnd;
      } else if firstTx {
        flag := BurstStart;
      }
      return Burst(count, SymbolDuration(p, slot, first, count), flag, ahead), false;
    case Uplink =>
      return Nothing, stillFirst;
  }

  method TxMixed(p: Parms, links: seq<Link>, slot: nat, first: nat, count: nat) returns (b: Burst)
    requires p.Valid() && Ok(p) && SlotConfig(links) && 1 <= count && first + count <= SYMBOLS
    ensures b == MixedBurst(p, slot, Downs(links), first, count)
    ensures if Downs(links) == 0 then b == Fatal else SendsUpTo(p, slot, Downs(links), first, count, b)
  {
    var downs := CountDowns(links);
    if downs == 0 {
      return Fatal;
    }
    MixedSendsUpTo(p, slot, downs, first, count);
    if downs < first {
      return Nothing;
    }
    var last := first + count - 1;
    var flag := if last >= downs then BurstEnd else BurstMiddle;
    var n := (if downs < last then downs else last) - first + 1;
    return Burst(n, SymbolDuration(p, slot, first, n), flag, 0);
  }

  method CountDowns(links: seq<Link>) returns (downs: nat)
    requires SlotConfig(links)
    ensures downs == Downs(links)
  {
    downs := 0;
    var i := 0;
    while i < SYMBOLS
      invariant 0 <= i <= SYMBOLS && downs == Downs(links[..i])
    {
      assert links[..i + 1][..i] == links[..i];
      if links[i] == Down {
        downs := downs + 1;
      }
      i := i + 1;
    }
    assert links[..i] == links;
  }

  // ------------------------------------------------------------------ batches

  function Total(counts: seq<nat>): nat {
    if counts == [] then 0 else Total(counts[..|counts| - 1]) + counts[|counts| - 1]
  }

  /** Consecutive non-empty batches that stay inside the slot. */
  predicate Batches(counts: seq<nat>) {
    Total(counts) <= SYMBOLS && forall i :: 0 <= i < |counts| ==> 1 <= counts[i]
  }

  function Symbols(b: Burst): nat {
    if b.Burst? then b.symbols else 0
  }

  function Samples(b: Burst): int {
    if b.Burst? then b.samples else 0
  }

  function Ends(b: Burst): nat {
    if b.Burst? && b.flag == BurstEnd then 1 else 0
  }

  /** Totals over the calls for the batches: symbols, samples, and calls that carry the end flag. */
  function Totals(p: Parms, slot: nat, downs: nat, counts: seq<nat>): (nat, int, nat)
    requires (p.mu != 0 ==> p.Half() > 0) && Batches(counts)
  {
    if counts == [] then (0, 0, 0)
    else
      var n := |counts| - 1;
      var t := Totals(p, slot, downs, counts[..n]);
      var b := MixedBurst(p, slot, downs, Total(counts[..n]), counts[n]);
      (t.0 + Symbols(b), t.1 + Samples(b), t.2 + Ends(b))
  }

  /** How many of the first `k` symbols of a mixed slot are sent: the code also sends the first
      symbol after the downlink ones. */
  function Sent(k: nat, downs: nat): nat {
    if k <= downs then k else downs + 1
  }

  lemma OneBatch(p: Parms, slot: nat, downs: nat, first: nat, count: nat)
    requires Ok(p) && downs > 0 && 1 <= count && first + count <= SYMBOLS
    ensures var b := MixedBurst(p, slot, downs, first, count);
            && Sent(first, downs) + Symbols(b) == Sent(first + count, downs)
            && SymbolSum(p, slot, 0, Sent(first, downs)) + Samples(b)
               == SymbolSum(p, slot, 0, Sent(first + count, downs))
            && Ends(b) == if first <= downs < first + count then 1 else 0
  {
    var b := MixedBurst(p, slot, downs, first, count);
    if b.Burst? {
      DurationIsSum(p, slot, first, b.symbols);
      SumSplits(p, slot, 0, first, b.symbols);
    }
  }

  /** After batches covering `k` symbols, exactly the symbols `Sent(k)` have been sent, and the burst
      has ended once if symbol `downs` was among them. */
  lemma {:induction false} TotalsOfBatches(p: Parms, slot: nat, downs: nat, counts: seq<nat>)
    requires Ok(p) && downs > 0 && Batches(counts)
    ensures var k := Total(counts);
            Totals(p, slot, downs, counts)
            == (Sent(k, downs), SymbolSum(p, slot, 0, Sent(k, downs)), if k <= downs then 0 else 1)
  {
    if counts != [] {
      var n := |counts| - 1;
      TotalsOfBatches(p, slot, downs, counts[..n]);
      OneBatch(p, slot, downs, Total(counts[..n]), counts[n]);
    }
  }

  /** However a mixed slot with downlink symbols is cut into consecutive batches, the calls together
      send the symbols and samples of the single whole-slot call, and exactly one of them ends the
      burst. */
  lemma BatchingIsInvisible(p: Parms, slot: nat, links: seq<Link>, counts: seq<nat>)
    requires Ok(p) && SlotConfig(links) && !All(links, Down) && DownAt(links) != {}
    requires Batches(counts) && Total(counts) == SYMBOLS
    ensures var whole := MixedBurst(p, slot, Downs(links), 0, SYMBOLS);
            Totals(p, slot, Downs(links), counts) == (Symbols(whole), Samples(whole), 1)
            && Symbols(whole) == |DownAt(links)| + 1
  {
    var downs := Downs(links);
    DownsCount(links);
    MixedIsNotFull(links);
    TotalsOfBatches(p, slot, downs, counts);
    DurationIsSum(p, slot, 0, downs + 1);
  }

  /** Sending a mixed slot in consecutive calls: together they send the symbols up to the first after the
      downlink ones, and one of them ends the burst. */
  method SendInBatches(p: Parms, links: seq<Link>, before: seq<Link>, after: seq<Link>, slot: nat, counts: seq<nat>,
                       extension: nat, firstTx: bool)
    returns (symbols: nat, samples: int, ends: nat)
    requires p.Valid() && Ok(p) && SlotConfig(links) && SlotConfig(before) && SlotConfig(after)
    requires !All(links, Down) && DownAt(links) != {}
    requires Batches(counts) && Total(counts) == SYMBOLS
    ensures var sent := |DownAt(links)| + 1;
            symbols == sent && samples == SymbolSum(p, slot, 0, sent) && ends == 1
  {
    DownsCount(links);
    assert !All(links, Up);
    symbols, samples, ends := 0, 0, 0;
    var k, first, isFirst := 0, 0, firstTx;
    ghost var downs := Downs(links);
    while k < |counts|
      invariant 0 <= k <= |counts| && first == Total(counts[..k]) <= SYMBOLS
      invariant symbols == Sent(first, downs) && samples == SymbolSum(p, slot, 0, Sent(first, downs))
      invariant ends == if first <= downs then 0 else 1
    {
      assert counts[..k + 1][..k] == counts[..k];
      TotalGrows(counts, k + 1);
      var b;
      b, isFirst := TxRfSymbols(p, links, before, after, slot, first, counts[k], true, extension, isFirst);
      OneBatch(p, slot, downs, first, counts[k]);
      symbols, samples, ends := symbols + Symbols(b), samples + Samples(b), ends + Ends(b);
      first := first + counts[k];
      k := k + 1;
    }
    assert counts[..k] == counts;
    MixedIsNotFull(links);
  }

  lemma {:induction false} TotalGrows(counts: seq<nat>, k: nat)
    requires k <= |counts|
    ensures Total(counts[..k]) <= Total(counts)
    decreases |counts| - k
  {
    if k == |counts| {
      assert counts[..k] == counts;
    } else {
      assert counts[..k + 1][..k] == counts[..k];
      TotalGrows(counts, k + 1);
    }
  }
}
