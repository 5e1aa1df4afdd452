/** The barrier between the LTE radio units (RUs) of one eNB and its L1: one bit per RU and subframe,
    set when an RU delivers the subframe or is excused from it. */
module RuBarrier {
  import opened Helpers

  /** `wait` counts down while a resynchronising RU is to be ignored. */
  datatype Ru = Ru(slave: bool, sync: bool, wait: nat)

  /** An RU's arrival, with the RU table as the call left it. */
  datatype Arrival = Arrival(who: nat, rus: seq<Ru>)

  function Settle(r: Ru, subframe: nat): Ru {
    if r.wait == 1 && subframe != 9 then r.(wait := 0) else r
  }

  /** The arrival accounts for RU `i`: it is that RU and no longer waiting, or `i` is synchronising or a
      waiting slave. */
  predicate Accounts(a: Arrival, i: nat) {
    && i < |a.rus|
    && (|| (a.who == i && a.rus[i].wait == 0)
        || a.rus[i].sync
        || (a.rus[i].slave && a.rus[i].wait > 0 && a.who != i))
  }

  predicate Accounted(log: seq<Arrival>, i: nat) {
    exists k :: 0 <= k < |log| && Accounts(log[k], i)
  }

  lemma Append(log: seq<Arrival>, a: Arrival, i: nat)
    ensures Accounted(log + [a], i) <==> Accounted(log, i) || Accounts(a, i)
  {
    var more := log + [a];
    if k :| 0 <= k < |log| && Accounts(log[k], i) {
      assert Accounts(more[k], i);
    }
    assert more[|log|] == a;
  }

  class L1 {
    const n: nat
    var rus: seq<Ru>
    const masks: array<set<nat>>
    /** The arrivals of each subframe since its mask was last reset. */
    ghost var log: seq<seq<Arrival>>

    ghost predicate Valid()
      reads this, masks
    {
      && |rus| == n && masks.Length == |log| == 10
      && forall x :: 0 <= x < 10 ==>
           forall i: nat :: i in masks[x] <==> i < n && Accounted(log[x], i)
    }

    constructor (rus: seq<Ru>)
      ensures Valid() && fresh(masks) && this.rus == rus && forall x :: 0 <= x < 10 ==> log[x] == []
    {
      n, this.rus := |rus|, rus;
      masks := new set<nat>[10](i => {});
      log := seq(10, i => []);
    }

    /** RU `who` delivers a subframe. The subframe's mask is reset at the first arrival after which every
        RU is accounted for, and L1 is woken then, unless the RU that completes it is itself waiting. */
    method WakeupL1s(who: nat, subframe: nat) returns (woken: bool)
      requires Valid() && who < n && subframe < 10
      modifies this`rus, this`log, masks
      ensures Valid()
      ensures |rus| == |old(rus)| && forall i :: 0 <= i < n ==> rus[i] == Settle(old(rus)[i], subframe)
      ensures var now := old(log)[subframe] + [Arrival(who, rus)];
              && (woken <==> Full(now, n) && rus[who].wait == 0)
              && log == old(log)[subframe := if Full(now, n) then [] else now]
    {
      Mark(who, subframe);
      ghost var now := log[subframe];
      var full := masks[subframe] == LowBits(n);
      assert full <==> Full(now, n);
      if full {
        masks[subframe] := {};
        log := log[subframe := []];
      }
      woken := full && rus[who].wait == 0;
    }

    /** The loop over the RUs: count down, and set the bits this arrival accounts for. */
    method Mark(who: nat, subframe: nat)
      requires Valid() && who < n && subframe < 10
      modifies this`rus, this`log, masks
      ensures Valid()
      ensures |rus| == |old(rus)| && forall i :: 0 <= i < n ==> rus[i] == Settle(old(rus)[i], subframe)
      ensures log == old(log)[subframe := old(log)[subframe] + [Arrival(who, rus)]]
    {
      ghost var before := masks[subframe];
      var i := 0;
      while i < n
        invariant 0 <= i <= n == |rus| && log == old(log)
        invariant forall j :: 0 <= j < n ==> rus[j] == if j < i then Settle(old(rus)[j], subframe) else old(rus)[j]
        invariant forall j: nat :: j in masks[subframe] <==> j in before || (j < i && Accounts(Arrival(who, rus), j))
        invariant forall x :: 0 <= x < 10 && x != subframe ==> masks[x] == old(masks[x])
      {
        MarkOne(who, subframe, i);
        i := i + 1;
      }
      ghost var arrival := Arrival(who, rus);
      forall j: nat
        ensures Accounted(log[subframe] + [arrival], j) <==> Accounted(log[subframe], j) || Accounts(arrival, j)
      {
        Append(log[subframe], arrival, j);
      }
      log := log[subframe := log[subframe] + [arrival]];
    }

    /** Any sequence of arrivals of a subframe, the RUs' states changing in any way between them; `settled` are
        the arrivals with the tables the calls leave. */
    method Deliver(arrivals: seq<Arrival>, subframe: nat) returns (wakes: nat, ghost settled: seq<Arrival>)
      requires Valid() && subframe < 10 && log[subframe] == []
      requires forall k :: 0 <= k < |arrivals| ==> arrivals[k].who < |arrivals[k].rus| == n
      modifies this`rus, this`log, masks
      ensures Valid() && |settled| == |arrivals|
      ensures forall k :: 0 <= k < |arrivals| ==> settled[k] == SettledArrival(arrivals[k], subframe)
      ensures wakes == Wakes(settled, n) && log[subframe] == Pending(settled, n)
    {
      wakes, settled := 0, [];
      for k := 0 to |arrivals|
        invariant Valid() && |settled| == k
        invariant forall j :: 0 <= j < k ==> settled[j] == SettledArrival(arrivals[j], subframe)
        invariant wakes == Wakes(settled, n) && log[subframe] == Pending(settled, n)
      {
        var woken := DeliverOne(arrivals[k], subframe, settled);
        settled := settled + [SettledArrival(arrivals[k], subframe)];
        wakes := if woken then wakes + 1 else wakes;
      }
    }

    /** One arrival, after `before` with their settled tables. */
    method DeliverOne(a: Arrival, subframe: nat, ghost before: seq<Arrival>) returns (woken: bool)
      requires Valid() && subframe < 10 && a.who < |a.rus| == n && log[subframe] == Pending(before, n)
      modifies this`rus, this`log, masks
      ensures Valid()
      ensures var now := before + [SettledArrival(a, subframe)];
              log[subframe] == Pending(now, n) && Wakes(now, n) == Wakes(before, n) + if woken then 1 else 0
    {
      rus := a.rus;
      woken := WakeupL1s(a.who, subframe);
      assert rus == SettledTable(a.rus, subframe);
      OneMore(before, Arrival(a.who, rus), n);
    }

    method MarkOne(who: nat, subframe: nat, i: nat)
      requires |rus| == n && i < n && masks.Length == 10 && subframe < 10
      modifies this`rus, masks
      ensures rus == old(rus)[i := Settle(old(rus)[i], subframe)]
      ensures masks[subframe] == old(masks[subframe]) + if Accounts(Arrival(who, rus), i) then {i} else {}
      ensures forall x :: 0 <= x < 10 && x != subframe ==> masks[x] == old(masks[x])
    {
      if rus[i].wait == 1 && subframe != 9 {
        rus := rus[i := rus[i].(wait := 0)];
      }
      if who == i && rus[i].wait == 0 {
        masks[subframe] := masks[subframe] + {i};
      } else if rus[i].sync || (rus[i].slave && rus[i].wait > 0 && who != i) {
        masks[subframe] := masks[subframe] + {i};
      }
    }
  }

  // ------------------------------------------------------------------ runs

  function SettledTable(rus: seq<Ru>, subframe: nat): (t: seq<Ru>)
    ensures |t| == |rus| && forall i :: 0 <= i < |rus| ==> t[i] == Settle(rus[i], subframe)
  {
    if rus == [] then [] else SettledTable(rus[..|rus| - 1], subframe) + [Settle(rus[|rus| - 1], subframe)]
  }

  function SettledArrival(a: Arrival, subframe: nat): Arrival {
    Arrival(a.who, SettledTable(a.rus, subframe))
  }

  predicate Full(log: seq<Arrival>, n: nat) {
    forall i :: 0 <= i < n ==> Accounted(log, i)
  }

  /** The arrivals since the mask was last reset, how often it was reset, and how often L1 was woken. */
  function Pending(log: seq<Arrival>, n: nat): seq<Arrival> {
    if log == [] then []
    else
      var now := Pending(log[..|log| - 1], n) + [log[|log| - 1]];
      if Full(now, n) then [] else now
  }

  function Resets(log: seq<Arrival>, n: nat): nat {
    if log == [] then 0
    else
      var init, a := log[..|log| - 1], log[|log| - 1];
      Resets(init, n) + if Full(Pending(init, n) + [a], n) then 1 else 0
  }

  /** The RU that arrives is not waiting itself. */
  predicate Ready(a: Arrival) {
    a.who < |a.rus| && a.rus[a.who].wait == 0
  }

  function Wakes(log: seq<Arrival>, n: nat): nat {
    if log == [] then 0
    else
      var init, a := log[..|log| - 1], log[|log| - 1];
      Wakes(init, n) + if Full(Pending(init, n) + [a], n) && Ready(a) then 1 else 0
  }

  lemma OneMore(log: seq<Arrival>, a: Arrival, n: nat)
    ensures var now := Pending(log, n) + [a];
            && Pending(log + [a], n) == (if Full(now, n) then [] else now)
            && Resets(log + [a], n) == Resets(log, n) + (if Full(now, n) then 1 else 0)
            && Wakes(log + [a], n) == Wakes(log, n) + (if Full(now, n) && Ready(a) then 1 else 0)
  {
    assert (log + [a])[..|log|] == log;
  }

  /** How often an RU was accounted for. */
  function AccountTimes(log: seq<Arrival>, i: nat): nat {
    if log == [] then 0 else AccountTimes(log[..|log| - 1], i) + if Accounts(log[|log| - 1], i) then 1 else 0
  }

  lemma {:induction false} AccountTimesCounts(log: seq<Arrival>, i: nat)
    ensures AccountTimes(log, i) == |set k | 0 <= k < |log| && Accounts(log[k], i)|
  {
    if log != [] {
      var n := |log| - 1;
      AccountTimesCounts(log[..n], i);
      assert (set k | 0 <= k < |log| && Accounts(log[k], i))
          == (set k | 0 <= k < n && Accounts(log[..n][k], i)) + if Accounts(log[n], i) then {n} else {};
    }
  }

  /** Whatever the RUs' states do, every reset takes at least one arrival that accounts for each RU, every wake-up
      is a reset, and every reset a wake-up if no waiting RU arrives. */
  lemma {:induction false} WakesArePaid(log: seq<Arrival>, n: nat, i: nat)
    requires i < n
    ensures Resets(log, n) + (if Accounted(Pending(log, n), i) then 1 else 0) <= AccountTimes(log, i)
    ensures Wakes(log, n) <= Resets(log, n)
    ensures (forall k :: 0 <= k < |log| ==> Ready(log[k])) ==> Wakes(log, n) == Resets(log, n)
  {
    if log != [] {
      var init, a := log[..|log| - 1], log[|log| - 1];
      WakesArePaid(init, n, i);
      Append(Pending(init, n), a, i);
    }
  }

  // ------------------------------------------------------------------ rounds

  /** The members of a group present, and the rounds it has completed, after these arrivals. */
  function Present(arrivals: seq<nat>, group: set<nat>): set<nat> {
    if arrivals == [] then {}
    else
      var m := Present(arrivals[..|arrivals| - 1], group) + {arrivals[|arrivals| - 1]};
      if m == group then {} else m
  }

  function Rounds(arrivals: seq<nat>, group: set<nat>): nat {
    if arrivals == [] then 0
    else
      var before := arrivals[..|arrivals| - 1];
      Rounds(before, group) + if Present(before, group) + {arrivals[|arrivals| - 1]} == group then 1 else 0
  }

  function Times(arrivals: seq<nat>, i: nat): nat {
    if arrivals == [] then 0
    else Times(arrivals[..|arrivals| - 1], i) + if arrivals[|arrivals| - 1] == i then 1 else 0
  }

  predicate Within(arrivals: seq<nat>, group: set<nat>) {
    forall k :: 0 <= k < |arrivals| ==> arrivals[k] in group
  }

  /** No RU delivers a subframe again before the round it took part in is over. */
  predicate InStep(arrivals: seq<nat>, group: set<nat>) {
    forall k :: 0 <= k < |arrivals| ==> arrivals[k] !in Present(arrivals[..k], group)
  }

  /** Every round takes at least one arrival of every member, and exactly one when they stay in step: L1
      runs exactly as often as the slowest one delivers, and none is more than one subframe ahead. */
  lemma {:induction false} RoundsTakeEveryRu(arrivals: seq<nat>, group: set<nat>, i: nat)
    requires i in group && Within(arrivals, group)
    ensures Rounds(arrivals, group) + (if i in Present(arrivals, group) then 1 else 0) <= Times(arrivals, i)
    ensures InStep(arrivals, group) ==>
              Rounds(arrivals, group) + (if i in Present(arrivals, group) then 1 else 0) == Times(arrivals, i)
  {
    if arrivals != [] {
      var before := arrivals[..|arrivals| - 1];
      RoundsTakeEveryRu(before, group, i);
      if InStep(arrivals, group) {
        forall k | 0 <= k < |before|
          ensures before[k] !in Present(before[..k], group)
        {
          assert before[..k] == arrivals[..k];
        }
      }
    }
  }

  lemma {:induction false} PresentIsPartial(arrivals: seq<nat>, group: set<nat>)
    requires group != {} && Within(arrivals, group)
    ensures Present(arrivals, group) < group
  {
    if arrivals != [] {
      PresentIsPartial(arrivals[..|arrivals| - 1], group);
    }
  }

  /** Some member has not arrived yet, so the rounds are as many as the arrivals of the slowest one. */
  lemma SlowestRuPaces(arrivals: seq<nat>, group: set<nat>) returns (slow: nat)
    requires group != {} && InStep(arrivals, group) && Within(arrivals, group)
    ensures slow in group && Times(arrivals, slow) == Rounds(arrivals, group)
    ensures forall i :: i in group ==> Times(arrivals, slow) <= Times(arrivals, i) <= Times(arrivals, slow) + 1
  {
    PresentIsPartial(arrivals, group);
    slow :| slow in group && slow !in Present(arrivals, group);
    forall i | i in group
      ensures Times(arrivals, i) == Rounds(arrivals, group) + (if i in Present(arrivals, group) then 1 else 0)
    {
      RoundsTakeEveryRu(arrivals, group, i);
    }
  }

  // ------------------------------------------------------------------ excused RUs

  /** Every other RU's arrival accounts for it. */
  predicate Excused(r: Ru) {
    r.sync || (r.slave && r.wait > 0)
  }

  /** The RUs that must arrive themselves. */
  function Needed(rus: seq<Ru>): (group: set<nat>)
    ensures forall i: nat :: i in group <==> i < |rus| && !Excused(rus[i])
  {
    if rus == [] then {}
    else
      var n := |rus| - 1;
      Needed(rus[..n]) + if Excused(rus[n]) then {} else {n}
  }

  /** The arrivals that count: of RUs that must arrive and are not waiting. */
  function Counting(log: seq<Arrival>): seq<nat> {
    if log == [] then []
    else
      var a := log[|log| - 1];
      Counting(log[..|log| - 1]) + if Counts(a) then [a.who] else []
  }

  predicate Under(log: seq<Arrival>, rus: seq<Ru>) {
    forall k :: 0 <= k < |log| ==> log[k].rus == rus && log[k].who < |rus|
  }

  /** What a log accounts for: an RU that must arrive if it did, an excused one also if another RU that counts
      did. */
  lemma {:induction false} CompleteMeans(log: seq<Arrival>, rus: seq<Ru>)
    requires Under(log, rus) && Needed(rus) != {}
    ensures Full(log, |rus|) <==> forall i :: i in Needed(rus) ==> Accounted(log, i)
  {
    if forall i :: i in Needed(rus) ==> Accounted(log, i) {
      var x :| x in Needed(rus);
      var k :| 0 <= k < |log| && Accounts(log[k], x);
      forall i: nat | i < |rus|
        ensures Accounted(log, i)
      {
        if i !in Needed(rus) {
          assert log[k].who == x && Accounts(log[k], i);
        }
      }
    }
  }

  /** The pending arrivals account for exactly those RUs that must arrive and are present in the round. */
  predicate Tracks(open: seq<Arrival>, present: set<nat>, rus: seq<Ru>) {
    && Under(open, rus) && present < Needed(rus)
    && forall i :: i in Needed(rus) ==> (Accounted(open, i) <==> i in present)
  }

  lemma AccountsStep(open: seq<Arrival>, a: Arrival, rus: seq<Ru>, i: nat)
    requires a.rus == rus && a.who < |rus| && i in Needed(rus)
    ensures Accounted(open + [a], i) <==> Accounted(open, i) || (Ready(a) && a.who == i)
  {
    Append(open, a, i);
  }

  /** An arrival under a constant table completes the mask exactly when it completes the round. */
  lemma ArrivalCompletes(open: seq<Arrival>, present: set<nat>, a: Arrival, rus: seq<Ru>)
    requires a.rus == rus && a.who < |rus| && Needed(rus) != {} && Tracks(open, present, rus)
    ensures Full(open + [a], |rus|) <==> Counts(a) && present + {a.who} == Needed(rus)
  {
    CompleteMeans(open + [a], rus);
    forall i | i in Needed(rus)
      ensures Accounted(open + [a], i) <==> i in present || (Ready(a) && a.who == i)
    {
      AccountsStep(open, a, rus, i);
    }
  }

  /** Otherwise the pending arrivals and the round go on together. */
  lemma ArrivalTracks(open: seq<Arrival>, present: set<nat>, a: Arrival, rus: seq<Ru>)
    requires a.rus == rus && a.who < |rus| && Tracks(open, present, rus)
    requires !(Counts(a) && present + {a.who} == Needed(rus))
    ensures Tracks(open + [a], if Counts(a) then present + {a.who} else present, rus)
  {
    forall i | i in Needed(rus)
      ensures Accounted(open + [a], i) <==> i in (if Counts(a) then present + {a.who} else present)
    {
      AccountsStep(open, a, rus, i);
    }
  }

  predicate Counts(a: Arrival) {
    Ready(a) && !Excused(a.rus[a.who])
  }

  /** What an arrival does to the round. */
  lemma RoundStep(log: seq<Arrival>, a: Arrival, group: set<nat>)
    ensures var w, w' := Counting(log), Counting(log + [a]);
            var m := Present(w, group) + {a.who};
            && w' == (if Counts(a) then w + [a.who] else w)
            && Present(w', group) == (if !Counts(a) then Present(w, group) else if m == group then {} else m)
            && Rounds(w', group) == Rounds(w, group) + (if Counts(a) && m == group then 1 else 0)
  {
    assert (log + [a])[..|log|] == log;
    var w := Counting(log);
    assert (w + [a.who])[..|w|] == w;
  }

  /** As long as the RUs' states stay as they are and some RU must arrive: L1 is woken exactly once per round of the
      RUs that must arrive, whoever else arrives in between; excused RUs neither delay nor complete a round,
      and a waiting RU that must arrive holds it up. */
  lemma {:induction false} ExcusedDoNotDelay(log: seq<Arrival>, rus: seq<Ru>)
    requires Under(log, rus) && Needed(rus) != {}
    ensures Tracks(Pending(log, |rus|), Present(Counting(log), Needed(rus)), rus)
    ensures Wakes(log, |rus|) == Resets(log, |rus|) == Rounds(Counting(log), Needed(rus))
    ensures Within(Counting(log), Needed(rus))
  {
    if log != [] {
      var init, a := log[..|log| - 1], log[|log| - 1];
      ExcusedDoNotDelay(init, rus);
      assert log == init + [a];
      CountingWithin(init, a, rus);
      NextCounts(init, a, rus);
      NextTracks(init, a, rus);
    }
  }

  lemma CountingWithin(log: seq<Arrival>, a: Arrival, rus: seq<Ru>)
    requires a.rus == rus && a.who < |rus| && Within(Counting(log), Needed(rus))
    ensures Within(Counting(log + [a]), Needed(rus))
  {
    assert (log + [a])[..|log|] == log;
    var w := Counting(log + [a]);
    forall k | 0 <= k < |w|
      ensures w[k] in Needed(rus)
    {
      if k < |Counting(log)| {
        assert w[k] == Counting(log)[k];
      }
    }
  }

  lemma NextCounts(log: seq<Arrival>, a: Arrival, rus: seq<Ru>)
    requires a.rus == rus && a.who < |rus| && Needed(rus) != {}
    requires Tracks(Pending(log, |rus|), Present(Counting(log), Needed(rus)), rus)
    ensures var more, n, group := log + [a], |rus|, Needed(rus);
            Wakes(more, n) - Wakes(log, n) == Resets(more, n) - Resets(log, n)
            == Rounds(Counting(more), group) - Rounds(Counting(log), group)
  {
    OneMore(log, a, |rus|);
    RoundStep(log, a, Needed(rus));
    ArrivalCompletes(Pending(log, |rus|), Present(Counting(log), Needed(rus)), a, rus);
  }

  lemma NextTracks(log: seq<Arrival>, a: Arrival, rus: seq<Ru>)
    requires a.rus == rus && a.who < |rus| && Needed(rus) != {}
    requires Tracks(Pending(log, |rus|), Present(Counting(log), Needed(rus)), rus)
    ensures Tracks(Pending(log + [a], |rus|), Present(Counting(log + [a]), Needed(rus)), rus)
  {
    var open, present := Pending(log, |rus|), Present(Counting(log), Needed(rus));
    var completes := Counts(a) && present + {a.who} == Needed(rus);
    OneMore(log, a, |rus|);
    RoundStep(log, a, Needed(rus));
    ArrivalCompletes(open, present, a, rus);
    if completes {
      NothingTracked(rus);
    } else {
      ArrivalTracks(open, present, a, rus);
    }
  }

  lemma NothingTracked(rus: seq<Ru>)
    requires Needed(rus) != {}
    ensures Tracks([], {}, rus)
  {
  }
}
