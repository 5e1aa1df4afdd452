/** The gNB receive-slot protocol: the RU thread, the L1 TX thread and the L1 RX thread pass slots
    through three FIFOs, and busy flags indexed by slot modulo the buffer depth guard the shared
    frequency-domain buffer. */
module ReceiveSlots {
  import opened Helpers

  /** A slot on its way through the pipeline; `uplink` also stands for mixed slots. */
  datatype Msg = Msg(slot: nat, uplink: bool)

  /** The RU thread between slots, waiting for a buffer, or writing one. */
  datatype Ru = Idle | Waiting(slot: nat) | Filling(msg: Msg)

  datatype State = State(busy: seq<bool>, ru: Ru, txOut: seq<Msg>, tx: Option<Msg>, respL1: seq<Msg>, rx: Option<Msg>,
                         rxOut: seq<Msg>)

  datatype Event =
    | Arrive(msg: Msg)
    | Collect
    | Post
    | TakeTx
    | TriggerRx
    | TakeRx
    | Complete

  function Start(depth: nat): State {
    State(seq(depth, i => false), Idle, [], None, [], None, [])
  }

  predicate Enabled(s: State, e: Event) {
    match e
    case Arrive(_) => s.ru.Idle? && |s.busy| > 0
    case Collect => s.ru.Waiting? && s.rxOut != [] && |s.busy| > 0
    case Post => s.ru.Filling?
    case TakeTx => s.tx.None? && s.txOut != []
    case TriggerRx => s.tx.Some?
    case TakeRx => s.rx.None? && s.respL1 != []
    case Complete => s.rx.Some?
  }

  /** `Arrive` is the RU thread reading a slot and testing its buffer, `Collect` one turn of the wait
      loop, `Post` the hand-over to L1 TX; L1 TX triggers L1 RX for every slot, and L1 RX signals the
      completion of uplink and mixed slots only. */
  function Step(s: State, e: Event): State
    requires Enabled(s, e)
  {
    match e
    case Arrive(m) =>
      var i := m.slot % |s.busy|;
      if !m.uplink then s.(ru := Filling(m))
      else if s.busy[i] then s.(ru := Waiting(m.slot))
      else s.(busy := s.busy[i := true], ru := Filling(m))
    case Collect =>
      var want, got := s.ru.slot % |s.busy|, s.rxOut[0].slot % |s.busy|;
      var s1 := s.(rxOut := s.rxOut[1..]);
      if got == want then s1.(busy := s.busy[got := false][want := true], ru := Filling(Msg(s.ru.slot, true)))
      else s1.(busy := s.busy[got := false])
    case Post => s.(txOut := s.txOut + [s.ru.msg], ru := Idle)
    case TakeTx => s.(tx := Some(s.txOut[0]), txOut := s.txOut[1..])
    case TriggerRx => s.(respL1 := s.respL1 + [s.tx.value], tx := None)
    case TakeRx => s.(rx := Some(s.respL1[0]), respL1 := s.respL1[1..])
    case Complete => s.(rx := None, rxOut := if s.rx.value.uplink then s.rxOut + [s.rx.value] else s.rxOut)
  }

  ghost predicate IsRun(ss: seq<State>, es: seq<Event>) {
    && |ss| == |es| + 1
    && forall i :: 0 <= i < |es| ==> Enabled(ss[i], es[i]) && ss[i + 1] == Step(ss[i], es[i])
  }

  // ------------------------------------------------------------------ the pipeline as one queue

  function Held(o: Option<Msg>): seq<Msg> {
    match o case None => [] case Some(m) => [m]
  }

  function Filled(r: Ru): seq<Msg> {
    if r.Filling? then [r.msg] else []
  }

  /** The uplink slots among messages. */
  function Uplinks(ms: seq<Msg>): seq<nat> {
    if ms == [] then [] else Uplinks(ms[..|ms| - 1]) + (if ms[|ms| - 1].uplink then [ms[|ms| - 1].slot] else [])
  }

  /** The slots whose buffers are in use anywhere between the RU thread's hand and its wait loop,
      oldest first. */
  function InUse(s: State): seq<nat> {
    Uplinks(s.rxOut) + Uplinks(Held(s.rx)) + Uplinks(s.respL1) + Uplinks(Held(s.tx)) + Uplinks(s.txOut)
    + Uplinks(Filled(s.ru))
  }

  predicate Distinct(slots: seq<nat>, depth: nat)
    requires depth > 0
  {
    forall a, b :: 0 <= a < b < |slots| ==> slots[a] % depth != slots[b] % depth
  }

  predicate Uses(slots: seq<nat>, depth: nat, i: nat)
    requires depth > 0
  {
    exists a :: 0 <= a < |slots| && slots[a] % depth == i
  }

  /** A busy flag is set exactly while one of the slots has that index. */
  predicate Exact(busy: seq<bool>, slots: seq<nat>) {
    && |busy| > 0
    && Distinct(slots, |busy|)
    && forall i :: 0 <= i < |busy| ==> busy[i] == Uses(slots, |busy|, i)
  }

  predicate Inv(s: State) {
    && Exact(s.busy, InUse(s))
    && (forall k :: 0 <= k < |s.rxOut| ==> s.rxOut[k].uplink)
    && (s.ru.Waiting? ==> s.busy[s.ru.slot % |s.busy|])
  }

  lemma {:induction false} UplinksConcat(a: seq<Msg>, b: seq<Msg>)
    ensures Uplinks(a + b) == Uplinks(a) + Uplinks(b)
  {
    if b == [] {
      assert a + b == a;
    } else {
      assert (a + b)[..|a + b| - 1] == a + b[..|b| - 1];
      UplinksConcat(a, b[..|b| - 1]);
    }
  }

  lemma UplinksOfOne(m: Msg)
    ensures Uplinks([m]) == if m.uplink then [m.slot] else []
  {
  }

  lemma UplinksFirst(ms: seq<Msg>)
    requires ms != []
    ensures Uplinks(ms) == Uplinks([ms[0]]) + Uplinks(ms[1..])
  {
    assert ms == [ms[0]] + ms[1..];
    UplinksConcat([ms[0]], ms[1..]);
  }

  lemma Regroup(a: seq<nat>, u: seq<nat>, v: seq<nat>)
    ensures (a + u) + v == a + (u + v)
  {
  }

  lemma Taken(x: seq<nat>, a: seq<nat>, b: seq<nat>)
    ensures (x + []) + (a + b) == (x + a) + b
  {
  }

  lemma Given(x: seq<nat>, a: seq<nat>, b: seq<nat>)
    ensures (x + a) + b == (x + (a + b)) + []
  {
  }

  /** Hand-overs between threads leave the order of the buffers in use alone. */
  lemma HandOverKeeps(s: State, e: Event)
    requires Enabled(s, e) && (e.Post? || e.TakeTx? || e.TriggerRx? || e.TakeRx?)
    ensures InUse(Step(s, e)) == InUse(s)
  {
    var toRx := Uplinks(s.rxOut) + Uplinks(Held(s.rx));
    match e
    case Post =>
      UplinksConcat(s.txOut, [s.ru.msg]);
      Given(toRx + Uplinks(s.respL1) + Uplinks(Held(s.tx)), Uplinks(s.txOut), Uplinks([s.ru.msg]));
    case TakeTx =>
      UplinksFirst(s.txOut);
      Taken(toRx + Uplinks(s.respL1), Uplinks([s.txOut[0]]), Uplinks(s.txOut[1..]));
    case TriggerRx =>
      UplinksConcat(s.respL1, [s.tx.value]);
      Given(toRx, Uplinks(s.respL1), Uplinks([s.tx.value]));
    case TakeRx =>
      UplinksFirst(s.respL1);
      Taken(Uplinks(s.rxOut), Uplinks([s.respL1[0]]), Uplinks(s.respL1[1..]));
  }

  lemma CompleteKeeps(s: State)
    requires Enabled(s, Complete)
    ensures InUse(Step(s, Complete)) == InUse(s)
  {
    UplinksOfOne(s.rx.value);
    if s.rx.value.uplink {
      UplinksConcat(s.rxOut, [s.rx.value]);
      Given([], Uplinks(s.rxOut), Uplinks([s.rx.value]));
      assert [] + Uplinks(s.rxOut) == Uplinks(s.rxOut);
      assert [] + (Uplinks(s.rxOut) + Uplinks([s.rx.value])) == Uplinks(s.rxOut) + Uplinks([s.rx.value]);
    }
  }

  lemma AddSlot(busy: seq<bool>, slots: seq<nat>, x: nat)
    requires Exact(busy, slots) && !busy[x % |busy|]
    ensures Exact(busy[x % |busy| := true], slots + [x])
  {
    var depth, more := |busy|, slots + [x];
    assert more[|slots|] % depth == x % depth;
    forall i | 0 <= i < depth
      ensures busy[x % depth := true][i] == Uses(more, depth, i)
    {
      if a :| 0 <= a < |slots| && slots[a] % depth == i {
        assert more[a] % depth == i;
      }
    }
    forall a, b | 0 <= a < b < |more|
      ensures more[a] % depth != more[b] % depth
    {
      if b == |slots| {
        assert slots[a] % depth == more[a] % depth;
        assert Uses(slots, depth, more[a] % depth);
      }
    }
  }

  lemma DropSlot(busy: seq<bool>, slots: seq<nat>)
    requires Exact(busy, slots) && slots != []
    ensures Exact(busy[slots[0] % |busy| := false], slots[1..])
  {
  }

  lemma ArriveKeeps(s: State, m: Msg)
    requires Inv(s) && Enabled(s, Arrive(m))
    ensures Inv(Step(s, Arrive(m)))
  {
    UplinksOfOne(m);
    assert InUse(s) + [] == InUse(s);
    var t := Step(s, Arrive(m));
    if t.ru.Filling? {
      Appends(s, m);
      if m.uplink {
        AddSlot(s.busy, InUse(s), m.slot);
      }
    }
  }

  /** Starting to fill a buffer appends its slot. */
  lemma Appends(s: State, m: Msg)
    requires !s.ru.Filling?
    ensures InUse(s.(ru := Filling(m))) == InUse(s) + (if m.uplink then [m.slot] else [])
  {
  }

  /** Collecting a completion removes the oldest slot. */
  lemma Collects(s: State)
    requires s.rxOut != [] && s.rxOut[0].uplink
    ensures InUse(s) != [] && InUse(s)[0] == s.rxOut[0].slot
    ensures InUse(s.(rxOut := s.rxOut[1..])) == InUse(s)[1..]
  {
    UplinksFirst(s.rxOut);
    UplinksOfOne(s.rxOut[0]);
    var a, u := [s.rxOut[0].slot], Uplinks(s.rxOut[1..]);
    var y, resp := Uplinks(Held(s.rx)), Uplinks(s.respL1);
    var z, out, f := Uplinks(Held(s.tx)), Uplinks(s.txOut), Uplinks(Filled(s.ru));
    Regroup(a, u, y);
    Regroup(a, u + y, resp);
    Regroup(a, u + y + resp, z);
    Regroup(a, u + y + resp + z, out);
    Regroup(a, u + y + resp + z + out, f);
  }

  lemma CollectKeeps(s: State)
    requires Inv(s) && Enabled(s, Collect)
    ensures Inv(Step(s, Collect))
  {
    var want, got := s.ru.slot % |s.busy|, s.rxOut[0].slot % |s.busy|;
    Collects(s);
    DropSlot(s.busy, InUse(s));
    var mid := s.(rxOut := s.rxOut[1..], busy := s.busy[got := false]);
    assert InUse(mid) == InUse(s)[1..];
    if got == want {
      Appends(mid, Msg(s.ru.slot, true));
      AddSlot(mid.busy, InUse(mid), s.ru.slot);
    }
  }

  lemma SameBuffers(s: State, t: State)
    requires Inv(s) && InUse(t) == InUse(s) && t.busy == s.busy
    requires forall k :: 0 <= k < |t.rxOut| ==> t.rxOut[k].uplink
    requires t.ru.Waiting? ==> t.ru == s.ru
    ensures Inv(t)
  {
  }

  lemma CompleteKeepsInv(s: State)
    requires Inv(s) && Enabled(s, Complete)
    ensures Inv(Step(s, Complete))
  {
    CompleteKeeps(s);
    SameBuffers(s, Step(s, Complete));
  }

  lemma HandOverKeepsInv(s: State, e: Event)
    requires Inv(s) && Enabled(s, e) && (e.Post? || e.TakeTx? || e.TriggerRx? || e.TakeRx?)
    ensures Inv(Step(s, e))
  {
    HandOverKeeps(s, e);
    SameBuffers(s, Step(s, e));
  }

  lemma StepKeepsInv(s: State, e: Event)
    requires Inv(s) && Enabled(s, e)
    ensures Inv(Step(s, e))
  {
    match e
    case Arrive(m) => ArriveKeeps(s, m);
    case Collect => CollectKeeps(s);
    case Complete => CompleteKeepsInv(s);
    case _ => HandOverKeepsInv(s, e);
  }

  /** In every interleaving of the three threads, for any depth and any order of slots, a busy flag
      is set exactly while one uplink slot with that index is held or queued. */
  lemma {:induction false} BusyFlagsAreExact(depth: nat, ss: seq<State>, es: seq<Event>)
    requires depth > 0 && IsRun(ss, es) && ss[0] == Start(depth)
    ensures forall i :: 0 <= i < |ss| ==> Inv(ss[i])
  {
    if es == [] {
      assert InUse(ss[0]) == [];
    } else {
      var n := |es| - 1;
      BusyFlagsAreExact(depth, ss[..n + 1], es[..n]);
      assert Inv(ss[..n + 1][n]);
      StepKeepsInv(ss[n], es[n]);
      forall i | 0 <= i < |ss|
        ensures Inv(ss[i])
      {
        if i <= n {
          assert ss[i] == ss[..n + 1][i];
        }
      }
    }
  }

  /** The buffer the RU thread fills is never the buffer the L1 RX thread reads. */
  lemma FillingNeverMeetsReading(s: State)
    requires Inv(s) && s.ru.Filling? && s.ru.msg.uplink && s.rx.Some? && s.rx.value.uplink
    ensures s.ru.msg.slot % |s.busy| != s.rx.value.slot % |s.busy|
  {
    UplinksOfOne(s.rx.value);
    UplinksOfOne(s.ru.msg);
    assert InUse(s)[|Uplinks(s.rxOut)|] == s.rx.value.slot;
    assert InUse(s)[|InUse(s)| - 1] == s.ru.msg.slot;
  }

  // ------------------------------------------------------------------ every slot goes through, in order

  /** The slot the RU thread has read and not yet handed over. */
  function InHand(r: Ru): seq<Msg> {
    match r
    case Idle => []
    case Waiting(slot) => [Msg(slot, true)]
    case Filling(m) => [m]
  }

  /** The slots between the radio and the end of L1 RX, downlink ones included, oldest first. */
  function OnTheWay(s: State): seq<Msg> {
    Held(s.rx) + s.respL1 + Held(s.tx) + s.txOut + InHand(s.ru)
  }

  function UplinkOnly(ms: seq<Msg>): seq<Msg> {
    if ms == [] then []
    else UplinkOnly(ms[..|ms| - 1]) + (if ms[|ms| - 1].uplink then [ms[|ms| - 1]] else [])
  }

  /** What the environment sees of a run: the slots read from the radio, the slots L1 RX has finished, and
      the completions the RU thread has collected. */
  datatype Trace = Trace(read: seq<Msg>, finished: seq<Msg>, collected: seq<Msg>)

  function Recorded(t: Trace, s: State, e: Event): Trace
    requires Enabled(s, e)
  {
    match e
    case Arrive(m) => t.(read := t.read + [m])
    case Complete => t.(finished := t.finished + [s.rx.value])
    case Collect => t.(collected := t.collected + [s.rxOut[0]])
    case _ => t
  }

  /** The trace of the first `n` steps. */
  ghost function Record(ss: seq<State>, es: seq<Event>, n: nat): Trace
    requires IsRun(ss, es) && n <= |es|
  {
    if n == 0 then Trace([], [], []) else Recorded(Record(ss, es, n - 1), ss[n - 1], es[n - 1])
  }

  predicate Ordered(t: Trace, s: State) {
    && t.read == t.finished + OnTheWay(s)
    && UplinkOnly(t.finished) == t.collected + s.rxOut
  }

  /** Hand-overs between the threads keep the order. */
  lemma HandOverKeepsOrder(s: State, e: Event)
    requires Enabled(s, e) && (e.Post? || e.TakeTx? || e.TriggerRx? || e.TakeRx?)
    ensures OnTheWay(Step(s, e)) == OnTheWay(s)
  {
    match e
    case TakeTx => assert s.txOut == [s.txOut[0]] + s.txOut[1..];
    case TakeRx => assert s.respL1 == [s.respL1[0]] + s.respL1[1..];
    case _ =>
  }

  lemma ArrivalKeepsOrder(t: Trace, s: State, m: Msg)
    requires Ordered(t, s) && Enabled(s, Arrive(m))
    ensures Ordered(Recorded(t, s, Arrive(m)), Step(s, Arrive(m)))
  {
    assert OnTheWay(Step(s, Arrive(m))) == OnTheWay(s) + [m];
  }

  lemma CompletionKeepsOrder(t: Trace, s: State, e: Event)
    requires Ordered(t, s) && Enabled(s, e) && (e.Collect? || e.Complete?)
    requires e.Collect? ==> s.rxOut[0].uplink
    ensures Ordered(Recorded(t, s, e), Step(s, e))
  {
    var u := Step(s, e);
    if e.Collect? {
      assert s.rxOut == [s.rxOut[0]] + s.rxOut[1..];
      assert InHand(u.ru) == InHand(s.ru);
    } else {
      assert OnTheWay(s) == [s.rx.value] + OnTheWay(u);
      assert (t.finished + [s.rx.value])[..|t.finished|] == t.finished;
    }
  }

  lemma StepKeepsOrder(t: Trace, s: State, e: Event)
    requires Inv(s) && Ordered(t, s) && Enabled(s, e)
    ensures Ordered(Recorded(t, s, e), Step(s, e))
  {
    if e.Collect? || e.Complete? {
      CompletionKeepsOrder(t, s, e);
    } else if e.Arrive? {
      ArrivalKeepsOrder(t, s, e.msg);
    } else {
      HandOverKeepsOrder(s, e);
    }
  }

  /** In every interleaving of the three threads the slots read from the radio, downlink ones included, are
      those L1 RX has finished followed by those on the way, each once and in order; and the completions sent
      are exactly the uplink and mixed slots among the finished ones. */
  lemma {:induction false} EverySlotGoesThrough(depth: nat, ss: seq<State>, es: seq<Event>, n: nat)
    requires depth > 0 && IsRun(ss, es) && ss[0] == Start(depth) && n <= |es|
    ensures Ordered(Record(ss, es, n), ss[n])
  {
    if n > 0 {
      EverySlotGoesThrough(depth, ss, es, n - 1);
      BusyFlagsAreExact(depth, ss, es);
      StepKeepsOrder(Record(ss, es, n - 1), ss[n - 1], es[n - 1]);
    }
  }

  // ------------------------------------------------------------------ the wait ends

  function Below(n: nat): set<nat> {
    if n == 0 then {} else Below(n - 1) + {n - 1}
  }

  lemma {:induction false} BelowIs(n: nat)
    ensures |Below(n)| == n && forall i: nat :: i in Below(n) <==> i < n
  {
    if n > 0 {
      BelowIs(n - 1);
    }
  }

  lemma Pigeonhole(slots: seq<nat>, depth: nat)
    requires depth > 0 && Distinct(slots, depth)
    ensures |slots| <= depth
  {
    BelowIs(depth);
    ResiduesFit(slots, depth, Below(depth));
  }

  lemma {:induction false} ResiduesFit(slots: seq<nat>, depth: nat, free: set<nat>)
    requires depth > 0 && Distinct(slots, depth)
    requires forall a :: 0 <= a < |slots| ==> slots[a] % depth in free
    ensures |slots| <= |free|
  {
    if slots != [] {
      var n := |slots| - 1;
      assert slots[n] % depth in free;
      ResiduesFit(slots[..n], depth, free - {slots[n] % depth});
    }
  }

  /** How many completions a waiting RU thread still has to collect. */
  function Remaining(slots: seq<nat>, depth: nat, i: nat): nat
    requires depth > 0
  {
    if slots == [] || slots[0] % depth == i then 1 else 1 + Remaining(slots[1..], depth, i)
  }

  lemma {:induction false} RemainingBound(slots: seq<nat>, depth: nat, i: nat)
    requires depth > 0 && Uses(slots, depth, i)
    ensures Remaining(slots, depth, i) <= |slots|
  {
    if slots[0] % depth != i {
      var a :| 0 <= a < |slots| && slots[a] % depth == i;
      assert slots[1..][a - 1] % depth == i;
      RemainingBound(slots[1..], depth, i);
    }
  }

  /** A blocked wait needs at most `depth` completions, every collected completion brings it one
      closer, and no other step takes it further away. */
  lemma WaitIsBounded(s: State, e: Event)
    requires Inv(s) && s.ru.Waiting? && Enabled(s, e)
    ensures var i := s.ru.slot % |s.busy|;
            var t := Step(s, e);
            && Remaining(InUse(s), |s.busy|, i) <= |s.busy|
            && (t.ru.Waiting? ==> t.ru == s.ru
                                  && Remaining(InUse(t), |s.busy|, i)
                                     == Remaining(InUse(s), |s.busy|, i) - (if e.Collect? then 1 else 0))
            && (!t.ru.Waiting? ==> e.Collect? && t.ru == Filling(Msg(s.ru.slot, true))
                                   && Remaining(InUse(s), |s.busy|, i) == 1)
  {
    var depth := |s.busy|;
    var i := s.ru.slot % depth;
    RemainingBound(InUse(s), depth, i);
    Pigeonhole(InUse(s), depth);
    match e
    case Collect => Collects(s);
    case Complete => CompleteKeeps(s);
    case TakeTx => HandOverKeeps(s, e);
    case TriggerRx => HandOverKeeps(s, e);
    case TakeRx => HandOverKeeps(s, e);
  }

  /** While the RU thread waits, some thread can always move: the pipeline never deadlocks. */
  lemma WaitingIsNeverStuck(s: State)
    requires Inv(s) && s.ru.Waiting?
    ensures || Enabled(s, Collect) || Enabled(s, Complete)
            || Enabled(s, TakeRx) || Enabled(s, TriggerRx) || Enabled(s, TakeTx)
  {
  }

  function One(o: Option<Msg>): nat {
    if o.Some? then 1 else 0
  }

  /** The steps the slots in the pipeline still have to take, up to their completion being collected. */
  function Work(s: State): nat {
    5 * |s.txOut| + 4 * One(s.tx) + 3 * |s.respL1| + 2 * One(s.rx) + |s.rxOut|
  }

  lemma StepsReduceWork(s: State, e: Event)
    requires s.ru.Waiting? && Enabled(s, e)
    ensures Work(Step(s, e)) < Work(s)
  {
  }

  lemma {:induction false} WaitSpendsWork(ss: seq<State>, es: seq<Event>, n: nat)
    requires IsRun(ss, es) && Inv(ss[0]) && n <= |es|
    requires forall i :: 0 <= i < |es| ==> ss[i].ru.Waiting?
    ensures Inv(ss[n]) && n + Work(ss[n]) <= Work(ss[0])
  {
    if n > 0 {
      WaitSpendsWork(ss, es, n - 1);
      StepKeepsInv(ss[n - 1], es[n - 1]);
      StepsReduceWork(ss[n - 1], es[n - 1]);
    }
  }

  /** The wait ends under every schedule: as long as the RU thread waits, no more steps are possible than the
      pipeline held work for when the wait began, and until it ends some thread can take one. */
  lemma WaitEnds(ss: seq<State>, es: seq<Event>)
    requires IsRun(ss, es) && Inv(ss[0])
    requires forall i :: 0 <= i < |es| ==> ss[i].ru.Waiting?
    ensures |es| <= Work(ss[0])
    ensures ss[|es|].ru.Waiting? ==> |es| < Work(ss[0]) && exists e :: Enabled(ss[|es|], e)
  {
    WaitSpendsWork(ss, es, |es|);
    var s := ss[|es|];
    if s.ru.Waiting? {
      WaitingIsNeverStuck(s);
    }
  }

  // ------------------------------------------------------------------ every slot is finished

  /** Between arrivals some thread can move as long as a slot is on the way, and a new slot can be read as
      soon as the RU thread has handed over the last one. */
  lemma NothingIsStuck(s: State, m: Msg)
    requires Inv(s)
    ensures OnTheWay(s) != [] ==> exists e: Event :: !e.Arrive? && Enabled(s, e)
    ensures InHand(s.ru) == [] <==> Enabled(s, Arrive(m))
  {
    if s.ru.Waiting? {
      WaitingIsNeverStuck(s);
    } else if OnTheWay(s) != [] {
      assert || Enabled(s, Post) || Enabled(s, TakeTx) || Enabled(s, TriggerRx)
             || Enabled(s, TakeRx) || Enabled(s, Complete);
    }
  }

  /** The steps still to take until the radio is read again and the pipeline is empty. */
  function Left(s: State): nat {
    6 * |InHand(s.ru)| + Work(s)
  }

  lemma StepSpends(s: State, e: Event)
    requires Enabled(s, e) && !e.Arrive?
    ensures Left(Step(s, e)) < Left(s)
  {
  }

  lemma {:induction false} StepsSpend(ss: seq<State>, es: seq<Event>, n: nat)
    requires IsRun(ss, es) && Inv(ss[0]) && n <= |es| && forall i :: 0 <= i < |es| ==> !es[i].Arrive?
    ensures Inv(ss[n]) && n + Left(ss[n]) <= Left(ss[0])
  {
    if n > 0 {
      StepsSpend(ss, es, n - 1);
      StepKeepsInv(ss[n - 1], es[n - 1]);
      StepSpends(ss[n - 1], es[n - 1]);
    }
  }

  /** Every slot read is finished, under every schedule: between arrivals only so many steps are possible, and
      when none is, no slot is on the way. */
  lemma EverySlotIsFinished(ss: seq<State>, es: seq<Event>)
    requires IsRun(ss, es) && Inv(ss[0]) && forall i :: 0 <= i < |es| ==> !es[i].Arrive?
    ensures |es| <= Left(ss[0])
    ensures (forall e: Event :: Enabled(ss[|es|], e) ==> e.Arrive?) ==> OnTheWay(ss[|es|]) == []
  {
    StepsSpend(ss, es, |es|);
    NothingIsStuck(ss[|es|], Msg(0, false));
  }
}
