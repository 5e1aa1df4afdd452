/** The RU thread's wait for a free receive buffer, as the loop it is: it works on the array of busy
    flags and is proved to take exactly the RU thread's steps of the receive-slot protocol. */
module ReceiveWait {
  import opened ReceiveSlots

  /** One of the first `n` completions frees flag `i`. */
  predicate Freed(completions: seq<Msg>, n: nat, depth: nat, i: nat)
    requires depth > 0 && n <= |completions|
  {
    exists k :: 0 <= k < n && completions[k].slot % depth == i
  }

  /** The flags after collecting `n` completions. */
  ghost predicate Collected(was: seq<bool>, now: seq<bool>, completions: seq<Msg>, n: nat) {
    && |now| == |was| > 0 && n <= |completions|
    && forall i :: 0 <= i < |was| ==> now[i] == (was[i] && !Freed(completions, n, |was|, i))
  }

  /** States and events of a run in which the RU thread alone moves from `s` to `t`. */
  ghost predicate Leads(s: State, t: State, ss: seq<State>, es: seq<Event>) {
    IsRun(ss, es) && ss[0] == s && ss[|es|] == t
  }

  lemma Extend(s: State, t: State, ss: seq<State>, es: seq<Event>, e: Event)
    requires Leads(s, t, ss, es) && Enabled(t, e)
    ensures Leads(s, Step(t, e), ss + [Step(t, e)], es + [e])
  {
  }

  /** Wait until the buffer of `slot` is free and mark it busy. `s.rxOut` is what the completion queue
      delivers; `ok` is false when it ends first, which stops the thread. Nothing is pulled from the
      queue when the buffer is free at once; otherwise the wait pulls up to the first completion with
      the same index, and every completion pulled on the way frees its own buffer. */
  method WaitFree(busy: array<bool>, slot: nat, completions: seq<Msg>, ghost s: State)
    returns (ok: bool, used: nat, ghost ss: seq<State>, ghost es: seq<Event>, ghost t: State)
    requires busy.Length > 0 && s.busy == busy[..] && s.ru.Idle? && s.rxOut == completions
    modifies busy
    ensures used <= |completions|
    ensures var idx := slot % busy.Length;
            && (forall i :: 0 <= i < busy.Length && i != idx ==>
                  busy[i] == (old(busy[i]) && !Freed(completions, used, busy.Length, i)))
            && busy[idx]
            && (ok <==> !old(busy[idx]) || Freed(completions, used, busy.Length, idx))
            && (!ok ==> used == |completions|)
            && (!old(busy[idx]) ==> used == 0)
            && (used > 0 ==> !Freed(completions, used - 1, busy.Length, idx))
    ensures Leads(s, t, ss, es) && |es| == used + 1
    ensures t.busy == busy[..] && t.rxOut == completions[used..]
    ensures t.ru == if ok then Filling(Msg(slot, true)) else Waiting(slot)
  {
    var idx := slot % busy.Length;
    ok, used := true, 0;
    ss, es, t := [s], [], s;
    Extend(s, t, ss, es, Arrive(Msg(slot, true)));
    t := Step(t, Arrive(Msg(slot, true)));
    ss, es := ss + [t], es + [Arrive(Msg(slot, true))];
    if busy[idx] {
      ok, used, ss, es, t := PullUntil(busy, slot, completions, s, t, ss, es);
    }
    if ok {
      busy[idx] := true;
    }
  }

  /** The loop on the completion queue. */
  method PullUntil(busy: array<bool>, slot: nat, completions: seq<Msg>, ghost s: State, ghost t0: State,
                   ghost ss0: seq<State>, ghost es0: seq<Event>)
    returns (done: bool, used: nat, ghost ss: seq<State>, ghost es: seq<Event>, ghost t: State)
    requires busy.Length > 0 && busy[slot % busy.Length]
    requires Leads(s, t0, ss0, es0) && t0.busy == busy[..] && t0.ru == Waiting(slot) && t0.rxOut == completions
    modifies busy
    ensures used <= |completions| && (!done ==> used == |completions|)
    ensures var idx := slot % busy.Length;
            && Collected(old(busy[..]), busy[..], completions, used)
            && (if done then Done(old(busy[..]), busy[..], completions, used, idx)
                else busy[idx] && !Freed(completions, used, busy.Length, idx))
            && t.busy == if done then busy[..][idx := true] else busy[..]
    ensures Leads(s, t, ss, es) && |es| == |es0| + used && t.rxOut == completions[used..]
    ensures t.ru == if done then Filling(Msg(slot, true)) else Waiting(slot)
  {
    var idx := slot % busy.Length;
    done, used, ss, es, t := false, 0, ss0, es0, t0;
    while !done
      invariant used <= |completions| && |es| == |es0| + used
      invariant Collected(old(busy[..]), busy[..], completions, used)
      invariant !done ==> busy[idx] && !Freed(completions, used, busy.Length, idx) && t.ru == Waiting(slot)
      invariant done ==> Done(old(busy[..]), busy[..], completions, used, idx) && t.ru == Filling(Msg(slot, true))
      invariant Leads(s, t, ss, es) && t.rxOut == completions[used..]
      invariant t.busy == if done then busy[..][idx := true] else busy[..]
      decreases !done, |completions| - used
    {
      if used == |completions| {
        return;
      }
      var got := completions[used].slot % busy.Length;
      Pull(old(busy[..]), busy[..], completions, used, idx);
      Extend(s, t, ss, es, Collect);
      t := Step(t, Collect);
      ss, es := ss + [t], es + [Collect];
      busy[got] := false;
      if got == idx {
        done := true;
      }
      used := used + 1;
    }
  }

  /** The wait has just ended: the last completion pulled, and no earlier one, frees the wanted index. */
  ghost predicate Done(was: seq<bool>, now: seq<bool>, completions: seq<Msg>, used: nat, idx: nat) {
    && 0 < used <= |completions| && idx < |was|
    && Collected(was, now, completions, used)
    && Freed(completions, used, |was|, idx) && !Freed(completions, used - 1, |was|, idx)
  }

  lemma Pull(was: seq<bool>, now: seq<bool>, completions: seq<Msg>, used: nat, idx: nat)
    requires Collected(was, now, completions, used) && used < |completions| && idx < |was|
    requires !Freed(completions, used, |was|, idx)
    ensures var got := completions[used].slot % |was|;
            var next := now[got := false];
            && Collected(was, next, completions, used + 1)
            && (Freed(completions, used + 1, |was|, idx) <==> got == idx)
            && (got == idx ==> Done(was, next, completions, used + 1, idx))
  {
  }
}
