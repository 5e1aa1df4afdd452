/** The one-place hand-off of transmit jobs from the LTE receive thread (`wakeup_tx`) to the L1 transmit
    thread: a mutex, one condition variable shared by both directions, and an instance counter that is
    0 while a job is handed over and -1 otherwise. Every lock, test, field write and signal is a step
    of its own. */
module TxHandoff {
  import opened Helpers

  datatype Job = Job(subframeRx: nat, frameRx: nat, subframeTx: nat, frameTx: nat, timestampTx: nat)

  datatype Owner = Nobody | ByProducer | ByConsumer

  /** Where the calling thread stands. */
  datatype Producer =
    | Idle
    | Wants(job: Job)              // before the mutex, at first or after being woken
    | Holds(job: Job)              // owns the mutex, about to test the counter
    | Sleeps(job: Job)             // on the condition variable
    | Writes(job: Job, done: nat)  // counter taken, `done` of the five fields written

  /** Where the transmit thread stands. */
  datatype Consumer =
    | Waking                 // before the mutex of the wait
    | Testing                // owns it, about to test the counter
    | Sleeping               // on the condition variable
    | Running(seen: seq<Job>) // processing without the mutex; `seen` is what its reads returned
    | Finishing(seen: seq<Job>) // before the mutex
    | Releasing              // owns it, about to free the place

  datatype State = State(
    owner: Owner,
    count: int,
    params: Job,
    producer: Producer,
    consumer: Consumer,
    calls: seq<Job>,
    processed: seq<Job>)

  datatype Event =
    | Call(job: Job)
    | Lock
    | Test
    | Write
    | Signal(wakeProducer: bool, wakeConsumer: bool)
    | ConsumerLock
    | ConsumerTest
    | Read
    | Finish
    | ConsumerRelock
    | Release(wakeProducer: bool, wakeConsumer: bool)
    | Spurious(producerWakes: bool)

  const FIELDS := 5

  /** A signal wakes sleepers only, and at least one if there is any. */
  predicate Wakeable(s: State, p: bool, c: bool) {
    && (p ==> s.producer.Sleeps?)
    && (c ==> s.consumer.Sleeping?)
    && (s.producer.Sleeps? || s.consumer.Sleeping? ==> p || c)
  }

  predicate Enabled(s: State, e: Event) {
    match e
    case Call(_) => s.producer.Idle?
    case Lock => s.producer.Wants? && s.owner.Nobody?
    case Test => s.producer.Holds?
    case Write => s.producer.Writes? && s.producer.done < FIELDS
    case Signal(p, c) => s.producer.Writes? && s.producer.done == FIELDS && Wakeable(s, p, c)
    case ConsumerLock => s.consumer.Waking? && s.owner.Nobody?
    case ConsumerTest => s.consumer.Testing?
    case Read => s.consumer.Running?
    case Finish => s.consumer.Running?
    case ConsumerRelock => s.consumer.Finishing? && s.owner.Nobody?
    case Release(p, c) => s.consumer.Releasing? && Wakeable(s, p, c)
    case Spurious(p) => if p then s.producer.Sleeps? else s.consumer.Sleeping?
  }

  /** Write the next field of the parameter block. */
  function Put(params: Job, job: Job, field: nat): Job {
    match field
    case 0 => params.(subframeRx := job.subframeRx)
    case 1 => params.(frameRx := job.frameRx)
    case 2 => params.(subframeTx := job.subframeTx)
    case 3 => params.(frameTx := job.frameTx)
    case _ => params.(timestampTx := job.timestampTx)
  }

  function Wake(s: State, p: bool, c: bool): State
    requires Wakeable(s, p, c)
  {
    s.(producer := if p then Wants(s.producer.job) else s.producer,
       consumer := if c then Waking else s.consumer)
  }

  /** `uplink` holds the subframes without transmission. */
  function Step(s: State, e: Event, uplink: set<nat>): State
    requires Enabled(s, e)
  {
    match e
    case Call(job) =>
      s.(calls := s.calls + [job], producer := if job.subframeTx in uplink then Idle else Wants(job))
    case Lock => s.(owner := ByProducer, producer := Holds(s.producer.job))
    case Test =>
      if s.count == 0 then s.(owner := Nobody, producer := Sleeps(s.producer.job))
      else s.(count := 0, producer := Writes(s.producer.job, 0))
    case Write =>
      s.(params := Put(s.params, s.producer.job, s.producer.done),
         producer := Writes(s.producer.job, s.producer.done + 1))
    case Signal(p, c) => Wake(s, p, c).(owner := Nobody, producer := Idle)
    case ConsumerLock => s.(owner := ByConsumer, consumer := Testing)
    case ConsumerTest => s.(owner := Nobody, consumer := if s.count < 0 then Sleeping else Running([]))
    case Read => s.(consumer := Running(s.consumer.seen + [s.params]))
    case Finish => s.(consumer := Finishing(s.consumer.seen))
    case ConsumerRelock => s.(owner := ByConsumer, consumer := Releasing)
    case Release(p, c) =>
      Wake(s, p, c).(owner := Nobody, count := -1, consumer := Waking, processed := s.processed + [s.params])
    case Spurious(p) => if p then s.(producer := Wants(s.producer.job)) else s.(consumer := Waking)
  }

  predicate Initial(s: State) {
    && s.owner.Nobody? && s.count == -1
    && s.producer.Idle? && s.consumer.Waking?
    && s.calls == [] && s.processed == []
  }

  predicate IsRun(ss: seq<State>, es: seq<Event>, uplink: set<nat>) {
    && |ss| == |es| + 1
    && forall n :: 0 <= n < |es| ==> Enabled(ss[n], es[n]) && ss[n + 1] == Step(ss[n], es[n], uplink)
  }

  /** The calls that carry a transmission, in order. */
  function Downlink(calls: seq<Job>, uplink: set<nat>): seq<Job> {
    if calls == [] then []
    else
      var last := calls[|calls| - 1];
      Downlink(calls[..|calls| - 1], uplink) + if last.subframeTx in uplink then [] else [last]
  }

  /** The job of the call in progress, and the job handed over. */
  function Pending(s: State): seq<Job> {
    if s.producer.Idle? then [] else [s.producer.job]
  }

  function Held(s: State): seq<Job> {
    if s.count == 0 && !s.producer.Writes? then [s.params] else []
  }

  /** The first `n` fields of the block are those of the job. */
  predicate Agree(params: Job, job: Job, n: nat) {
    && (n > 0 ==> params.subframeRx == job.subframeRx)
    && (n > 1 ==> params.frameRx == job.frameRx)
    && (n > 2 ==> params.subframeTx == job.subframeTx)
    && (n > 3 ==> params.frameTx == job.frameTx)
    && (n > 4 ==> params.timestampTx == job.timestampTx)
  }

  predicate Exclusive(s: State) {
    && (s.owner.ByProducer? <==> s.producer.Holds? || s.producer.Writes?)
    && (s.owner.ByConsumer? <==> s.consumer.Testing? || s.consumer.Releasing?)
  }

  predicate Busy(c: Consumer) {
    c.Running? || c.Finishing? || c.Releasing?
  }

  predicate Reads(c: Consumer, params: Job) {
    c.Running? || c.Finishing? ==> forall i :: 0 <= i < |c.seen| ==> c.seen[i] == params
  }

  predicate Counted(s: State) {
    && (s.count == 0 || s.count == -1)
    && (s.producer.Sleeps? ==> s.count == 0)
    && (s.producer.Writes? ==> s.count == 0 && !Busy(s.consumer)
                               && s.producer.done <= FIELDS && Agree(s.params, s.producer.job, s.producer.done))
    && (s.consumer.Sleeping? ==> s.count == -1 || s.producer.Writes?)
    && (Busy(s.consumer) ==> s.count == 0)
    && Reads(s.consumer, s.params)
  }

  predicate Ordered(s: State, uplink: set<nat>) {
    Downlink(s.calls, uplink) == s.processed + Held(s) + Pending(s)
  }

  predicate Inv(s: State, uplink: set<nat>) {
    Exclusive(s) && Counted(s) && Ordered(s, uplink)
  }

  lemma StepKeepsCounts(s: State, e: Event, uplink: set<nat>)
    requires Exclusive(s) && Counted(s) && Enabled(s, e)
    ensures Exclusive(Step(s, e, uplink)) && Counted(Step(s, e, uplink))
  {
  }

  lemma StepKeepsOrder(s: State, e: Event, uplink: set<nat>)
    requires Inv(s, uplink) && Enabled(s, e)
    ensures Ordered(Step(s, e, uplink), uplink)
  {
  }

  /** In every interleaving the processed jobs are the downlink calls in order, less the one handed
      over and the one being called; every read of a running job returned that job's parameters; and
      the two threads never both sleep. */
  lemma {:induction false} EveryRunIsOrdered(ss: seq<State>, es: seq<Event>, uplink: set<nat>, n: nat)
    requires IsRun(ss, es, uplink) && Initial(ss[0]) && n <= |es|
    ensures Inv(ss[n], uplink)
    ensures !(ss[n].producer.Sleeps? && ss[n].consumer.Sleeping?)
  {
    if n > 0 {
      EveryRunIsOrdered(ss, es, uplink, n - 1);
      StepKeepsCounts(ss[n - 1], es[n - 1], uplink);
      StepKeepsOrder(ss[n - 1], es[n - 1], uplink);
    }
  }

  /** A read of the transmit thread returns the job handed over, and that is the job it counts as processed. */
  lemma ReadsTheHeldJob(s: State, uplink: set<nat>, p: bool, c: bool)
    requires Inv(s, uplink)
    ensures Enabled(s, Read) ==> Step(s, Read, uplink).consumer == Running(s.consumer.seen + Held(s))
    ensures Enabled(s, Release(p, c)) ==> Step(s, Release(p, c), uplink).processed == s.processed + Held(s)
  {
  }

  // ------------------------------------------------------------------ no lost wake-up

  /** The steps that move a hand-over on: not a new call, a read or a spurious wake-up. */
  predicate Moves(e: Event) {
    !e.Call? && !e.Read? && !e.Spurious?
  }

  function ProducerWork(p: Producer): nat {
    match p
    case Idle => 0
    case Writes(_, n) => if n <= FIELDS then 1 + FIELDS - n else 0
    case Sleeps(_) => 16
    case Holds(_) => 17
    case Wants(_) => 18
  }

  function ConsumerWork(c: Consumer, count: int): nat {
    match c
    case Sleeping => if count == 0 then 10 else 0
    case Waking => if count == 0 then 9 else 2
    case Testing => if count == 0 then 8 else 1
    case Running(_) => 7
    case Finishing(_) => 6
    case Releasing => 5
  }

  /** An upper bound on the steps until both threads are at rest. */
  function Work(s: State): nat {
    ProducerWork(s.producer) + ConsumerWork(s.consumer, s.count)
  }

  lemma MovesReduceWork(s: State, e: Event, uplink: set<nat>)
    requires Exclusive(s) && Counted(s) && Enabled(s, e) && Moves(e)
    ensures Work(Step(s, e, uplink)) < Work(s)
  {
  }

  lemma {:induction false} WorkShrinks(ss: seq<State>, es: seq<Event>, uplink: set<nat>, n: nat)
    requires IsRun(ss, es, uplink) && Inv(ss[0], uplink) && n <= |es|
    requires forall i :: 0 <= i < |es| ==> Moves(es[i])
    ensures Inv(ss[n], uplink) && n + Work(ss[n]) <= Work(ss[0])
  {
    if n > 0 {
      WorkShrinks(ss, es, uplink, n - 1);
      MovesReduceWork(ss[n - 1], es[n - 1], uplink);
      StepKeepsCounts(ss[n - 1], es[n - 1], uplink);
      StepKeepsOrder(ss[n - 1], es[n - 1], uplink);
    }
  }

  /** Without new calls and without relying on a spurious wake-up, at most 27 steps empty the place; and
      as long as a call has not been processed, some thread can take such a step. */
  lemma HandOverCompletes(ss: seq<State>, es: seq<Event>, uplink: set<nat>)
    requires IsRun(ss, es, uplink) && Inv(ss[0], uplink)
    requires forall i :: 0 <= i < |es| ==> Moves(es[i])
    ensures |es| <= 27
    ensures (exists e :: Moves(e) && Enabled(ss[|es|], e)) || ss[|es|].processed == Downlink(ss[|es|].calls, uplink)
  {
    WorkShrinks(ss, es, uplink, |es|);
    SomeoneMoves(ss[|es|], uplink);
  }

  lemma SomeoneMoves(s: State, uplink: set<nat>)
    requires Inv(s, uplink)
    ensures (exists e :: Moves(e) && Enabled(s, e)) || s.processed == Downlink(s.calls, uplink)
  {
    var e := NextMove(s);
    if e.Some? {
      assert Moves(e.value) && Enabled(s, e.value);
    } else {
      assert s.processed + [] + [] == s.processed;
    }
  }

  /** Some step that a thread can take, unless both are at rest. */
  function NextMove(s: State): (r: Option<Event>)
    requires Exclusive(s) && Counted(s)
    ensures r.Some? ==> Moves(r.value) && Enabled(s, r.value)
    ensures r.None? ==> s.producer.Idle? && s.consumer.Sleeping? && s.count == -1
  {
    match s.producer
    case Holds(_) => Some(Test)
    case Writes(_, n) => Some(if n < FIELDS then Write else Signal(false, s.consumer.Sleeping?))
    case _ =>
      match s.consumer
      case Waking => Some(ConsumerLock)
      case Testing => Some(ConsumerTest)
      case Running(_) => Some(Finish)
      case Finishing(_) => Some(ConsumerRelock)
      case Releasing => Some(Release(s.producer.Sleeps?, false))
      case Sleeping => if s.producer.Wants? then Some(Lock) else None
  }
}
