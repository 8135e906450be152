/** The server's threads around its job queue: client threads that each bring one
    job, the single worker, and the main thread that accepts and shuts down. Every
    section under a mutex is one step; waiting on a condition and being woken,
    also spuriously, are steps of their own. */
module JobServer {
  /** A client thread. `Holding` to `Checking` it owns its job's mutex; in `Sleeping`
      and `Woken` it does not. */
  datatype Client = Starting | Holding | Checking | Sleeping | Woken | Finishing

  datatype Worker = Looking | Asleep | Running(job: nat) | Signalling(job: nat) | Exited

  datatype Main = Accepting | Spawning | Joining | Counting | CountAsleep | Closed

  // `next` numbers the clients; `accepted`, `run` and `done` are the histories of
  // the jobs taken by `enqueue`, dequeued by the worker, and marked done.
  datatype State = State(
    clients: map<nat, Client>, count: nat, next: nat,
    queue: seq<nat>, stopping: bool, worker: Worker, main: Main,
    accepted: seq<nat>, run: seq<nat>, done: set<nat>)

  datatype Step =
    | Accept                   // main: a connection, counted
    | Spawn                    // main: its client thread starts
    | SpawnFails               // main: its client thread could not be started
    | Skip(c: nat)             // client: answered without a job
    | Lock(c: nat)             // client: own job's mutex locked before enqueue
    | Enqueue(c: nat)          // client: enqueue
    | Check(c: nat)            // client: done, or wait
    | Relock(c: nat)           // client: back from the wait, mutex held again
    | ClientSpurious(c: nat)   // client: woken without a signal
    | Leave(c: nat)            // client: client_done
    | Take                     // worker: dequeue a job, wait, or exit
    | WorkerSpurious           // worker: woken without a signal
    | Generate                 // worker: the job has been run
    | Signal                   // worker: mark the job done
    | Stop                     // main: shutdown requested
    | Join                     // main: the worker has exited
    | Count                    // main: closed, or wait for clients
    | CountSpurious            // main: woken without a signal

  const Init := State(map[], 0, 0, [], false, Looking, Accepting, [], [], {})

  ghost predicate Enabled(s: State, t: Step) {
    match t
    case Accept => s.main == Accepting
    case Spawn => s.main == Spawning
    case SpawnFails => s.main == Spawning
    case Skip(c) => c in s.clients && s.clients[c] == Starting
    case Lock(c) => c in s.clients && s.clients[c] == Starting
    case Enqueue(c) => c in s.clients && s.clients[c] == Holding
    case Check(c) => c in s.clients && s.clients[c] == Checking
    case Relock(c) => c in s.clients && s.clients[c] == Woken
    case ClientSpurious(c) => c in s.clients && s.clients[c] == Sleeping
    case Leave(c) => c in s.clients && s.clients[c] == Finishing
    case Take => s.worker == Looking
    case WorkerSpurious => s.worker == Asleep
    case Generate => s.worker.Running?
    case Signal => s.worker.Signalling? && Unlocked(s, s.worker.job)
    case Stop => s.main == Accepting
    case Join => s.main == Joining && s.worker == Exited
    case Count => s.main == Counting
    case CountSpurious => s.main == CountAsleep
  }

  /** The mutex of a client's job is free. */
  ghost predicate Unlocked(s: State, c: nat) {
    c in s.clients ==> s.clients[c] != Holding && s.clients[c] != Checking
  }

  function With(s: State, c: nat, p: Client): State {
    s.(clients := s.clients[c := p])
  }

  /** The broadcast and the signal wake whoever sleeps on that condition. */
  function WakeWorker(s: State): State {
    if s.worker == Asleep then s.(worker := Looking) else s
  }

  function WakeMain(s: State): State {
    if s.main == CountAsleep then s.(main := Counting) else s
  }

  function WakeClient(s: State, c: nat): State {
    if c in s.clients && s.clients[c] == Sleeping then With(s, c, Woken) else s
  }

  ghost function Next(s: State, t: Step): State
    requires Enabled(s, t)
  {
    match t
    case Accept => s.(count := s.count + 1, main := Spawning)
    case Spawn => s.(clients := s.clients[s.next := Starting], next := s.next + 1, main := Accepting)
    case SpawnFails => s.(count := if s.count > 0 then s.count - 1 else 0, main := Accepting)
    case Skip(c) => With(s, c, Finishing)
    case Lock(c) => With(s, c, Holding)
    case Enqueue(c) =>
      if s.stopping then With(s, c, Finishing)
      else WakeWorker(With(s, c, Checking).(queue := s.queue + [c], accepted := s.accepted + [c]))
    case Check(c) => With(s, c, if c in s.done then Finishing else Sleeping)
    case Relock(c) => With(s, c, Checking)
    case ClientSpurious(c) => With(s, c, Woken)
    case Leave(c) => WakeMain(s.(clients := s.clients - {c}, count := if s.count > 0 then s.count - 1 else 0))
    case Take =>
      if s.queue == [] then s.(worker := if s.stopping then Exited else Asleep)
      else s.(queue := s.queue[1..], worker := Running(s.queue[0]), run := s.run + [s.queue[0]])
    case WorkerSpurious => s.(worker := Looking)
    case Generate => s.(worker := Signalling(s.worker.job))
    case Signal => WakeClient(s.(done := s.done + {s.worker.job}, worker := Looking), s.worker.job)
    case Stop => WakeWorker(s.(stopping := true, main := Joining))
    case Join => s.(main := Counting)
    case Count => s.(main := if s.count > 0 then CountAsleep else Closed)
    case CountSpurious => s.(main := Counting)
  }

  /** A job's client is still there, past `enqueue`. */
  ghost predicate Waits(s: State, c: nat) {
    c in s.clients && (s.clients[c] == Checking || s.clients[c] == Sleeping || s.clients[c] == Woken)
  }

  function Current(w: Worker): seq<nat> {
    if w.Running? || w.Signalling? then [w.job] else []
  }

  ghost predicate Distinct(l: seq<nat>) {
    forall i, j :: 0 <= i < j < |l| ==> l[i] != l[j]
  }

  /** `count` is the number of live clients, and one more between counting a
      connection and starting its thread. */
  ghost predicate CountInv(s: State) {
    && s.count == |s.clients| + (if s.main == Spawning then 1 else 0)
    && (forall c :: c in s.clients ==> c < s.next)
    && (forall c :: c in s.accepted ==> c < s.next)
  }

  /** Every accepted job was run or is queued, in the order of acceptance; the
      worker's job is the last one run, and all before it are done. */
  ghost predicate QueueInv(s: State) {
    && s.accepted == s.run + s.queue
    && Distinct(s.accepted)
    && (s.worker.Running? || s.worker.Signalling? ==> s.run != [] && s.run[|s.run| - 1] == s.worker.job)
    && (forall c :: c in s.done <==> c in s.run && c !in Current(s.worker))
  }

  /** A job not yet done has a client that waits for it; who waits has brought a
      job, and who has not called `enqueue` has not. */
  ghost predicate WaitInv(s: State) {
    && (forall c :: c in s.accepted && c !in s.done ==> Waits(s, c))
    && (forall c :: Waits(s, c) ==> c in s.accepted)
    && (forall c :: c in s.clients && (s.clients[c] == Starting || s.clients[c] == Holding) ==> c !in s.accepted)
  }

  /** Nobody sleeps through what they wait for. */
  ghost predicate SleepInv(s: State) {
    && (s.worker == Asleep ==> s.queue == [] && !s.stopping)
    && (forall c :: c in s.clients && s.clients[c] == Sleeping ==> c !in s.done)
    && (s.main == CountAsleep ==> s.count > 0)
  }

  ghost predicate StopInv(s: State) {
    && (s.stopping <==> s.main != Accepting && s.main != Spawning)
    && (s.worker == Exited ==> s.stopping && s.queue == [])
    && (s.main == Counting || s.main == CountAsleep || s.main == Closed ==> s.worker == Exited)
    && (s.main == Closed ==> s.count == 0)
  }

  ghost predicate Inv(s: State) {
    CountInv(s) && QueueInv(s) && WaitInv(s) && SleepInv(s) && StopInv(s)
  }

  lemma QueueStep(s: State, t: Step)
    requires Inv(s) && Enabled(s, t)
    ensures QueueInv(Next(s, t))
  {
    hide CountInv, SleepInv, StopInv;
    var s' := Next(s, t);
    match t {
      case Take => TakeQueue(s);
      case Enqueue(c) => EnqueueQueue(s, c);
      case Signal => SignalQueue(s);
      case _ => SameQueue(s, s');
    }
  }

  lemma SameQueue(s: State, s': State)
    requires QueueInv(s)
    requires s'.accepted == s.accepted && s'.run == s.run && s'.queue == s.queue && s'.done == s.done
    requires Current(s'.worker) == Current(s.worker)
    ensures QueueInv(s')
  {
    assert Current(s.worker) != [] ==> Current(s.worker)[0] == s.worker.job;
    assert Current(s'.worker) != [] ==> Current(s'.worker)[0] == s'.worker.job;
  }

  lemma EnqueueQueue(s: State, c: nat)
    requires QueueInv(s) && WaitInv(s) && Enabled(s, Enqueue(c))
    ensures QueueInv(Next(s, Enqueue(c)))
  {
    var s' := Next(s, Enqueue(c));
    if !s.stopping {
      assert c !in s.accepted;
      assert s'.accepted == s.run + s'.queue;
      assert Current(s'.worker) == Current(s.worker);
    }
  }

  lemma SignalQueue(s: State)
    requires QueueInv(s) && Enabled(s, Signal)
    ensures QueueInv(Next(s, Signal))
  {
    var s' := Next(s, Signal);
    assert Current(s.worker) == [s.worker.job] && Current(s'.worker) == [];
    assert s.run[|s.run| - 1] == s.worker.job;
  }

  lemma TakeQueue(s: State)
    requires QueueInv(s) && s.worker == Looking
    ensures QueueInv(Next(s, Take))
  {
    if s.queue == [] { return; }
    var s', j := Next(s, Take), s.queue[0];
    assert s.accepted == s'.run + s'.queue;
    assert forall i :: 0 <= i < |s.run| ==> s.run[i] == s.accepted[i];
    assert s.accepted[|s.run|] == j;
    assert j !in s.run;
    assert forall c :: c in s'.run <==> c in s.run || c == j;
  }

  ghost predicate WaitAt(s: State, c: nat) {
    && (c in s.accepted && c !in s.done ==> Waits(s, c))
    && (Waits(s, c) ==> c in s.accepted)
    && (c in s.clients && (s.clients[c] == Starting || s.clients[c] == Holding) ==> c !in s.accepted)
  }

  lemma WaitAtStep(s: State, t: Step, c: nat)
    requires WaitAt(s, c) && (c in s.accepted ==> c < s.next) && Enabled(s, t)
    ensures WaitAt(Next(s, t), c)
  {
  }

  lemma WaitStep(s: State, t: Step)
    requires Inv(s) && Enabled(s, t)
    ensures WaitInv(Next(s, t))
  {
    hide Next, Enabled;
    var s' := Next(s, t);
    forall c | c in s'.accepted && c !in s'.done ensures Waits(s', c) { WaitAtStep(s, t, c); }
    forall c | Waits(s', c) ensures c in s'.accepted { WaitAtStep(s, t, c); }
    forall c | c in s'.clients && (s'.clients[c] == Starting || s'.clients[c] == Holding) ensures c !in s'.accepted {
      WaitAtStep(s, t, c);
    }
  }

  /** Which clients are left after a step. */
  function ClientsAfter(s: State, t: Step): set<nat> {
    if t == Spawn then s.clients.Keys + {s.next}
    else if t.Leave? then s.clients.Keys - {t.c}
    else s.clients.Keys
  }

  lemma KeysStep(s: State, t: Step)
    requires Enabled(s, t)
    ensures Next(s, t).clients.Keys == ClientsAfter(s, t)
  {
  }

  lemma NumbersStep(s: State, t: Step)
    requires Enabled(s, t)
    ensures var s' := Next(s, t);
            && s'.next == s.next + (if t == Spawn then 1 else 0)
            && (forall c :: c in s'.accepted ==> c in s.accepted || c in s.clients)
            && s'.count == (if t == Accept then s.count + 1
                            else if (t == SpawnFails || t.Leave?) && s.count > 0 then s.count - 1 else s.count)
            && (s'.main == Spawning <==> t == Accept || (s.main == Spawning && t != Spawn && t != SpawnFails))
  {
  }

  lemma CountStep(s: State, t: Step)
    requires CountInv(s) && Enabled(s, t)
    ensures CountInv(Next(s, t))
  {
    hide Next;
    KeysStep(s, t);
    NumbersStep(s, t);
    var s' := Next(s, t);
    assert |s'.clients| == |s'.clients.Keys| && |s.clients| == |s.clients.Keys|;
    assert forall c :: c in s'.clients ==> c in ClientsAfter(s, t);
  }

  lemma SleepStep(s: State, t: Step)
    requires Inv(s) && Enabled(s, t)
    ensures SleepInv(Next(s, t))
  {
    hide CountInv, QueueInv, WaitInv;
    SleepFacts(s);
  }

  lemma SleepFacts(s: State)
    requires Inv(s)
    ensures forall c :: c in s.clients && s.clients[c] == Sleeping ==> c !in s.done
    ensures s.main == CountAsleep ==> s.count > 0
  {
  }

  lemma StopStep(s: State, t: Step)
    requires Inv(s) && Enabled(s, t)
    ensures StopInv(Next(s, t))
  {
  }

  lemma InvStep(s: State, t: Step)
    requires Inv(s) && Enabled(s, t)
    ensures Inv(Next(s, t))
  {
    hide Next, Enabled, CountInv, QueueInv, WaitInv, SleepInv, StopInv;
    CountStep(s, t);
    QueueStep(s, t);
    WaitStep(s, t);
    SleepStep(s, t);
    StopStep(s, t);
  }

  /** `states` are what the steps lead through. */
  ghost predicate Path(states: seq<State>, steps: seq<Step>) {
    && |states| == |steps| + 1
    && forall i :: 0 <= i < |steps| ==> Enabled(states[i], steps[i]) && states[i + 1] == Next(states[i], steps[i])
  }

  ghost predicate Run(states: seq<State>, steps: seq<Step>) {
    Path(states, steps) && states[0] == Init
  }

  lemma {:induction false} PathInv(states: seq<State>, steps: seq<Step>, i: nat)
    requires Path(states, steps) && Inv(states[0]) && i <= |steps|
    ensures Inv(states[i])
  {
    if i > 0 {
      PathInv(states, steps, i - 1);
      InvStep(states[i - 1], steps[i - 1]);
    }
  }

  lemma InitInv()
    ensures Inv(Init)
  {
  }

  /** In every run the worker takes the accepted jobs once each and in order, one
      at a time, and has run every one of them when it exits. */
  lemma FifoOnce(states: seq<State>, steps: seq<Step>, i: nat)
    requires Run(states, steps) && i <= |steps|
    ensures states[i].run <= states[i].accepted && Distinct(states[i].accepted)
    ensures forall k :: 0 <= k < |states[i].run| - 1 ==> states[i].run[k] in states[i].done
    ensures states[i].worker == Exited ==>
      states[i].run == states[i].accepted && forall c :: c in states[i].accepted <==> c in states[i].done
  {
    InitInv();
    PathInv(states, steps, i);
    var s := states[i];
    forall k | 0 <= k < |s.run| - 1
      ensures s.run[k] in s.done
    {
      assert s.run[k] == s.accepted[k] && s.run[|s.run| - 1] == s.accepted[|s.run| - 1];
    }
  }

  /** A client whose accepted job is not done has not left, and the server closes
      only when every client has left and every accepted job is done. */
  lemma ClientsServed(states: seq<State>, steps: seq<Step>, i: nat, c: nat)
    requires Run(states, steps) && i <= |steps|
    ensures c in states[i].accepted && c !in states[i].done ==> Waits(states[i], c)
    ensures states[i].main == Closed ==>
      states[i].clients == map[] && states[i].queue == [] && (c in states[i].accepted ==> c in states[i].done)
  {
    InitInv();
    PathInv(states, steps, i);
  }

  lemma StopStays(s: State, t: Step)
    requires Inv(s) && Enabled(s, t) && s.stopping
    ensures Next(s, t).stopping && Next(s, t).accepted == s.accepted && Next(s, t).next == s.next
  {
  }

  /** No job is accepted and no client started once shutdown has begun. */
  lemma {:induction false} NoneAfterStop(states: seq<State>, steps: seq<Step>, i: nat, j: nat)
    requires Run(states, steps) && i <= j <= |steps| && states[i].stopping
    ensures states[j].stopping && states[j].accepted == states[i].accepted && states[j].next == states[i].next
  {
    hide Next, Enabled, Inv;
    if i < j {
      NoneAfterStop(states, steps, i, j - 1);
      InitInv();
      PathInv(states, steps, j - 1);
      StopStays(states[j - 1], steps[j - 1]);
    }
  }

  predicate Spurious(t: Step) {
    t.ClientSpurious? || t.CountSpurious? || t.WorkerSpurious?
  }

  /** The next step of a server that shuts down, without any spurious wake-up. */
  lemma NotStuck(s: State) returns (t: Step)
    requires Inv(s) && s.stopping && s.main != Closed
    ensures Enabled(s, t) && !Spurious(t)
  {
    match s.worker {
      case Looking => t := Take;
      case Running(_) => t := Generate;
      case Signalling(j) =>
        assert j in s.accepted && j !in s.done;
        t := if s.clients[j] == Checking then Check(j) else Signal;
      case Exited =>
        if s.main == Joining {
          t := Join;
        } else if s.main == Counting {
          t := Count;
        } else {
          assert s.clients != map[];
          var c :| c in s.clients;
          match s.clients[c] {
            case Starting => t := Lock(c);
            case Holding => t := Enqueue(c);
            case Checking => t := Check(c);
            case Woken => t := Relock(c);
            case Finishing => t := Leave(c);
          }
        }
    }
  }

  /** While some accepted job is not done, the worker or that job's own client can
      move, whether or not the server is stopping. */
  lemma JobMoves(s: State, c: nat) returns (t: Step)
    requires Inv(s) && c in s.accepted && c !in s.done
    ensures Enabled(s, t) && (t == Take || t == Generate || t == Signal || t.Check?)
  {
    match s.worker {
      case Looking => t := Take;
      case Running(_) => t := Generate;
      case Signalling(j) =>
        assert j in s.accepted && j !in s.done;
        t := if s.clients[j] == Checking then Check(j) else Signal;
    }
  }

  function Weight(p: Client): nat {
    match p
    case Starting => 7
    case Holding => 6
    case Checking => 5
    case Woken => 6
    case Sleeping => 4
    case Finishing => 2
  }

  function Weights(m: map<nat, Client>, n: nat): nat {
    if n == 0 then 0 else Weights(m, n - 1) + if n - 1 in m then Weight(m[n - 1]) else 0
  }

  lemma {:induction false} WeightsWith(m: map<nat, Client>, n: nat, c: nat, p: Client)
    requires c in m
    ensures Weights(m[c := p], n) == Weights(m, n) + if c < n then Weight(p) - Weight(m[c]) else 0
  {
    if n > 0 { WeightsWith(m, n - 1, c, p); }
  }

  lemma {:induction false} WeightsWithout(m: map<nat, Client>, n: nat, c: nat)
    requires c in m
    ensures Weights(m - {c}, n) == Weights(m, n) - if c < n then Weight(m[c]) else 0
  {
    if n > 0 { WeightsWithout(m, n - 1, c); }
  }

  /** What is left to do in a server that shuts down. */
  function Work(s: State): nat {
    Weights(s.clients, s.next) + 5 * |s.queue|
    + (match s.worker
       case Looking => 1
       case Asleep => 0
       case Running(_) => 5
       case Signalling(_) => 4
       case Exited => 0)
    + (match s.main
       case Joining => 4
       case Counting => 3
       case CountAsleep => 2
       case _ => 0)
  }

  lemma ShutdownFacts(s: State)
    requires Inv(s) && s.stopping
    ensures forall c :: c in s.clients ==> c < s.next
    ensures s.worker != Asleep && s.main != Accepting && s.main != Spawning
    ensures s.worker.Signalling? ==> s.worker.job in s.clients
  {
    if s.worker.Signalling? { assert s.worker.job in s.accepted && s.worker.job !in s.done; }
  }

  lemma WorkFalls(s: State, t: Step)
    requires Inv(s) && Enabled(s, t) && s.stopping
    ensures if Spurious(t) then Work(Next(s, t)) <= Work(s) + 2 else Work(Next(s, t)) < Work(s)
  {
    hide Weights, CountInv, QueueInv, WaitInv, SleepInv, StopInv;
    ShutdownFacts(s);
    match t {
      case Skip(c) => WeightsWith(s.clients, s.next, c, Finishing);
      case Lock(c) => WeightsWith(s.clients, s.next, c, Holding);
      case Enqueue(c) => WeightsWith(s.clients, s.next, c, Finishing);
      case Check(c) => WeightsWith(s.clients, s.next, c, if c in s.done then Finishing else Sleeping);
      case Relock(c) => WeightsWith(s.clients, s.next, c, Checking);
      case ClientSpurious(c) => WeightsWith(s.clients, s.next, c, Woken);
      case Leave(c) => WeightsWithout(s.clients, s.next, c);
      case Signal =>
        var j := s.worker.job;
        WeightsWith(s.clients, s.next, j, Woken);
      case _ =>
    }
  }

  function SpuriousIn(steps: seq<Step>): nat {
    if steps == [] then 0 else SpuriousIn(steps[1..]) + if Spurious(steps[0]) then 1 else 0
  }

  /** Once shutdown has begun the server takes a bounded number of steps, three
      more for each spurious wake-up; as it is never stuck before, it closes. */
  lemma {:induction false} DrainEnds(states: seq<State>, steps: seq<Step>)
    requires Path(states, steps) && Inv(states[0]) && states[0].stopping
    ensures |steps| <= Work(states[0]) + 3 * SpuriousIn(steps)
  {
    if steps != [] {
      var s, t := states[0], steps[0];
      assert Enabled(s, t) && states[1] == Next(s, t);
      InvStep(s, t);
      WorkFalls(s, t);
      assert Path(states[1..], steps[1..]);
      DrainEnds(states[1..], steps[1..]);
    }
  }

  /** From every state of a shutdown the server can close without any spurious
      wake-up. */
  lemma {:induction false} Closes(s: State) returns (states: seq<State>, steps: seq<Step>)
    requires Inv(s) && s.stopping
    ensures Path(states, steps) && states[0] == s && SpuriousIn(steps) == 0
    ensures states[|steps|].main == Closed
    decreases Work(s)
  {
    if s.main == Closed { return [s], []; }
    var t := NotStuck(s);
    WorkFalls(s, t);
    InvStep(s, t);
    StopStays(s, t);
    var states', steps' := Closes(Next(s, t));
    states, steps := [s] + states', [t] + steps';
    assert steps[1..] == steps';
    forall i | 0 <= i < |steps|
      ensures Enabled(states[i], steps[i]) && states[i + 1] == Next(states[i], steps[i])
    {
      if i > 0 { assert Enabled(states'[i - 1], steps'[i - 1]) && states'[i] == Next(states'[i - 1], steps'[i - 1]); }
    }
  }
}

/** The queue's linked list, and how it follows the steps of the server. */
module JobQueue {
  import JobServer

  class Job {
    const id: nat
    var next: Job?

    constructor (id: nat)
      ensures this.id == id && next == null
    {
      this.id, next := id, null;
    }
  }

  function Ids(jobs: seq<Job>): (r: seq<nat>)
    ensures |r| == |jobs|
  {
    seq(|jobs|, i requires 0 <= i < |jobs| => jobs[i].id)
  }

  lemma IdsAppend(jobs: seq<Job>, j: Job)
    ensures Ids(jobs + [j]) == Ids(jobs) + [j.id]
  {
  }

  lemma IdsRest(jobs: seq<Job>)
    requires jobs != []
    ensures Ids(jobs)[0] == jobs[0].id && Ids(jobs[1..]) == Ids(jobs)[1..]
  {
  }

  class Queue {
    var head: Job?
    var tail: Job?
    var stopping: bool
    ghost var jobs: seq<Job>

    ghost predicate Valid()
      reads this, jobs
    {
      && (forall i, j :: 0 <= i < j < |jobs| ==> jobs[i] != jobs[j])
      && (forall i {:trigger jobs[i].next} :: 0 <= i < |jobs| ==>
           jobs[i].next == if i + 1 < |jobs| then jobs[i + 1] else null)
      && head == (if jobs == [] then null else jobs[0])
      && tail == (if jobs == [] then null else jobs[|jobs| - 1])
    }

    /** The list is the queue of the server's state. */
    ghost predicate Shows(s: JobServer.State)
      reads this
    {
      Ids(jobs) == s.queue && stopping == s.stopping
    }

    constructor ()
      ensures Valid() && jobs == [] && !stopping && Shows(JobServer.Init)
    {
      head, tail, stopping, jobs := null, null, false, [];
    }

    /** Appends a job, unless the server is stopping: the step of the job's client. */
    method Enqueue(j: Job) returns (ok: bool)
      requires Valid() && j !in jobs && j.next == null
      modifies this, jobs
      ensures Valid() && stopping == old(stopping) && ok == !old(stopping)
      ensures jobs == if ok then old(jobs) + [j] else old(jobs)
      ensures forall s :: old(Shows(s)) && JobServer.Enabled(s, JobServer.Enqueue(j.id)) ==>
        var s' := JobServer.Next(s, JobServer.Enqueue(j.id));
        Shows(s') && s'.clients[j.id] == if ok then JobServer.Checking else JobServer.Finishing
    {
      IdsAppend(jobs, j);
      if stopping { return false; }
      if tail != null { tail.next := j; } else { head := j; }
      tail := j;
      jobs := jobs + [j];
      ok := true;
    }

    /** Takes the oldest job; with none left the worker waits, or exits when the
        server is stopping: the worker's step. */
    method Dequeue() returns (j: Job?, exit: bool)
      requires Valid()
      modifies this, jobs
      ensures Valid() && stopping == old(stopping)
      ensures old(jobs) == [] ==> j == null && jobs == [] && exit == stopping
      ensures old(jobs) != [] ==> j == old(jobs)[0] && j.next == null && jobs == old(jobs)[1..] && !exit
      ensures forall s :: old(Shows(s)) && JobServer.Enabled(s, JobServer.Take) ==>
        var s' := JobServer.Next(s, JobServer.Take);
        && Shows(s') && s'.run == s.run + (if j == null then [] else [j.id])
        && s'.worker == if j != null then JobServer.Running(j.id) else if exit then JobServer.Exited
             else JobServer.Asleep
    {
      if jobs != [] { IdsRest(jobs); }
      exit := false;
      if head == null {
        j, exit := null, stopping;
        return;
      }
      j := head;
      head := j.next;
      if head == null { tail := null; }
      jobs := jobs[1..];
      j.next := null;
    }

    /** Shutdown is requested: the main thread's step. */
    method Stop()
      requires Valid()
      modifies `stopping
      ensures Valid() && jobs == old(jobs)
      ensures forall s :: old(Shows(s)) && JobServer.Enabled(s, JobServer.Stop) ==>
        Shows(JobServer.Next(s, JobServer.Stop))
    {
      stopping := true;
    }
  }

  /** No other step touches the queue or the stop flag. */
  lemma OthersKeep(s: JobServer.State, t: JobServer.Step)
    requires JobServer.Enabled(s, t) && !t.Enqueue? && !t.Take? && !t.Stop?
    ensures JobServer.Next(s, t).queue == s.queue && JobServer.Next(s, t).stopping == s.stopping
  {
  }
}
