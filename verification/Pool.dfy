/** The event processor as it runs: deliveries (repeated, in any order) into a bounded queue, and workers that take
    messages from it and make their repository calls concurrently. */
module Pool {
  import opened Model
  import opened Sums
  import opened Tables
  import C = Core

  const QUEUE_CAPACITY: nat := 100
  const NUM_WORKERS: nat := 5

  type Message = BlockWithTransactions

  datatype Worker = Idle | Gating(msg: Message) | Working(msg: Message, task: nat)

  /** A message the broker handed over, and whether the queue had room for it. */
  datatype Arrival = Arrival(msg: Message, queued: bool)

  /** What ProcessBlockWithTransactions returned to its worker. */
  datatype Verdict = Verdict(msg: Message, ok: bool)

  datatype Pool = Pool(core: C.Core, arrivals: seq<Arrival>, queue: seq<Message>, taken: seq<Message>,
                       workers: seq<Worker>, verdicts: seq<Verdict>)

  const START := Pool(C.START, [], [], [], [Idle, Idle, Idle, Idle, Idle], [])

  datatype Action =
    | Deliver(msg: Message)
    | Take(worker: nat)
    | Gate(worker: nat)
    | GateOutage(worker: nat)
    | Call(worker: nat)
    | CallOutage(worker: nat)
    | Return(worker: nat)

  function Finish(s: Pool, w: nat, ok: bool): Pool
    requires w < |s.workers| && !s.workers[w].Idle?
  {
    s.(workers := s.workers[w := Idle], verdicts := s.verdicts + [Verdict(s.workers[w].msg, ok)])
  }

  /** The handler given to the broker: a full queue drops the message, and the broker is told all is well. */
  function Accept(s: Pool, m: Message): Pool {
    if |s.queue| < QUEUE_CAPACITY
    then s.(arrivals := s.arrivals + [Arrival(m, true)], queue := s.queue + [m])
    else s.(arrivals := s.arrivals + [Arrival(m, false)])
  }

  predicate Busy(s: Pool, w: nat) {
    w < |s.workers| && s.workers[w].Working? && s.workers[w].task < |s.core.tasks|
  }

  predicate Step(cfg: Config, s: Pool, a: Action, s': Pool) {
    match a
    case Deliver(m) => s' == Accept(s, m)
    case Take(w) =>
      w < |s.workers| && s.workers[w].Idle? && s.queue != [] &&
      s' == s.(queue := s.queue[1..], taken := s.taken + [s.queue[0]], workers := s.workers[w := Gating(s.queue[0])])
    case Gate(w) =>
      w < |s.workers| && s.workers[w].Gating? &&
      (match AddBlock(s.core.tables, s.workers[w].msg.block)
       case Rejected => s' == Finish(s, w, false)
       case Exists => s' == Finish(s, w, true)
       case Inserted(t) =>
         var m := s.workers[w].msg;
         s' == s.(core := C.Core(t, s.core.tasks + [C.Task(m, 0, false, false)]),
                  workers := s.workers[w := Working(m, |s.core.tasks|)]))
    case GateOutage(w) => w < |s.workers| && s.workers[w].Gating? && s' == Finish(s, w, false)
    case Call(w) =>
      Busy(s, w) && C.Running(s.core.tasks[s.workers[w].task]) &&
      s' == s.(core := C.Advance(cfg, s.core, s.workers[w].task))
    case CallOutage(w) =>
      Busy(s, w) && C.Running(s.core.tasks[s.workers[w].task]) &&
      var i := s.workers[w].task;
      s' == s.(core := s.core.(tasks := s.core.tasks[i := s.core.tasks[i].(failed := true)]))
    case Return(w) =>
      Busy(s, w) && !C.Running(s.core.tasks[s.workers[w].task]) &&
      s' == Finish(s, w, C.Complete(s.core.tasks[s.workers[w].task]))
  }

  ghost predicate IsRun(cfg: Config, run: seq<Pool>, acts: seq<Action>) {
    && |run| == |acts| + 1 && run[0] == START
    && forall i :: 0 <= i < |acts| ==> Step(cfg, run[i], acts[i], run[i + 1])
  }

  ghost predicate Reachable(cfg: Config, s: Pool) {
    exists run, acts :: IsRun(cfg, run, acts) && run[|acts|] == s
  }

  // ---------------------------------------------------------------- the pool drives the core

  /** The core step a pool step makes, if it makes one. */
  function CoreAction(s: Pool, a: Action): Option<C.Action> {
    match a
    case Gate(w) =>
      if w < |s.workers| && s.workers[w].Gating? && AddBlock(s.core.tables, s.workers[w].msg.block).Inserted?
      then Some(C.Open(s.workers[w].msg)) else None
    case Call(w) => if Busy(s, w) then Some(C.Work(s.workers[w].task)) else None
    case CallOutage(w) => if Busy(s, w) then Some(C.Outage(s.workers[w].task)) else None
    case _ => None
  }

  lemma StepProjects(cfg: Config, s: Pool, a: Action, s': Pool)
    requires Step(cfg, s, a, s')
    ensures CoreAction(s, a).None? ==> s'.core == s.core
    ensures CoreAction(s, a).Some? ==> C.Step(cfg, s.core, CoreAction(s, a).value, s'.core)
  {
  }

  lemma {:induction false} RunReachesCore(cfg: Config, run: seq<Pool>, acts: seq<Action>, n: nat)
    requires IsRun(cfg, run, acts) && n <= |acts|
    ensures C.Reachable(cfg, run[n].core)
  {
    if n == 0 {
      C.StartReachable(cfg);
    } else {
      RunReachesCore(cfg, run, acts, n - 1);
      StepProjects(cfg, run[n - 1], acts[n - 1], run[n]);
      if CoreAction(run[n - 1], acts[n - 1]).Some? {
        C.ReachableStep(cfg, run[n - 1].core, CoreAction(run[n - 1], acts[n - 1]).value, run[n].core);
      }
    }
  }

  /** Whatever holds in every reachable state of the core holds throughout every run of the pool. */
  lemma CoreReachable(cfg: Config, s: Pool)
    requires Reachable(cfg, s)
    ensures C.Reachable(cfg, s.core)
  {
    var run, acts :| IsRun(cfg, run, acts) && run[|acts|] == s;
    RunReachesCore(cfg, run, acts, |acts|);
  }

  // ---------------------------------------------------------------- at most once

  lemma {:induction false} BlocksStay(cfg: Config, run: seq<Pool>, acts: seq<Action>, p: nat, q: nat, h: int)
    requires IsRun(cfg, run, acts) && p <= q <= |acts| && h in run[p].core.tables.blocks
    ensures h in run[q].core.tables.blocks
    decreases q - p
  {
    if p < q {
      BlocksStay(cfg, run, acts, p, q - 1, h);
      StepProjects(cfg, run[q - 1], acts[q - 1], run[q]);
      if CoreAction(run[q - 1], acts[q - 1]).Some? {
        BlocksStayStep(cfg, run[q - 1].core, CoreAction(run[q - 1], acts[q - 1]).value, run[q].core, h);
      }
    }
  }

  lemma BlocksStayStep(cfg: Config, c: C.Core, a: C.Action, c': C.Core, h: int)
    requires C.Step(cfg, c, a, c') && h in c.tables.blocks
    ensures h in c'.tables.blocks
  {
  }

  /** The worker passes the gate: AddBlock reported a new block. */
  predicate Passes(s: Pool, a: Action, h: int) {
    a.Gate? && a.worker < |s.workers| && s.workers[a.worker].Gating? && s.workers[a.worker].msg.block.height == h &&
    AddBlock(s.core.tables, s.workers[a.worker].msg.block).Inserted?
  }

  /** At most once: however often a height is delivered and whatever fails, at most one worker ever passes its gate. */
  lemma AtMostOnePasses(cfg: Config, run: seq<Pool>, acts: seq<Action>, p: nat, q: nat, h: int)
    requires IsRun(cfg, run, acts) && p < |acts| && q < |acts|
    requires Passes(run[p], acts[p], h) && Passes(run[q], acts[q], h)
    ensures p == q
  {
    var lo, hi := if p < q then p else q, if p < q then q else p;
    if lo < hi {
      assert Step(cfg, run[lo], acts[lo], run[lo + 1]);
      BlocksStay(cfg, run, acts, lo + 1, hi, h);
      assert false;
    }
  }

  // ---------------------------------------------------------------- queue and accounting invariants

  function Queued(arrivals: seq<Arrival>): seq<Message> {
    if arrivals == [] then []
    else Queued(arrivals[..|arrivals| - 1]) +
         if arrivals[|arrivals| - 1].queued then [arrivals[|arrivals| - 1].msg] else []
  }

  /** The queue is bounded and first-in first-out: what was taken, then what waits, is what was queued, in order. */
  ghost predicate Fifo(s: Pool) {
    |s.queue| <= QUEUE_CAPACITY && s.taken + s.queue == Queued(s.arrivals)
  }

  function HeldCount(m: Message): Worker -> int { (w: Worker) => if HoldsMessage(w, m) then 1 else 0 }

  function VerdictCount(m: Message): Verdict -> int { (v: Verdict) => if v.msg == m then 1 else 0 }

  function ArrivalCount(m: Message): Arrival -> int { (a: Arrival) => if a.msg == m then 1 else 0 }

  function DropCount(m: Message): Arrival -> int { (a: Arrival) => if a.msg == m && !a.queued then 1 else 0 }

  /** Every taken message is in exactly one worker or has exactly one verdict. */
  ghost predicate Accounted(s: Pool) {
    forall m :: SumBy(s.taken, CountIn(m)) == SumBy(s.workers, HeldCount(m)) + SumBy(s.verdicts, VerdictCount(m))
  }

  predicate Holds(s: Pool, i: nat) {
    exists w :: 0 <= w < |s.workers| && s.workers[w].Working? && s.workers[w].task == i
  }

  /** Workers hold distinct existing tasks with their own message, and a task nobody holds has ended. */
  ghost predicate Assigned(s: Pool) {
    && (forall w :: 0 <= w < |s.workers| && s.workers[w].Working? ==>
         s.workers[w].task < |s.core.tasks| && s.core.tasks[s.workers[w].task].msg == s.workers[w].msg)
    && (forall w, v :: 0 <= w < v < |s.workers| && s.workers[w].Working? && s.workers[v].Working? ==>
         s.workers[w].task != s.workers[v].task)
    && (forall i :: 0 <= i < |s.core.tasks| ==> Holds(s, i) || Ended(s, s.core.tasks[i]))
  }

  predicate Ended(s: Pool, t: C.Task) {
    && !C.Running(t)
    && Verdict(t.msg, C.Complete(t)) in s.verdicts
  }

  /** A success verdict means the height is stored; every task's message was taken from the queue. */
  ghost predicate Sound(s: Pool) {
    && (forall v :: v in s.verdicts && v.ok ==> v.msg.block.height in s.core.tables.blocks)
    && (forall i :: 0 <= i < |s.core.tasks| ==> s.core.tasks[i].msg in s.taken)
    && (forall w :: 0 <= w < |s.workers| && !s.workers[w].Idle? ==> s.workers[w].msg in s.taken)
  }

  ghost predicate Inv(s: Pool) {
    && |s.workers| == NUM_WORKERS && C.TasksOk(s.core) && C.Gated(s.core)
    && Fifo(s) && Accounted(s) && Assigned(s) && Sound(s)
  }

  lemma StartInv()
    ensures Inv(START)
  {
    StartAccounted();
    StartIdle();
    assert C.TasksOk(C.START) && C.Gated(C.START);
  }

  lemma StartIdle()
    ensures Fifo(START) && Assigned(START) && Sound(START)
  {
    assert forall w :: 0 <= w < |START.workers| ==> START.workers[w].Idle?;
  }

  lemma StartAccounted()
    ensures Accounted(START)
  {
    forall m ensures SumBy(START.workers, HeldCount(m)) == 0 { SumZero(START.workers, HeldCount(m)); }
  }

  lemma KeepFifo(cfg: Config, s: Pool, a: Action, s': Pool)
    requires Fifo(s) && Step(cfg, s, a, s')
    ensures Fifo(s')
  {
    match a {
      case Deliver(m) =>
        var n := |s.arrivals|;
        assert s'.arrivals[..n] == s.arrivals;
        if |s.queue| < QUEUE_CAPACITY {
          assert s'.taken + s'.queue == (s.taken + s.queue) + [m];
        }
      case Take(w) => assert s'.taken + s'.queue == s.taken + s.queue;
      case _ =>
    }
  }

  /** A worker's step changes the held messages by that worker's own. */
  lemma HeldAfter(cfg: Config, s: Pool, a: Action, s': Pool, m: Message)
    requires Step(cfg, s, a, s') && !a.Deliver?
    ensures a.worker < |s.workers| == |s'.workers|
    ensures SumBy(s'.workers, HeldCount(m)) ==
            SumBy(s.workers, HeldCount(m)) - HeldCount(m)(s.workers[a.worker]) + HeldCount(m)(s'.workers[a.worker])
  {
    var w := a.worker;
    assert s'.workers == s.workers[w := s'.workers[w]];
    SumUpdate(s.workers, w, s'.workers[w], HeldCount(m));
  }

  lemma KeepAccountedFor(cfg: Config, s: Pool, a: Action, s': Pool, m: Message)
    requires Step(cfg, s, a, s')
    requires SumBy(s.taken, CountIn(m)) == SumBy(s.workers, HeldCount(m)) + SumBy(s.verdicts, VerdictCount(m))
    ensures SumBy(s'.taken, CountIn(m)) == SumBy(s'.workers, HeldCount(m)) + SumBy(s'.verdicts, VerdictCount(m))
  {
    if !a.Deliver? {
      HeldAfter(cfg, s, a, s', m);
      if a.Take? {
        SumSnoc(s.taken, s.queue[0], CountIn(m));
      } else {
        VerdictAfter(cfg, s, a, s', m);
      }
    }
  }

  /** A step but a take either answers the message it stops holding, or keeps both. */
  lemma VerdictAfter(cfg: Config, s: Pool, a: Action, s': Pool, m: Message)
    requires Step(cfg, s, a, s') && !a.Deliver? && !a.Take?
    ensures s'.taken == s.taken && a.worker < |s.workers| == |s'.workers|
    ensures SumBy(s'.verdicts, VerdictCount(m)) + HeldCount(m)(s'.workers[a.worker]) ==
            SumBy(s.verdicts, VerdictCount(m)) + HeldCount(m)(s.workers[a.worker])
  {
    if s'.verdicts != s.verdicts {
      var v := s'.verdicts[|s.verdicts|];
      assert s'.verdicts == s.verdicts + [v] && v.msg == s.workers[a.worker].msg;
      SumSnoc(s.verdicts, v, VerdictCount(m));
    }
  }

  lemma KeepAccounted(cfg: Config, s: Pool, a: Action, s': Pool)
    requires Accounted(s) && Step(cfg, s, a, s')
    ensures Accounted(s')
  {
    forall m
      ensures SumBy(s'.taken, CountIn(m)) ==
              SumBy(s'.workers, HeldCount(m)) + SumBy(s'.verdicts, VerdictCount(m))
    {
      KeepAccountedFor(cfg, s, a, s', m);
    }
  }

  /** What a step does to all tasks: their messages stay, at most one is added or changed, and that one is held. */
  lemma TasksAfter(cfg: Config, s: Pool, a: Action, s': Pool)
    requires C.TasksOk(s.core) && Step(cfg, s, a, s')
    ensures |s.core.tasks| <= |s'.core.tasks| <= |s.core.tasks| + 1
    ensures |s'.core.tasks| > |s.core.tasks| ==>
              a.Gate? && s'.workers[a.worker] == Working(s.workers[a.worker].msg, |s.core.tasks|)
              && s'.core.tasks[|s.core.tasks|].msg == s.workers[a.worker].msg
    ensures forall i :: 0 <= i < |s.core.tasks| ==> s'.core.tasks[i].msg == s.core.tasks[i].msg
    ensures forall i :: 0 <= i < |s.core.tasks| && s'.core.tasks[i] != s.core.tasks[i] ==>
              && (a.Call? || a.CallOutage?) && Busy(s, a.worker) && s.workers[a.worker].task == i
              && s'.workers == s.workers
    ensures forall h :: h in s.core.tables.blocks ==> h in s'.core.tables.blocks
  {
    StepProjects(cfg, s, a, s');
    if CoreAction(s, a).Some? {
      var b := CoreAction(s, a).value;
      C.TasksAfter(cfg, s.core, b, s'.core);
      C.StepShape(cfg, s.core, b, s'.core);
    }
  }

  lemma KeepHeldOrEnded(cfg: Config, s: Pool, a: Action, s': Pool, i: nat)
    requires C.TasksOk(s.core) && Assigned(s) && Step(cfg, s, a, s') && i < |s'.core.tasks|
    ensures Holds(s', i) || Ended(s', s'.core.tasks[i])
  {
    TasksAfter(cfg, s, a, s');
    if i == |s.core.tasks| {
      assert s'.workers[a.worker].task == i;
    } else if Holds(s, i) {
      var w :| 0 <= w < |s.workers| && s.workers[w].Working? && s.workers[w].task == i;
      if a.Return? && a.worker == w {
        assert C.TaskOk(s.core.tasks[i]);
        assert s'.verdicts[|s.verdicts|] in s'.verdicts;
      } else {
        assert s'.workers[w] == s.workers[w];
      }
    } else {
      assert Ended(s, s.core.tasks[i]);
    }
  }

  lemma KeepAssigned(cfg: Config, s: Pool, a: Action, s': Pool)
    requires C.TasksOk(s.core) && Assigned(s) && Step(cfg, s, a, s')
    ensures Assigned(s')
  {
    TasksAfter(cfg, s, a, s');
    forall i | 0 <= i < |s'.core.tasks| ensures Holds(s', i) || Ended(s', s'.core.tasks[i]) {
      KeepHeldOrEnded(cfg, s, a, s', i);
    }
  }

  lemma KeepSound(cfg: Config, s: Pool, a: Action, s': Pool)
    requires C.TasksOk(s.core) && C.Gated(s.core) && Assigned(s) && Sound(s) && Step(cfg, s, a, s')
    ensures Sound(s')
  {
    TasksAfter(cfg, s, a, s');
    forall v | v in s'.verdicts && v.ok ensures v.msg.block.height in s'.core.tables.blocks {
      if v !in s.verdicts && a.Return? {
        assert C.HasBlock(s.core.tables, s.core.tasks[s.workers[a.worker].task].msg.block);
      }
    }
  }

  lemma StepInv(cfg: Config, s: Pool, a: Action, s': Pool)
    requires Inv(s) && Step(cfg, s, a, s')
    ensures Inv(s')
  {
    KeepFifo(cfg, s, a, s');
    KeepAccounted(cfg, s, a, s');
    KeepAssigned(cfg, s, a, s');
    KeepSound(cfg, s, a, s');
    StepProjects(cfg, s, a, s');
    if CoreAction(s, a).Some? {
      C.KeepTasksOk(cfg, s.core, CoreAction(s, a).value, s'.core);
      C.KeepGated(cfg, s.core, CoreAction(s, a).value, s'.core);
    }
  }

  lemma {:induction false} RunInv(cfg: Config, run: seq<Pool>, acts: seq<Action>, n: nat)
    requires IsRun(cfg, run, acts) && n <= |acts|
    ensures Inv(run[n])
  {
    if n == 0 {
      StartInv();
    } else {
      RunInv(cfg, run, acts, n - 1);
      StepInv(cfg, run[n - 1], acts[n - 1], run[n]);
    }
  }

  lemma ReachableInv(cfg: Config, s: Pool)
    requires Reachable(cfg, s)
    ensures Inv(s)
  {
    var run, acts :| IsRun(cfg, run, acts) && run[|acts|] == s;
    RunInv(cfg, run, acts, |acts|);
  }

  lemma {:induction false} QueuedCount(arrivals: seq<Arrival>, m: Message)
    ensures SumBy(arrivals, ArrivalCount(m)) == SumBy(Queued(arrivals), CountIn(m)) + SumBy(arrivals, DropCount(m))
  {
    if arrivals != [] {
      var front, last := arrivals[..|arrivals| - 1], arrivals[|arrivals| - 1];
      QueuedCount(front, m);
      if last.queued {
        SumSnoc(Queued(front), last.msg, CountIn(m));
      } else {
        assert Queued(front) + [] == Queued(front);
      }
    }
  }

  /** Worker-pool accounting: in every reachable state each accepted message is, exactly once, waiting, in one of five
      workers, answered, or dropped; the queue holds at most 100 and is served in order. */
  lemma PoolAccounting(cfg: Config, s: Pool, m: Message)
    requires Reachable(cfg, s)
    ensures SumBy(s.arrivals, ArrivalCount(m)) ==
            SumBy(s.queue, CountIn(m)) + SumBy(s.workers, HeldCount(m)) + SumBy(s.verdicts, VerdictCount(m))
            + SumBy(s.arrivals, DropCount(m))
    ensures |s.queue| <= 100 && |s.workers| == 5
    ensures s.taken + s.queue == Queued(s.arrivals)
  {
    ReachableInv(cfg, s);
    QueuedCount(s.arrivals, m);
    SumAppend(s.taken, s.queue, CountIn(m));
  }

  // ---------------------------------------------------------------- what a delivery does, and what is answered

  /** A delivery is queued if and only if fewer than 100 messages wait, and then it is the last one waiting; nothing
      else changes. */
  lemma QueuedIffRoom(cfg: Config, s: Pool, m: Message, s': Pool)
    requires Step(cfg, s, Deliver(m), s')
    ensures s'.queue == if |s.queue| < 100 then s.queue + [m] else s.queue
    ensures s'.arrivals == s.arrivals + [Arrival(m, |s.queue| < 100)]
    ensures s'.core == s.core && s'.taken == s.taken && s'.workers == s.workers && s'.verdicts == s.verdicts
  {
  }

  /** Some delivery of the message, among the first n steps, found fewer than 100 waiting. */
  predicate FoundRoom(run: seq<Pool>, acts: seq<Action>, n: nat, m: Message) {
    |run| == |acts| + 1 && n <= |acts| &&
    exists i :: 0 <= i < n && acts[i] == Deliver(m) && |run[i].queue| < 100
  }

  /** Every step but a delivery keeps the arrivals. */
  lemma ArrivalsKept(cfg: Config, s: Pool, a: Action, s': Pool)
    requires Step(cfg, s, a, s') && !a.Deliver?
    ensures s'.arrivals == s.arrivals
  {
  }

  lemma {:induction false} QueueableIffRoom(cfg: Config, run: seq<Pool>, acts: seq<Action>, n: nat, m: Message)
    requires IsRun(cfg, run, acts) && n <= |acts|
    ensures Queueable(run[n], m) <==> FoundRoom(run, acts, n, m)
  {
    if n > 0 {
      var s, a, s' := run[n - 1], acts[n - 1], run[n - 1 + 1];
      assert Step(cfg, s, a, s');
      QueueableIffRoom(cfg, run, acts, n - 1, m);
      if a.Deliver? {
        QueuedIffRoom(cfg, s, a.msg, s');
        assert s'.arrivals[|s.arrivals|] == Arrival(a.msg, |s.queue| < 100);
      } else {
        ArrivalsKept(cfg, s, a, s');
      }
    }
  }

  /** Every worker answers: in every reachable state, a task that no worker holds has the verdict it deserves, success
      if all its calls are done and an error otherwise. */
  lemma EndedAnswered(cfg: Config, s: Pool, i: nat)
    requires Reachable(cfg, s) && i < |s.core.tasks| && !Holds(s, i)
    ensures Verdict(s.core.tasks[i].msg, C.Complete(s.core.tasks[i])) in s.verdicts
    ensures C.Complete(s.core.tasks[i]) <==> !s.core.tasks[i].failed
  {
    ReachableInv(cfg, s);
    assert Ended(s, s.core.tasks[i]);
    assert C.TaskOk(s.core.tasks[i]);
  }

  /** The answers of a gate: an error without a hash, success for a height that is stored, and for any other height a
      new task that its worker holds. */
  lemma GateAnswers(cfg: Config, s: Pool, w: nat, s': Pool)
    requires Step(cfg, s, Gate(w), s')
    ensures var m := s.workers[w].msg;
            if m.block.hash == "" || m.block.height in s.core.tables.blocks then
              && s'.core == s.core && s'.workers == s.workers[w := Idle]
              && s'.verdicts == s.verdicts + [Verdict(m, m.block.hash != "")]
            else
              && s'.core.tables == s.core.tables.(blocks := s.core.tables.blocks[m.block.height := m.block])
              && s'.core.tasks == s.core.tasks + [C.Task(m, 0, false, false)]
              && s'.workers == s.workers[w := Working(m, |s.core.tasks|)] && s'.verdicts == s.verdicts
  {
  }

  /** The pool is never stuck. Any message may arrive at any time; an idle worker may take the oldest one waiting
      whatever the others do; a worker that holds a message may always go on or end, and may be hit by an outage. */
  lemma NeverStuck(cfg: Config, s: Pool, w: nat, m: Message)
    requires Reachable(cfg, s) && w < 5
    ensures |s.workers| == 5 && (s.workers[w].Working? ==> s.workers[w].task < |s.core.tasks|)
    ensures exists s' :: Step(cfg, s, Deliver(m), s')
    ensures s.workers[w].Idle? && s.queue != [] ==>
              Step(cfg, s, Take(w), s.(queue := s.queue[1..], taken := s.taken + [s.queue[0]],
                                       workers := s.workers[w := Gating(s.queue[0])]))
    ensures s.workers[w].Gating? ==> exists s' :: Step(cfg, s, Gate(w), s')
    ensures s.workers[w].Gating? ==> exists s' :: Step(cfg, s, GateOutage(w), s')
    ensures s.workers[w].Working? && C.Running(s.core.tasks[s.workers[w].task]) ==>
              exists s' :: Step(cfg, s, Call(w), s')
    ensures s.workers[w].Working? && C.Running(s.core.tasks[s.workers[w].task]) ==>
              exists s' :: Step(cfg, s, CallOutage(w), s')
    ensures s.workers[w].Working? && !C.Running(s.core.tasks[s.workers[w].task]) ==>
              exists s' :: Step(cfg, s, Return(w), s')
  {
    ReachableInv(cfg, s);
    assert Step(cfg, s, Deliver(m), Accept(s, m));
    match s.workers[w] {
      case Idle =>
      case Gating(x) => GateGoes(cfg, s, w);
      case Working(x, i) => WorkGoes(cfg, s, w);
    }
  }

  lemma GateGoes(cfg: Config, s: Pool, w: nat)
    requires w < |s.workers| && s.workers[w].Gating?
    ensures exists s' :: Step(cfg, s, Gate(w), s')
    ensures exists s' :: Step(cfg, s, GateOutage(w), s')
  {
    var m := s.workers[w].msg;
    assert Step(cfg, s, GateOutage(w), Finish(s, w, false));
    match AddBlock(s.core.tables, m.block) {
      case Rejected => assert Step(cfg, s, Gate(w), Finish(s, w, false));
      case Exists => assert Step(cfg, s, Gate(w), Finish(s, w, true));
      case Inserted(t) =>
        assert Step(cfg, s, Gate(w), s.(core := C.Core(t, s.core.tasks + [C.Task(m, 0, false, false)]),
                                        workers := s.workers[w := Working(m, |s.core.tasks|)]));
    }
  }

  lemma WorkGoes(cfg: Config, s: Pool, w: nat)
    requires w < |s.workers| && s.workers[w].Working? && s.workers[w].task < |s.core.tasks|
    ensures var t := s.core.tasks[s.workers[w].task];
            if C.Running(t)
            then (exists s' :: Step(cfg, s, Call(w), s')) && (exists s' :: Step(cfg, s, CallOutage(w), s'))
            else exists s' :: Step(cfg, s, Return(w), s')
  {
    var i := s.workers[w].task;
    if C.Running(s.core.tasks[i]) {
      assert Step(cfg, s, Call(w), s.(core := C.Advance(cfg, s.core, i)));
      assert Step(cfg, s, CallOutage(w),
                  s.(core := s.core.(tasks := s.core.tasks[i := s.core.tasks[i].(failed := true)])));
    } else {
      assert Step(cfg, s, Return(w), Finish(s, w, C.Complete(s.core.tasks[i])));
    }
  }

  // ---------------------------------------------------------------- quiescence

  predicate Quiescent(s: Pool) { s.queue == [] && forall w :: 0 <= w < |s.workers| ==> s.workers[w].Idle? }

  predicate NoErrors(s: Pool) { forall v :: v in s.verdicts ==> v.ok }

  lemma {:induction false} CountedMember(verdicts: seq<Verdict>, m: Message)
    requires SumBy(verdicts, VerdictCount(m)) > 0
    ensures exists v :: v in verdicts && v.msg == m
  {
    var last := verdicts[|verdicts| - 1];
    if last.msg != m {
      CountedMember(verdicts[..|verdicts| - 1], m);
      var v :| v in verdicts[..|verdicts| - 1] && v.msg == m;
      assert v in verdicts;
    } else {
      assert last in verdicts;
    }
  }

  lemma {:induction false} MemberCounted(ms: seq<Message>, m: Message)
    ensures SumBy(ms, CountIn(m)) >= if m in ms then 1 else 0
  {
    if ms != [] {
      MemberCounted(ms[..|ms| - 1], m);
    }
  }

  /** At rest without errors: every task is complete, every message that was taken has its height's task, and every
      task is for a message that was taken. */
  lemma RestComplete(cfg: Config, s: Pool)
    requires Reachable(cfg, s) && Quiescent(s) && NoErrors(s)
    ensures forall i :: 0 <= i < |s.core.tasks| ==> C.Complete(s.core.tasks[i]) && s.core.tasks[i].msg in s.taken
    ensures forall m :: m in s.taken ==> C.Opening(s.core, m.block.height)
  {
    ReachableInv(cfg, s);
    forall i | 0 <= i < |s.core.tasks| ensures C.Complete(s.core.tasks[i]) {
      assert Ended(s, s.core.tasks[i]);
      assert C.TaskOk(s.core.tasks[i]);
    }
    forall m | m in s.taken ensures C.Opening(s.core, m.block.height) {
      MemberCounted(s.taken, m);
      SumZero(s.workers, HeldCount(m));
      CountedMember(s.verdicts, m);
    }
  }

  // ---------------------------------------------------------------- what the broker is told

  predicate Answered(s: Pool, m: Message) { exists v :: v in s.verdicts && v.msg == m }

  predicate HoldsMessage(w: Worker, m: Message) { !w.Idle? && w.msg == m }

  predicate Queueable(s: Pool, m: Message) { exists a :: a in s.arrivals && a.queued && a.msg == m }

  lemma {:induction false} QueuedMembers(arrivals: seq<Arrival>, m: Message)
    ensures m in Queued(arrivals) <==> exists a :: a in arrivals && a.queued && a.msg == m
  {
    if arrivals != [] {
      var front, last := arrivals[..|arrivals| - 1], arrivals[|arrivals| - 1];
      QueuedMembers(front, m);
      assert forall a :: a in arrivals <==> a in front || a == last;
    }
  }

  lemma {:induction false} AnsweredCounted(verdicts: seq<Verdict>, v: Verdict)
    requires v in verdicts
    ensures SumBy(verdicts, VerdictCount(v.msg)) > 0
  {
    var front := verdicts[..|verdicts| - 1];
    SumNonNegative(front, VerdictCount(v.msg));
    if v in front { AnsweredCounted(front, v); }
  }

  lemma {:induction false} TakenMember(ms: seq<Message>, m: Message)
    requires SumBy(ms, CountIn(m)) > 0
    ensures m in ms
  {
    if ms[|ms| - 1] != m { TakenMember(ms[..|ms| - 1], m); }
  }

  lemma AnsweredIffQueued(cfg: Config, s: Pool, m: Message)
    requires Reachable(cfg, s) && Quiescent(s)
    ensures Answered(s, m) <==> Queueable(s, m)
  {
    ReachableInv(cfg, s);
    SumZero(s.workers, HeldCount(m));
    QueuedMembers(s.arrivals, m);
    if Answered(s, m) {
      var v :| v in s.verdicts && v.msg == m;
      AnsweredCounted(s.verdicts, v);
      TakenMember(s.taken, m);
    }
    if Queueable(s, m) {
      MemberCounted(s.taken, m);
      CountedMember(s.verdicts, m);
    }
  }

  /** The broker deletes a message once the handler accepts it, but acceptance is not processing: when a run has come to
      rest, a message was processed exactly if at least one of its deliveries found fewer than 100 waiting. */
  lemma ProcessedIffRoom(cfg: Config, run: seq<Pool>, acts: seq<Action>, m: Message)
    requires IsRun(cfg, run, acts) && Quiescent(run[|acts|])
    ensures Answered(run[|acts|], m) <==>
            exists i :: 0 <= i < |acts| && acts[i] == Deliver(m) && |run[i].queue| < 100
  {
    assert Reachable(cfg, run[|acts|]);
    AnsweredIffQueued(cfg, run[|acts|], m);
    QueueableIffRoom(cfg, run, acts, |acts|, m);
  }

  lemma StartReachable(cfg: Config)
    ensures Reachable(cfg, START)
  {
    var none: seq<Action> := [];
    assert IsRun(cfg, [START], none) && [START][|none|] == START;
  }

  lemma ReachableStep(cfg: Config, s: Pool, a: Action, s': Pool)
    requires Reachable(cfg, s) && Step(cfg, s, a, s')
    ensures Reachable(cfg, s')
  {
    var run, acts :| IsRun(cfg, run, acts) && run[|acts|] == s;
    var run', acts' := run + [s'], acts + [a];
    forall i | 0 <= i < |acts'| ensures Step(cfg, run'[i], acts'[i], run'[i + 1]) {
      if i < |acts| { assert Step(cfg, run[i], acts[i], run[i + 1]); }
    }
    assert IsRun(cfg, run', acts') && run'[|acts'|] == s';
  }
}
