/** What the worker pool can do: it can always come to rest, and it can process any sequence of messages, with exactly
    the outcome of processing them one after another. */
module Liveness {
  import opened Deliveries
  import opened Model
  import opened Pool
  import opened Races
  import opened Success
  import opened Tables
  import C = Core

  // ---------------------------------------------------------------- runs without deliveries and outages

  predicate Orderly(a: Action) { a.Take? || a.Gate? || a.Call? || a.Return? }

  /** s is reached from b by the workers alone, and without any outage. */
  ghost predicate Quietly(cfg: Config, b: Pool, s: Pool) {
    exists run, acts :: QuietRun(cfg, run, acts) && run[0] == b && run[|acts|] == s
  }

  ghost predicate QuietRun(cfg: Config, run: seq<Pool>, acts: seq<Action>) {
    && |run| == |acts| + 1
    && forall n :: 0 <= n < |acts| ==> Orderly(acts[n]) && Step(cfg, run[n], acts[n], run[n + 1])
  }

  lemma QuietlyNone(cfg: Config, b: Pool)
    ensures Quietly(cfg, b, b)
  {
    var none: seq<Action> := [];
    assert QuietRun(cfg, [b], none) && [b][|none|] == b;
  }

  lemma QuietlyStep(cfg: Config, b: Pool, s: Pool, a: Action, s': Pool)
    requires Quietly(cfg, b, s) && Orderly(a) && Step(cfg, s, a, s')
    ensures Quietly(cfg, b, s')
  {
    var run, acts :| QuietRun(cfg, run, acts) && run[0] == b && run[|acts|] == s;
    var run', acts' := run + [s'], acts + [a];
    forall n | 0 <= n < |acts'| ensures Orderly(acts'[n]) && Step(cfg, run'[n], acts'[n], run'[n + 1]) {
      if n < |acts| { assert Orderly(acts[n]) && Step(cfg, run[n], acts[n], run[n + 1]); }
    }
    assert QuietRun(cfg, run', acts') && run'[|acts'|] == s';
  }

  lemma QuietlyReachable(cfg: Config, b: Pool, s: Pool)
    requires Reachable(cfg, b) && Quietly(cfg, b, s)
    ensures Reachable(cfg, s)
  {
    var run, acts :| QuietRun(cfg, run, acts) && run[0] == b && run[|acts|] == s;
    QuietRunReachable(cfg, run, acts, |acts|);
  }

  lemma {:induction false} QuietRunReachable(cfg: Config, run: seq<Pool>, acts: seq<Action>, n: nat)
    requires QuietRun(cfg, run, acts) && Reachable(cfg, run[0]) && n <= |acts|
    ensures Reachable(cfg, run[n])
  {
    if n > 0 {
      QuietRunReachable(cfg, run, acts, n - 1);
      assert Step(cfg, run[n - 1], acts[n - 1], run[n - 1 + 1]);
      ReachableStep(cfg, run[n - 1], acts[n - 1], run[n]);
    }
  }

  // ---------------------------------------------------------------- one worker

  /** The calls of a task, made by the worker that holds it. */
  lemma {:induction false} CallsAlong(cfg: Config, b: Pool, s: Pool, w: nat, cs: seq<C.Core>)
    requires Quietly(cfg, b, s) && w < |s.workers| && s.workers[w].Working?
    requires C.WorkChain(cfg, s.workers[w].task, cs) && cs[0] == s.core && s.workers[w].task < |s.core.tasks|
    ensures Quietly(cfg, b, s.(core := cs[|cs| - 1])) && |cs[|cs| - 1].tasks| == |s.core.tasks|
  {
    var n, i := |cs| - 1, s.workers[w].task;
    if n > 0 {
      CallsAlong(cfg, b, s, w, cs[..n]);
      assert C.Step(cfg, cs[n - 1], C.Work(i), cs[n - 1 + 1]);
      assert cs[..n][n - 1] == cs[n - 1];
      QuietlyStep(cfg, b, s.(core := cs[n - 1]), Call(w), s.(core := cs[n]));
    } else {
      assert s.(core := cs[0]) == s;
    }
  }

  lemma CallsTo(cfg: Config, b: Pool, s: Pool, w: nat, c: C.Core)
    requires Quietly(cfg, b, s) && w < |s.workers| && s.workers[w].Working? && s.workers[w].task < |s.core.tasks|
    requires C.Works(cfg, s.workers[w].task, s.core, c)
    ensures Quietly(cfg, b, s.(core := c))
  {
    var cs :| C.WorkChain(cfg, s.workers[w].task, cs) && cs[0] == s.core && cs[|cs| - 1] == c;
    CallsAlong(cfg, b, s, w, cs);
  }

  /** A worker at the gate processes its message as if it were alone: same tables, and it answers with the same result.
      */
  lemma ProcessByWorker(cfg: Config, b: Pool, s: Pool, w: nat) returns (s': Pool)
    requires Quietly(cfg, b, s) && w < |s.workers| && s.workers[w].Gating?
    ensures Quietly(cfg, b, s')
    ensures var m := s.workers[w].msg;
            var r := Process(cfg, s.core.tables, m);
            && s'.core.tables == r.tables
            && s' == s.(core := s'.core, workers := s.workers[w := Idle], verdicts := s.verdicts + [Verdict(m, r.ok)])
  {
    var m, i := s.workers[w].msg, |s.core.tasks|;
    match AddBlock(s.core.tables, m.block) {
      case Rejected =>
        s' := Finish(s, w, false);
        QuietlyStep(cfg, b, s, Gate(w), s');
      case Exists =>
        s' := Finish(s, w, true);
        QuietlyStep(cfg, b, s, Gate(w), s');
      case Inserted(t) =>
        var core := C.Core(t, s.core.tasks + [C.Task(m, 0, false, false)]);
        var s1 := s.(core := core, workers := s.workers[w := Working(m, i)]);
        QuietlyStep(cfg, b, s, Gate(w), s1);
        s' := WorkByWorker(cfg, b, s1, w);
        assert s.workers[w := Working(m, i)][w := Idle] == s.workers[w := Idle];
    }
  }

  /** The same from a fresh task on. */
  lemma WorkByWorker(cfg: Config, b: Pool, s: Pool, w: nat) returns (s': Pool)
    requires Quietly(cfg, b, s) && w < |s.workers| && s.workers[w].Working? && s.workers[w].task < |s.core.tasks|
    requires s.core.tasks[s.workers[w].task] == C.Task(s.workers[w].msg, 0, false, false)
    ensures Quietly(cfg, b, s')
    ensures var m := s.workers[w].msg;
            var r := Exec(cfg, s.core.tables, Program(m));
            && s'.core.tables == r.tables
            && s' == s.(core := s'.core, workers := s.workers[w := Idle], verdicts := s.verdicts + [Verdict(m, r.ok)])
  {
    var i := s.workers[w].task;
    var c := FreshTaskEnds(cfg, s.core, i);
    CallsTo(cfg, b, s, w, c);
    s' := AnswerByWorker(cfg, b, s.(core := c), w);
  }

  /** A fresh task, left alone, comes to the end of its calls or fails on the way. */
  lemma FreshTaskEnds(cfg: Config, c: C.Core, i: nat) returns (c': C.Core)
    requires i < |c.tasks| && c.tasks[i] == C.Task(c.tasks[i].msg, 0, false, false)
    ensures C.Works(cfg, i, c, c') && |c'.tasks| == |c.tasks| && !C.Running(c'.tasks[i])
    ensures var r := Exec(cfg, c.tables, Program(c.tasks[i].msg));
            c'.tables == r.tables && (C.Complete(c'.tasks[i]) <==> r.ok)
  {
    var m := c.tasks[i].msg;
    assert Program(m)[0..] == Program(m);
    c' := TaskAlone(cfg, c, i);
  }

  /** The worker of a task that has ended reports it. */
  lemma AnswerByWorker(cfg: Config, b: Pool, s: Pool, w: nat) returns (s': Pool)
    requires Quietly(cfg, b, s) && Busy(s, w) && !C.Running(s.core.tasks[s.workers[w].task])
    ensures Quietly(cfg, b, s')
    ensures var v := Verdict(s.workers[w].msg, C.Complete(s.core.tasks[s.workers[w].task]));
            s' == s.(workers := s.workers[w := Idle], verdicts := s.verdicts + [v])
  {
    s' := Finish(s, w, C.Complete(s.core.tasks[s.workers[w].task]));
    QuietlyStep(cfg, b, s, Return(w), s');
  }

  // ---------------------------------------------------------------- any sequence of messages

  /** From rest, a message arrives and some worker processes it. */
  lemma DeliverAndProcess(cfg: Config, s: Pool, w: nat, m: Message) returns (s': Pool)
    requires Reachable(cfg, s) && Quiescent(s) && w < |s.workers|
    ensures Reachable(cfg, s') && Quiescent(s') && |s'.workers| == |s.workers|
    ensures var r := Process(cfg, s.core.tables, m);
            && s'.core.tables == r.tables && s'.taken == s.taken + [m]
            && s'.arrivals == s.arrivals + [Arrival(m, true)] && s'.verdicts == s.verdicts + [Verdict(m, r.ok)]
  {
    var s1 := Accept(s, m);
    ReachableStep(cfg, s, Deliver(m), s1);
    assert s1.queue == [m];
    var s2 := s1.(queue := [], taken := s1.taken + [m], workers := s1.workers[w := Gating(m)]);
    assert s1.queue[1..] == [];
    QuietlyNone(cfg, s1);
    QuietlyStep(cfg, s1, s1, Take(w), s2);
    s' := ProcessByWorker(cfg, s1, s2, w);
    QuietlyReachable(cfg, s1, s');
  }

  /** The pool is at rest after it took these messages in this order; the tables are those of processing them one after
      another, and each is answered with its own result there. */
  ghost predicate Did(cfg: Config, ms: seq<Message>, s: Pool) {
    && Quiescent(s) && |s.workers| == 5
    && s.taken == ms && s.core.tables == ProcessAll(cfg, EMPTY, ms).tables
    && OwnVerdicts(cfg, ms, s.verdicts)
    && (NoErrors(s) <==> ProcessAll(cfg, EMPTY, ms).ok)
  }

  /** The concurrent pool can process any sequence of messages, whichever of its five workers each of them goes to. */
  lemma {:induction false} PoolDoesSequence(cfg: Config, ms: seq<Message>, ws: seq<nat>) returns (s: Pool)
    requires |ws| == |ms| && forall i :: 0 <= i < |ws| ==> ws[i] < 5
    ensures Reachable(cfg, s) && Did(cfg, ms, s)
  {
    if ms == [] {
      s := START;
      StartReachable(cfg);
    } else {
      var n := |ms| - 1;
      var before := PoolDoesSequence(cfg, ms[..n], ws[..n]);
      s := DeliverAndProcess(cfg, before, ws[n], ms[n]);
      DidOneMore(cfg, ms, before, s);
    }
  }

  lemma DidOneMore(cfg: Config, ms: seq<Message>, before: Pool, s: Pool)
    requires ms != [] && Did(cfg, ms[..|ms| - 1], before) && Quiescent(s) && |s.workers| == 5
    requires var n := |ms| - 1;
             && s.core.tables == Process(cfg, before.core.tables, ms[n]).tables && s.taken == before.taken + [ms[n]]
             && s.verdicts == before.verdicts + [OwnVerdict(cfg, ms, n)]
    ensures Did(cfg, ms, s)
  {
    var n := |ms| - 1;
    OwnVerdictsMore(cfg, ms, before.verdicts, OwnVerdict(cfg, ms, n));
    LastVerdict(before.verdicts, OwnVerdict(cfg, ms, n));
    assert ms == ms[..n] + [ms[n]];
  }

  /** The result of message i, processed after the messages before it. */
  function OwnVerdict(cfg: Config, ms: seq<Message>, i: nat): Verdict
    requires i < |ms|
  {
    Verdict(ms[i], Process(cfg, ProcessAll(cfg, EMPTY, ms[..i]).tables, ms[i]).ok)
  }

  ghost predicate OwnVerdicts(cfg: Config, ms: seq<Message>, verdicts: seq<Verdict>) {
    |verdicts| == |ms| && forall i :: 0 <= i < |ms| ==> verdicts[i] == OwnVerdict(cfg, ms, i)
  }

  lemma OwnVerdictFront(cfg: Config, ms: seq<Message>, n: nat, i: nat)
    requires i < n <= |ms|
    ensures OwnVerdict(cfg, ms[..n], i) == OwnVerdict(cfg, ms, i)
  {
    assert ms[..n][..i] == ms[..i];
  }

  lemma OwnVerdictsMore(cfg: Config, ms: seq<Message>, verdicts: seq<Verdict>, v: Verdict)
    requires ms != [] && OwnVerdicts(cfg, ms[..|ms| - 1], verdicts)
    requires v == OwnVerdict(cfg, ms, |ms| - 1)
    ensures OwnVerdicts(cfg, ms, verdicts + [v])
  {
    var n := |ms| - 1;
    forall i | 0 <= i < n ensures verdicts[i] == OwnVerdict(cfg, ms, i) { OwnVerdictFront(cfg, ms, n, i); }
  }

  lemma LastVerdict(verdicts: seq<Verdict>, v: Verdict)
    ensures (forall x :: x in verdicts + [v] ==> x.ok) <==> (forall x :: x in verdicts ==> x.ok) && v.ok
  {
    assert v in verdicts + [v] && forall x :: x in verdicts ==> x in verdicts + [v];
  }

  /** A sane message whose accounts the key allows, delivered twice: there is a run that takes both deliveries, answers
      both with success and comes to rest. */
  lemma SaneTwice(cfg: Config, m: Message) returns (s: Pool)
    requires Sane(m) && Coherent(cfg.key, LookupsOf(m))
    ensures Reachable(cfg, s) && Quiescent(s) && NoErrors(s) && s.taken == [m, m]
    ensures s.verdicts == [Verdict(m, true), Verdict(m, true)]
    ensures m.block.height in s.core.tables.blocks
  {
    var first := Process(cfg, EMPTY, m);
    assert EMPTY.accounts.Keys + LookupsOf(m) == LookupsOf(m);
    ProperSucceedsIff(cfg, EMPTY, m);
    RedeliveryIsNoOp(cfg, EMPTY, m, m);
    assert [m, m][..1] == [m] && [m][..0] == [] && [m, m][..0] == [];
    assert ProcessAll(cfg, EMPTY, [m]) == first;
    assert ProcessAll(cfg, EMPTY, [m, m]) == first;
    s := PoolDoesSequence(cfg, [m, m], [0, 1]);
    assert s.verdicts == [s.verdicts[0], s.verdicts[1]];
    NoOpIffTaken(cfg, first.tables, m);
  }

  // ---------------------------------------------------------------- coming to rest

  /** A task comes to its end by calls of its own. */
  lemma FinishTask(cfg: Config, c: C.Core, i: nat) returns (c': C.Core)
    requires i < |c.tasks| && C.TaskOk(c.tasks[i])
    ensures C.Works(cfg, i, c, c') && |c'.tasks| == |c.tasks| && !C.Running(c'.tasks[i])
  {
    C.WorksNone(cfg, i, c);
    c' := c;
    if C.Running(c.tasks[i]) && c.tasks[i].adding {
      c' := InsertAlone(cfg, c, i);
      C.WorksStep(cfg, i, c, c, c');
    }
    if C.Running(c'.tasks[i]) {
      var mid := c';
      c' := TaskAlone(cfg, mid, i);
      C.WorksOn(cfg, i, c, mid, c');
    }
  }

  /** Any worker can finish what it holds. */
  lemma FinishWorker(cfg: Config, b: Pool, s: Pool, w: nat) returns (s': Pool)
    requires Reachable(cfg, b) && Quietly(cfg, b, s) && w < |s.workers|
    ensures Quietly(cfg, b, s') && s'.workers == s.workers[w := Idle]
    ensures s'.queue == s.queue && s'.taken == s.taken && s'.arrivals == s.arrivals
  {
    s' := s;
    match s.workers[w] {
      case Idle =>
      case Gating(m) => s' := ProcessByWorker(cfg, b, s, w);
      case Working(m, i) =>
        QuietlyReachable(cfg, b, s);
        ReachableInv(cfg, s);
        var c := FinishTask(cfg, s.core, i);
        CallsTo(cfg, b, s, w, c);
        s' := AnswerByWorker(cfg, b, s.(core := c), w);
    }
  }

  /** One worker can empty the queue. */
  lemma {:induction false} EmptyQueue(cfg: Config, b: Pool, s: Pool) returns (s': Pool)
    requires Reachable(cfg, b) && Quietly(cfg, b, s) && |s.workers| == 5
    ensures Quietly(cfg, b, s') && s'.queue == [] && |s'.workers| == 5
    ensures s'.taken + s'.queue == s.taken + s.queue && s'.arrivals == s.arrivals
    decreases |s.queue|
  {
    s' := s;
    if s.queue != [] {
      var s1 := FinishWorker(cfg, b, s, 0);
      var s2 := TakeByWorker(cfg, b, s1, 0);
      s' := EmptyQueue(cfg, b, s2);
    }
  }

  /** An idle worker takes the oldest message. */
  lemma TakeByWorker(cfg: Config, b: Pool, s: Pool, w: nat) returns (s': Pool)
    requires Quietly(cfg, b, s) && w < |s.workers| && s.workers[w].Idle? && s.queue != []
    ensures Quietly(cfg, b, s') && |s'.workers| == |s.workers| && s'.arrivals == s.arrivals
    ensures |s'.queue| == |s.queue| - 1 && s'.taken + s'.queue == s.taken + s.queue
  {
    s' := s.(queue := s.queue[1..], taken := s.taken + [s.queue[0]], workers := s.workers[w := Gating(s.queue[0])]);
    QuietlyStep(cfg, b, s, Take(w), s');
  }

  lemma {:induction false} FinishAll(cfg: Config, b: Pool, s: Pool, n: nat) returns (s': Pool)
    requires Reachable(cfg, b) && Quietly(cfg, b, s) && n <= |s.workers| && s.queue == []
    ensures Quietly(cfg, b, s') && s'.queue == [] && |s'.workers| == |s.workers|
    ensures forall w :: 0 <= w < n ==> s'.workers[w].Idle?
    ensures s'.taken == s.taken && s'.arrivals == s.arrivals
  {
    s' := s;
    if n > 0 {
      var before := FinishAll(cfg, b, s, n - 1);
      s' := FinishWorker(cfg, b, before, n - 1);
    }
  }

  /** Every reachable state can come to rest, with no further delivery and without any outage: the workers take all that
      waits, and answer all they hold. */
  lemma CanRest(cfg: Config, s: Pool) returns (s': Pool)
    requires Reachable(cfg, s)
    ensures Quietly(cfg, s, s') && Reachable(cfg, s') && Quiescent(s')
    ensures s'.taken == s.taken + s.queue && s'.arrivals == s.arrivals
  {
    ReachableInv(cfg, s);
    QuietlyNone(cfg, s);
    var empty := EmptyQueue(cfg, s, s);
    s' := FinishAll(cfg, s, empty, 5);
    QuietlyReachable(cfg, s, s');
  }
}
