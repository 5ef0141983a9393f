/** Deliveries in any order and any multiplicity: processing messages one after another is one of the interleavings,
    so both forms agree on what the tables end up with. */
module Deliveries {
  import opened Conservation
  import opened Core
  import opened Model
  import opened Programs
  import opened Refinement
  import opened Sums
  import opened Tables
  import P = Pool

  // ---------------------------------------------------------------- one message run without interference

  /** What task i becomes by its next call, when the whole call comes to r. */
  ghost predicate Called(t: Task, ok: bool, t': Task) {
    if ok then t' == Task(t.msg, t.pc + 1, false, false)
    else t' == Task(t.msg, t.pc, t'.adding, true)
  }

  /** A lookup that finds nothing takes a second step, its insert. */
  lemma InsertAlone(cfg: Config, c: Core, i: nat) returns (c': Core)
    requires i < |c.tasks| && Running(c.tasks[i]) && c.tasks[i].adding
    requires Program(c.tasks[i].msg)[c.tasks[i].pc].GetAccount?
    ensures Step(cfg, c, Work(i), c') && |c'.tasks| == |c.tasks| && c'.tasks == c.tasks[i := c'.tasks[i]]
    ensures var r := ExecOp(cfg, c.tables, NextOp(c.tasks[i]));
            c'.tables == r.tables && Called(c.tasks[i], r.ok, c'.tasks[i])
  {
    c' := Advance(cfg, c, i);
  }

  /** One call of task i, left alone. */
  lemma CallAlone(cfg: Config, c: Core, i: nat) returns (c': Core)
    requires i < |c.tasks| && Running(c.tasks[i]) && !c.tasks[i].adding
    ensures Works(cfg, i, c, c') && |c'.tasks| == |c.tasks| && c'.tasks == c.tasks[i := c'.tasks[i]]
    ensures var r := ExecOp(cfg, c.tables, Program(c.tasks[i].msg)[c.tasks[i].pc]);
            c'.tables == r.tables && Called(c.tasks[i], r.ok, c'.tasks[i])
  {
    var t := c.tasks[i];
    var op := Program(t.msg)[t.pc];
    ProgramShape(t.msg);
    assert op in Program(t.msg);
    var c1 := Advance(cfg, c, i);
    WorksNone(cfg, i, c);
    WorksStep(cfg, i, c, c, c1);
    c' := c1;
    if Apply(cfg, c.tables, op).NoAccount? {
      assert c1.tables == c.tables && c1.tasks[i] == Task(t.msg, t.pc, true, false);
      c' := InsertAlone(cfg, c1, i);
      WorksStep(cfg, i, c, c1, c');
    }
  }

  /** Task i, left alone up to call q, does to the tables what executing its program up to there does. */
  lemma {:induction false} TaskAloneTo(cfg: Config, c: Core, i: nat, q: nat) returns (c': Core)
    requires i < |c.tasks| && !c.tasks[i].failed && !c.tasks[i].adding
    requires c.tasks[i].pc <= q <= |Program(c.tasks[i].msg)|
    ensures Works(cfg, i, c, c')
    ensures |c'.tasks| == |c.tasks| && c' == Core(c'.tables, c.tasks[i := c'.tasks[i]])
    ensures c'.tasks[i].msg == c.tasks[i].msg
    ensures var t := c.tasks[i];
            var r := Exec(cfg, c.tables, Program(t.msg)[t.pc..q]);
            && c'.tables == r.tables
            && if r.ok then c'.tasks[i] == Task(t.msg, q, false, false)
               else c'.tasks[i].failed && c'.tasks[i].pc < q
    decreases q - c.tasks[i].pc
  {
    var t := c.tasks[i];
    var p := Program(t.msg);
    if t.pc == q {
      c' := c;
      WorksNone(cfg, i, c);
    } else {
      assert p[t.pc..q][0] == p[t.pc] && p[t.pc..q][1..] == p[t.pc + 1..q];
      var c1 := CallAlone(cfg, c, i);
      c' := c1;
      if ExecOp(cfg, c.tables, p[t.pc]).ok {
        c' := TaskAloneTo(cfg, c1, i, q);
        WorksOn(cfg, i, c, c1, c');
      }
    }
  }

  /** Task i, left alone, does to the tables what executing the rest of its program does. */
  lemma TaskAlone(cfg: Config, c: Core, i: nat) returns (c': Core)
    requires i < |c.tasks| && TaskOk(c.tasks[i])
    requires !c.tasks[i].failed && !c.tasks[i].adding
    ensures Works(cfg, i, c, c')
    ensures |c'.tasks| == |c.tasks| && c' == Core(c'.tables, c.tasks[i := c'.tasks[i]])
    ensures c'.tasks[i].msg == c.tasks[i].msg
    ensures var r := Exec(cfg, c.tables, Program(c.tasks[i].msg)[c.tasks[i].pc..]);
            && c'.tables == r.tables
            && if r.ok then Complete(c'.tasks[i]) else c'.tasks[i].failed && !Complete(c'.tasks[i])
  {
    var t := c.tasks[i];
    assert Program(t.msg)[t.pc..|Program(t.msg)|] == Program(t.msg)[t.pc..];
    c' := TaskAloneTo(cfg, c, i, |Program(t.msg)|);
  }

  /** Processing one message without interference is a run of the interleaved system. */
  lemma ProcessAlone(cfg: Config, c: Core, m: BlockWithTransactions) returns (c': Core)
    requires Reachable(cfg, c)
    ensures Reachable(cfg, c') && c'.tables == Process(cfg, c.tables, m).tables
    ensures var r := Process(cfg, c.tables, m);
            if AddBlock(c.tables, m.block).Inserted? then
              && |c'.tasks| == |c.tasks| + 1 && c'.tasks[..|c.tasks|] == c.tasks
              && c'.tasks[|c.tasks|].msg == m
              && (r.ok ==> Complete(c'.tasks[|c.tasks|]))
            else c' == c
  {
    var g := AddBlock(c.tables, m.block);
    if g.Inserted? {
      var c1 := Core(g.tables, c.tasks + [Task(m, 0, false, false)]);
      ReachableStep(cfg, c, Open(m), c1);
      c' := TaskAlone(cfg, c1, |c.tasks|);
      WorksReachable(cfg, |c.tasks|, c1, c');
      assert Program(m)[0..] == Program(m);
    } else {
      c' := c;
    }
  }

  lemma ExecKeepsBlocks(cfg: Config, t: Tables, ops: seq<Op>)
    ensures Exec(cfg, t, ops).tables.blocks == t.blocks
    decreases |ops|
  {
    if ops != [] {
      ExecKeepsBlocks(cfg, ExecOp(cfg, t, ops[0]).tables, ops[1..]);
    }
  }

  /** Once a height has passed the gate, processing it again reports success and changes nothing, also when the first
      attempt failed half way: a failed message is never repaired by redelivery. */
  lemma RedeliveryIsNoOp(cfg: Config, t: Tables, m: BlockWithTransactions, again: BlockWithTransactions)
    requires AddBlock(t, m.block).Inserted?
    requires again.block.height == m.block.height && again.block.hash != ""
    ensures var r := Process(cfg, t, m); Process(cfg, r.tables, again) == Run(r.tables, true)
  {
    ExecKeepsBlocks(cfg, AddBlock(t, m.block).tables, Program(m));
  }

  /** Processing succeeds without any effect exactly when the height is taken, whatever became of the message then. */
  lemma NoOpIffTaken(cfg: Config, t: Tables, m: BlockWithTransactions)
    requires m.block.hash != ""
    ensures Process(cfg, t, m) == Run(t, true) <==> m.block.height in t.blocks
  {
    if m.block.height !in t.blocks {
      ExecKeepsBlocks(cfg, AddBlock(t, m.block).tables, Program(m));
    }
  }

  // ---------------------------------------------------------------- many messages, one after another

  /** Messages processed in sequence; an error is logged and the next message is taken. ok: none failed. */
  function ProcessAll(cfg: Config, t: Tables, ms: seq<BlockWithTransactions>): Run {
    if ms == [] then Run(t, true)
    else
      var before := ProcessAll(cfg, t, ms[..|ms| - 1]);
      var r := Process(cfg, before.tables, ms[|ms| - 1]);
      Run(r.tables, before.ok && r.ok)
  }

  /** What a sequence of deliveries leaves behind: all tasks complete, one for every delivered height. */
  ghost predicate Settled(c: Core, ms: seq<BlockWithTransactions>) {
    && AllComplete(c)
    && (forall i :: 0 <= i < |c.tasks| ==> c.tasks[i].msg in ms)
    && (forall m :: m in ms ==> Opening(c, m.block.height))
  }

  lemma {:induction false} ProcessAllReached(cfg: Config, ms: seq<BlockWithTransactions>) returns (c: Core)
    requires ProcessAll(cfg, EMPTY, ms).ok
    ensures Reachable(cfg, c) && c.tables == ProcessAll(cfg, EMPTY, ms).tables
    ensures Settled(c, ms)
  {
    if ms == [] {
      c := START;
      StartReachable(cfg);
    } else {
      var b := ProcessAllReached(cfg, ms[..|ms| - 1]);
      c := ReachNext(cfg, b, ms);
    }
  }

  lemma {:induction false} ReachNext(cfg: Config, b: Core, ms: seq<BlockWithTransactions>) returns (c: Core)
    requires ms != [] && Reachable(cfg, b) && Settled(b, ms[..|ms| - 1]) && Process(cfg, b.tables, ms[|ms| - 1]).ok
    ensures Reachable(cfg, c) && c.tables == Process(cfg, b.tables, ms[|ms| - 1]).tables && Settled(c, ms)
  {
    var front, m := ms[..|ms| - 1], ms[|ms| - 1];
    assert ms == front + [m];
    c := ProcessAlone(cfg, b, m);
    assert Gated(b) by { ReachableStructured(cfg, b); }
    StoredIfNotInserted(b.tables, m, cfg);
    SettledNext(cfg, b, front, m, c);
  }

  lemma StoredIfNotInserted(t: Tables, m: BlockWithTransactions, cfg: Config)
    requires Process(cfg, t, m).ok
    ensures !AddBlock(t, m.block).Inserted? ==> m.block.height in t.blocks
  {
  }

  lemma SettledNext(cfg: Config, b: Core, ms: seq<BlockWithTransactions>, m: BlockWithTransactions, c: Core)
    requires Settled(b, ms) && Gated(b)
    requires if AddBlock(b.tables, m.block).Inserted? then
               |c.tasks| == |b.tasks| + 1 && c.tasks[..|b.tasks|] == b.tasks
               && c.tasks[|b.tasks|].msg == m && Complete(c.tasks[|b.tasks|])
             else c == b && m.block.height in b.tables.blocks
    ensures Settled(c, ms + [m])
  {
    forall i | 0 <= i < |c.tasks| ensures Complete(c.tasks[i]) && c.tasks[i].msg in ms + [m] {
      if i < |b.tasks| { assert c.tasks[i] == c.tasks[..|b.tasks|][i] == b.tasks[i]; }
    }
    forall x | x in ms + [m] ensures Opening(c, x.block.height) {
      if x in ms || c == b {
        assert Opening(b, x.block.height);
        var i :| 0 <= i < |b.tasks| && Height(b.tasks[i]) == x.block.height;
        assert c.tasks[i] == c.tasks[..|b.tasks|][i] == b.tasks[i];
      } else {
        assert Height(c.tasks[|b.tasks|]) == x.block.height;
      }
    }
  }

  // ---------------------------------------------------------------- the same messages, whatever the deliveries

  /** The two sides delivered the same messages, and a height always came with the same message. */
  ghost predicate SameMessages(ms: seq<BlockWithTransactions>, ns: seq<BlockWithTransactions>) {
    && (forall m :: m in ms <==> m in ns)
    && (forall m, n :: m in ms && n in ms && m.block.height == n.block.height ==> m == n)
  }

  predicate NoRepeat<T(==)>(s: seq<T>) { forall i, j :: 0 <= i < j < |s| ==> s[i] != s[j] }

  lemma {:induction false} NoRepeatCount<T>(s: seq<T>, x: T)
    requires NoRepeat(s)
    ensures multiset(s)[x] == if x in s then 1 else 0
  {
    if s != [] {
      var front := s[..|s| - 1];
      assert s == front + [s[|s| - 1]];
      NoRepeatCount(front, x);
    }
  }

  lemma SameMembers<T>(s: seq<T>, t: seq<T>)
    requires NoRepeat(s) && NoRepeat(t) && forall x :: x in s <==> x in t
    ensures multiset(s) == multiset(t)
  {
    forall x ensures multiset(s)[x] == multiset(t)[x] {
      NoRepeatCount(s, x);
      NoRepeatCount(t, x);
    }
  }

  /** The messages that passed the gate are exactly those delivered. */
  lemma SettledMessages(c: Core, ms: seq<BlockWithTransactions>, m: BlockWithTransactions)
    requires Settled(c, ms) && SameMessages(ms, ms)
    ensures m in Messages(c.tasks) <==> m in ms
  {
    var got := Messages(c.tasks);
    if m in got {
      var i :| 0 <= i < |got| && got[i] == m;
      assert c.tasks[i].msg in ms;
    }
    if m in ms {
      assert Opening(c, m.block.height);
      var i :| 0 <= i < |c.tasks| && Height(c.tasks[i]) == m.block.height;
      assert c.tasks[i].msg == m && got[i] == m;
    }
  }

  lemma SettledAlike(c: Core, d: Core, ms: seq<BlockWithTransactions>, ns: seq<BlockWithTransactions>)
    requires Gated(c) && Gated(d) && Settled(c, ms) && Settled(d, ns) && SameMessages(ms, ns)
    ensures multiset(Messages(c.tasks)) == multiset(Messages(d.tasks))
  {
    forall m ensures m in Messages(c.tasks) <==> m in Messages(d.tasks) {
      SettledMessages(c, ms, m);
      SettledMessages(d, ns, m);
    }
    forall i, j | 0 <= i < j < |c.tasks| ensures Messages(c.tasks)[i] != Messages(c.tasks)[j] {
      assert Height(c.tasks[i]) != Height(c.tasks[j]);
    }
    forall i, j | 0 <= i < j < |d.tasks| ensures Messages(d.tasks)[i] != Messages(d.tasks)[j] {
      assert Height(d.tasks[i]) != Height(d.tasks[j]);
    }
    SameMembers(Messages(c.tasks), Messages(d.tasks));
  }

  /** Order independence of processing in sequence: any order, any duplicates, same tables. */
  lemma SequenceOrderIndependent(cfg: Config, ms: seq<BlockWithTransactions>, ns: seq<BlockWithTransactions>)
    requires cfg.arithmetic.Exact? && SameMessages(ms, ns)
    requires ProcessAll(cfg, EMPTY, ms).ok && ProcessAll(cfg, EMPTY, ns).ok
    ensures SameTables(ProcessAll(cfg, EMPTY, ms).tables, ProcessAll(cfg, EMPTY, ns).tables)
  {
    var c := ProcessAllReached(cfg, ms);
    var d := ProcessAllReached(cfg, ns);
    ReachableInv(cfg, c);
    ReachableInv(cfg, d);
    SettledAlike(c, d, ms, ns);
    OrderIndependent(cfg, c, d);
  }

  lemma PoolSettled(cfg: Config, s: P.Pool)
    requires P.Reachable(cfg, s) && P.Quiescent(s) && P.NoErrors(s)
    ensures Settled(s.core, s.taken)
  {
    P.RestComplete(cfg, s);
  }

  /** Order independence of the worker pool: any two runs that took the same messages, in any order, with any
      redeliveries and any interleaving of five workers, and came to rest without errors, end in the same tables. */
  lemma PoolOrderIndependent(cfg: Config, s: P.Pool, r: P.Pool)
    requires cfg.arithmetic.Exact?
    requires P.Reachable(cfg, s) && P.Quiescent(s) && P.NoErrors(s)
    requires P.Reachable(cfg, r) && P.Quiescent(r) && P.NoErrors(r)
    requires SameMessages(s.taken, r.taken)
    ensures SameTables(s.core.tables, r.core.tables)
  {
    P.CoreReachable(cfg, s);
    P.CoreReachable(cfg, r);
    ReachableInv(cfg, s.core);
    ReachableInv(cfg, r.core);
    PoolSettled(cfg, s);
    PoolSettled(cfg, r);
    SettledAlike(s.core, r.core, s.taken, r.taken);
    OrderIndependent(cfg, s.core, r.core);
  }

  /** The concurrent pool refines processing in sequence: the tables are those of any sequence of the same messages. */
  lemma PoolRefinesSequence(cfg: Config, s: P.Pool, ms: seq<BlockWithTransactions>)
    requires cfg.arithmetic.Exact?
    requires P.Reachable(cfg, s) && P.Quiescent(s) && P.NoErrors(s)
    requires ProcessAll(cfg, EMPTY, ms).ok && SameMessages(s.taken, ms)
    ensures SameTables(s.core.tables, ProcessAll(cfg, EMPTY, ms).tables)
  {
    P.CoreReachable(cfg, s);
    ReachableInv(cfg, s.core);
    PoolSettled(cfg, s);
    var d := ProcessAllReached(cfg, ms);
    ReachableInv(cfg, d);
    SettledAlike(s.core, d, s.taken, ms);
    OrderIndependent(cfg, s.core, d);
  }
}
