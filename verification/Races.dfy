/** Concurrent messages that name the same new account: when a task can fail at all, and exactly which messages can make
    each other fail. */
module Races {
  import opened Core
  import opened Deliveries
  import opened Handlers
  import opened Inputs
  import opened Model
  import opened Programs
  import opened Refinement
  import opened Success
  import opened Tables

  /** The account a task is about to create. */
  function Creating(t: Task): AccountKey
    requires t.pc < |Program(t.msg)| && Program(t.msg)[t.pc].GetAccount?
  {
    AccountKey(Program(t.msg)[t.pc].address, Program(t.msg)[t.pc].token)
  }

  /** This work item looked its next account up, found nothing, and meanwhile another task has taken the row. */
  predicate LostRace(cfg: Config, c: Core, i: nat) {
    && i < |c.tasks| && TaskOk(c.tasks[i]) && c.tasks[i].adding
    && KeyTaken(cfg.key, c.tables.accounts, Creating(c.tasks[i]))
  }

  /** A bulk insert of a proper transaction finds its addresses. */
  lemma ProperSaves(cfg: Config, c: Core, i: nat)
    requires Reachable(cfg, c) && i < |c.tasks| && Running(c.tasks[i]) && ProperMessage(c.tasks[i].msg)
    requires NextOp(c.tasks[i]).AddTransfers?
    ensures RowsRefer(c.tables.accounts, OpRows(NextOp(c.tasks[i])))
  {
    var t := c.tasks[i];
    ReachableStructured(cfg, c);
    ProperNaming(t.msg);
    var save := Program(t.msg)[t.pc];
    forall op | op in Done(t) && op.GetAccount? ensures Present(c.tables.accounts, op.address, op.token) {}
    CoveredRefers(c.tables.accounts, Done(t), save);
  }

  /** An acceptable call that names its account and finds the addresses of its rows does not fail. */
  lemma CallDoesNotFail(cfg: Config, t: Tables, op: Op)
    requires Acceptable(op) && Naming(op) && !op.AddAccount? && RowsRefer(t.accounts, OpRows(op))
    ensures !Apply(cfg, t, op).Failed?
  {
    if op.GetAccount? {
      var k, ks := AccountKey(op.address, op.token), Matching(t.accounts, op.address, op.token);
      if k in t.accounts { assert ks == {k}; } else { assert ks == {}; }
    } else if op.AddTransfers? {
      SaveOutcome(cfg, t, op);
    }
  }

  /** The next call of a valid and proper message fails if and only if it is an insert that lost a race. */
  lemma FailsIffLostRace(cfg: Config, c: Core, i: nat)
    requires Reachable(cfg, c) && i < |c.tasks| && Running(c.tasks[i])
    requires ValidMessage(c.tasks[i].msg) && ProperMessage(c.tasks[i].msg)
    ensures Apply(cfg, c.tables, NextOp(c.tasks[i])).Failed? <==> LostRace(cfg, c, i)
    ensures Advance(cfg, c, i).tasks[i].failed <==> LostRace(cfg, c, i)
  {
    var t := c.tasks[i];
    var op := Program(t.msg)[t.pc];
    assert TaskOk(t) by { ReachableStructured(cfg, c); }
    assert op in Program(t.msg);
    assert Acceptable(op) && Naming(op) && !op.AddAccount? by {
      ProperNaming(t.msg);
      AcceptableIffValid(t.msg);
    }
    if !t.adding {
      if op.AddTransfers? { ProperSaves(cfg, c, i); }
      CallDoesNotFail(cfg, c.tables, op);
    }
  }

  // ---------------------------------------------------------------- messages that cannot fail

  /** The two rows may not both be in the table, or are the same. */
  predicate Clash(key: Uniqueness, k: AccountKey, l: AccountKey) {
    k == l || (key.ByAddress? && k.address == l.address)
  }

  /** Each account the message names is there when it passes the gate, or no other message names one that clashes. */
  predicate Uncontended(key: Uniqueness, accounts: map<AccountKey, int>, m: BlockWithTransactions,
                        others: set<AccountKey>)
  {
    forall k :: k in Lookups(Program(m)) ==>
      || k in accounts
      || ((forall l :: l in others ==> !Clash(key, k, l))
          && (forall l :: l in Lookups(Program(m)) && Clash(key, k, l) ==> l == k))
  }

  /** The accounts that all tasks but i name. */
  function OtherLookups(c: Core, i: nat): set<AccountKey> {
    set j, k | 0 <= j < |c.tasks| && j != i && k in Lookups(Program(c.tasks[j].msg)) :: k
  }

  /** Task i is on course: it has not failed, and what it is about to create was neither there nor looked up by it. */
  predicate OnCourse(accounts: map<AccountKey, int>, t: Task) {
    && TaskOk(t) && !t.failed
    && (t.adding ==>
          && Creating(t) !in accounts
          && GetAccount(Creating(t).address, Creating(t).token) !in Done(t))
  }

  /** An account in the table was looked up by task i, or is named by another. */
  lemma LookedUpBySome(c: Core, l: AccountKey, i: nat)
    requires Sourced(c) && l in c.tables.accounts && i < |c.tasks|
    ensures || l in OtherLookups(c, i)
            || (l in Lookups(Program(c.tasks[i].msg)) && GetAccount(l.address, l.token) in Done(c.tasks[i]))
  {
    var look := GetAccount(l.address, l.token);
    assert Executed(c, look);
    var j :| 0 <= j < |c.tasks| && look in Done(c.tasks[j]);
    assert look in Program(c.tasks[j].msg);
    assert l in Lookups(Program(c.tasks[j].msg));
  }

  /** On course and uncontended, a task has not lost a race. */
  lemma NoRaceLost(cfg: Config, c: Core, i: nat, accounts: map<AccountKey, int>)
    requires Structured(cfg, c) && i < |c.tasks| && OnCourse(accounts, c.tasks[i])
    requires Uncontended(cfg.key, accounts, c.tasks[i].msg, OtherLookups(c, i))
    ensures !LostRace(cfg, c, i)
  {
    var t := c.tasks[i];
    if t.adding {
      var k := Creating(t);
      assert GetAccount(k.address, k.token) in Program(t.msg);
      assert k in Lookups(Program(t.msg));
      forall l | l in c.tables.accounts
        ensures l in OtherLookups(c, i) || (l in Lookups(Program(t.msg)) && l != k)
      {
        LookedUpBySome(c, l, i);
      }
    }
  }

  lemma {:induction false} AccountsStay(cfg: Config, run: seq<Core>, acts: seq<Action>, p: nat, q: nat)
    requires IsRun(cfg, run, acts) && p <= q <= |acts|
    ensures run[p].tables.accounts.Keys <= run[q].tables.accounts.Keys
    decreases q - p
  {
    if p < q {
      AccountsStay(cfg, run, acts, p, q - 1);
      RunStructured(cfg, run, acts, q - 1);
      AccountsGrow(cfg, run[q - 1], acts[q - 1], run[q]);
    }
  }

  /** A lookup that finds nothing is the first one of its account. */
  lemma FoundNothing(c: Core, i: nat)
    requires Ensured(c) && i < |c.tasks| && TaskOk(c.tasks[i]) && Running(c.tasks[i]) && !c.tasks[i].adding
    requires NextOp(c.tasks[i]).GetAccount? && Naming(NextOp(c.tasks[i]))
    requires Matching(c.tables.accounts, NextOp(c.tasks[i]).address, NextOp(c.tasks[i]).token) == {}
    ensures Creating(c.tasks[i]) !in c.tables.accounts && NextOp(c.tasks[i]) !in Done(c.tasks[i])
  {
    var k := Creating(c.tasks[i]);
    assert k in c.tables.accounts ==> k in Matching(c.tables.accounts, k.address, k.token);
    assert Present(c.tables.accounts, k.address, k.token) ==> k in c.tables.accounts;
  }

  /** A call of its own keeps a work item on course. */
  lemma OwnCall(cfg: Config, c: Core, i: nat, accounts: map<AccountKey, int>)
    requires Reachable(cfg, c) && i < |c.tasks| && Running(c.tasks[i])
    requires OnCourse(accounts, c.tasks[i]) && accounts.Keys <= c.tables.accounts.Keys
    requires ValidMessage(c.tasks[i].msg) && ProperMessage(c.tasks[i].msg)
    requires Uncontended(cfg.key, accounts, c.tasks[i].msg, OtherLookups(c, i))
    ensures var t := Advance(cfg, c, i).tasks[i]; t.msg == c.tasks[i].msg && (TaskOk(t) ==> OnCourse(accounts, t))
  {
    var t := c.tasks[i];
    ReachableStructured(cfg, c);
    NoRaceLost(cfg, c, i, accounts);
    FailsIffLostRace(cfg, c, i);
    match Apply(cfg, c.tables, NextOp(t)) {
      case Ok(tables) => assert Advance(cfg, c, i).tasks[i] == Task(t.msg, t.pc + 1, false, false);
      case NoAccount =>
        ProperNaming(t.msg);
        assert Program(t.msg)[t.pc] in Program(t.msg);
        FoundNothing(c, i);
        assert Advance(cfg, c, i).tasks[i] == Task(t.msg, t.pc, true, false);
        assert Done(Task(t.msg, t.pc, true, false)) == Done(t);
      case Failed =>
    }
  }

  /** One step keeps an uncontended task on course, unless the step is its outage. */
  lemma StaysOnCourse(cfg: Config, c: Core, a: Action, c': Core, i: nat, accounts: map<AccountKey, int>)
    requires Reachable(cfg, c) && Step(cfg, c, a, c') && a != Outage(i)
    requires i < |c.tasks| && OnCourse(accounts, c.tasks[i]) && accounts.Keys <= c.tables.accounts.Keys
    requires ValidMessage(c.tasks[i].msg) && ProperMessage(c.tasks[i].msg)
    requires Uncontended(cfg.key, accounts, c.tasks[i].msg, OtherLookups(c, i))
    ensures i < |c'.tasks| && c'.tasks[i].msg == c.tasks[i].msg && OnCourse(accounts, c'.tasks[i])
  {
    if a == Work(i) {
      ReachableStructured(cfg, c);
      KeepTasksOk(cfg, c, a, c');
      OwnCall(cfg, c, i, accounts);
    } else {
      assert c'.tasks[i] == c.tasks[i];
    }
  }

  lemma OthersGrow(cfg: Config, c: Core, a: Action, c': Core, i: nat)
    requires TasksOk(c) && Step(cfg, c, a, c') && i < |c.tasks|
    ensures OtherLookups(c, i) <= OtherLookups(c', i)
  {
    TasksAfter(cfg, c, a, c');
    forall k | k in OtherLookups(c, i) ensures k in OtherLookups(c', i) {
      var j :| 0 <= j < |c.tasks| && j != i && k in Lookups(Program(c.tasks[j].msg));
      assert k in Lookups(Program(c'.tasks[j].msg));
    }
  }

  lemma LessContended(key: Uniqueness, accounts: map<AccountKey, int>, m: BlockWithTransactions,
                      some: set<AccountKey>, all: set<AccountKey>)
    requires some <= all && Uncontended(key, accounts, m, all)
    ensures Uncontended(key, accounts, m, some)
  {
  }

  /** Without an outage of its own, a valid and proper message that nobody contends with never fails, whatever all other
      tasks do in between, fail or not: from the gate on it is on course at every step. */
  lemma {:induction false} CannotFail(cfg: Config, run: seq<Core>, acts: seq<Action>, i: nat, p: nat, q: nat,
                                      m: BlockWithTransactions)
    requires IsRun(cfg, run, acts) && p <= q <= |acts|
    requires i < |run[p].tasks| && run[p].tasks[i] == Task(m, 0, false, false)
    requires forall n :: p <= n < q ==> acts[n] != Outage(i)
    requires ValidMessage(m) && ProperMessage(m)
    requires Uncontended(cfg.key, run[p].tables.accounts, m, OtherLookups(run[q], i))
    ensures i < |run[q].tasks| && run[q].tasks[i].msg == m && OnCourse(run[p].tables.accounts, run[q].tasks[i])
    decreases q - p
  {
    if p < q {
      var accounts := run[p].tables.accounts;
      assert Step(cfg, run[q - 1], acts[q - 1], run[q - 1 + 1]);
      UncontendedBefore(cfg, run, acts, i, p, q, m);
      CannotFail(cfg, run, acts, i, p, q - 1, m);
      AccountsStay(cfg, run, acts, p, q - 1);
      StaysOnCourse(cfg, run[q - 1], acts[q - 1], run[q], i, accounts);
    }
  }

  /** What is uncontended at a step was so one step before. */
  lemma UncontendedBefore(cfg: Config, run: seq<Core>, acts: seq<Action>, i: nat, p: nat, q: nat,
                          m: BlockWithTransactions)
    requires IsRun(cfg, run, acts) && p < q <= |acts| && i < |run[p].tasks|
    requires Uncontended(cfg.key, run[p].tables.accounts, m, OtherLookups(run[q], i))
    ensures Reachable(cfg, run[q - 1]) && i < |run[q - 1].tasks|
    ensures Uncontended(cfg.key, run[p].tables.accounts, m, OtherLookups(run[q - 1], i))
  {
    assert Step(cfg, run[q - 1], acts[q - 1], run[q - 1 + 1]);
    RunReachable(cfg, run, acts, q - 1);
    ReachableStructured(cfg, run[q - 1]);
    ProgressOnly(cfg, run, acts, i, p, q - 1);
    OthersGrow(cfg, run[q - 1], acts[q - 1], run[q], i);
    LessContended(cfg.key, run[p].tables.accounts, m, OtherLookups(run[q - 1], i), OtherLookups(run[q], i));
  }

  lemma RunReachable(cfg: Config, run: seq<Core>, acts: seq<Action>, n: nat)
    requires IsRun(cfg, run, acts) && n <= |acts|
    ensures Reachable(cfg, run[n])
  {
    assert IsRun(cfg, run[..n + 1], acts[..n]) && run[..n + 1][|acts[..n]|] == run[n];
  }

  // ---------------------------------------------------------------- messages that make each other fail

  /** A message that nothing but an account key can refuse. */
  predicate Sane(m: BlockWithTransactions) { ValidMessage(m) && ProperMessage(m) && m.block.hash != "" }

  function LookupsOf(m: BlockWithTransactions): set<AccountKey> { Lookups(Program(m)) }

  /** The next message passes the gate and runs alone up to call q. */
  lemma OpenAndWork(cfg: Config, ms: set<BlockWithTransactions>, c: Core, m: BlockWithTransactions, q: nat)
    returns (c': Core)
    requires Calm(cfg, ms, c) && m in ms && AddBlock(c.tables, m.block).Inserted? && q <= |Program(m)|
    ensures Calm(cfg, ms, c') && |c'.tasks| == |c.tasks| + 1 && c'.tasks[..|c.tasks|] == c.tasks
    ensures var r, t := Exec(cfg, AddBlock(c.tables, m.block).tables, Program(m)[..q]), c'.tasks[|c.tasks|];
            && c'.tables == r.tables && t.msg == m
            && (if r.ok then t == Task(m, q, false, false) else t.failed)
  {
    var i := |c.tasks|;
    var c1 := Core(AddBlock(c.tables, m.block).tables, c.tasks + [Task(m, 0, false, false)]);
    CalmStep(cfg, ms, c, Open(m), c1);
    c' := TaskAloneTo(cfg, c1, i, q);
    CalmWorks(cfg, ms, i, c1, c');
    assert c'.tasks[..i] == c.tasks;
  }

  /** The first lookup of a shared account. */
  lemma {:induction false} FirstShared(ops: seq<Op>, ks: set<AccountKey>) returns (p: nat)
    requires !(Lookups(ops) !! ks)
    ensures p < |ops| && ops[p].GetAccount? && AccountKey(ops[p].address, ops[p].token) in ks
    ensures Lookups(ops[..p]) !! ks
  {
    var n := |ops| - 1;
    assert forall op :: op in ops[..n] && op.GetAccount? ==> AccountKey(op.address, op.token) in Lookups(ops[..n]);
    if Lookups(ops[..n]) !! ks {
      p := n;
      var k :| k in Lookups(ops) && k in ks;
      var op :| op in ops && op.GetAccount? && AccountKey(op.address, op.token) == k;
      assert op == ops[n];
    } else {
      p := FirstShared(ops[..n], ks);
      assert ops[..n][..p] == ops[..p];
    }
  }

  /** The calls of a sane message up to call q go through where the key allows its accounts. */
  lemma SanePrefix(cfg: Config, t: Tables, m: BlockWithTransactions, q: nat)
    requires Sane(m) && q <= |Program(m)| && Coherent(cfg.key, t.accounts.Keys + LookupsOf(m))
    ensures var r := Exec(cfg, t, Program(m)[..q]);
            && r.ok && r.tables.blocks == t.blocks
            && t.accounts.Keys <= r.tables.accounts.Keys <= t.accounts.Keys + Lookups(Program(m)[..q])
  {
    var ops := Program(m)[..q];
    ProperNaming(m);
    AcceptableIffValid(m);
    CoveredPrefix(Program(m), q);
    assert forall op :: op in ops ==> op in Program(m);
    assert Lookups(ops) <= LookupsOf(m);
    ExecSucceeds(cfg, t, ops);
    ExecAccounts(cfg, t, ops);
    ExecKeepsBlocks(cfg, t, ops);
  }

  /** After a whole sane message all its accounts are there. */
  lemma SaneWhole(cfg: Config, t: Tables, m: BlockWithTransactions)
    requires Sane(m) && Exec(cfg, t, Program(m)).ok
    ensures Exec(cfg, t, Program(m)).tables.accounts.Keys == t.accounts.Keys + LookupsOf(m)
  {
    var after := Exec(cfg, t, Program(m)).tables.accounts;
    ProperNaming(m);
    ExecAccounts(cfg, t, Program(m));
    forall k | k in LookupsOf(m) ensures k in after {
      var op :| op in Program(m) && op.GetAccount? && AccountKey(op.address, op.token) == k;
      assert Present(after, op.address, op.token);
    }
  }

  /** A task at a lookup that finds nothing, and the insert it makes next. */
  lemma LookupStep(cfg: Config, c: Core, i: nat, m: BlockWithTransactions, p: nat)
    requires i < |c.tasks| && p < |Program(m)| && c.tasks[i] == Task(m, p, false, false)
    requires Program(m)[p].GetAccount? && Naming(Program(m)[p])
    requires AccountKey(Program(m)[p].address, Program(m)[p].token) !in c.tables.accounts
    ensures Step(cfg, c, Work(i), Core(c.tables, c.tasks[i := Task(m, p, true, false)]))
  {
    var op := Program(m)[p];
    assert Matching(c.tables.accounts, op.address, op.token) == {};
    assert Advance(cfg, c, i) == Core(c.tables, c.tasks[i := Task(m, p, true, false)]);
  }

  lemma InsertStep(cfg: Config, c: Core, i: nat, m: BlockWithTransactions, p: nat)
    requires i < |c.tasks| && p < |Program(m)| && c.tasks[i] == Task(m, p, true, false)
    requires Program(m)[p].GetAccount?
    requires KeyTaken(cfg.key, c.tables.accounts, AccountKey(Program(m)[p].address, Program(m)[p].token))
    ensures Step(cfg, c, Work(i), Core(c.tables, c.tasks[i := Task(m, p, true, true)]))
  {
    assert Advance(cfg, c, i) == Core(c.tables, c.tasks[i := Task(m, p, true, true)]);
  }

  /** The first message of a run, alone up to call q. */
  lemma FirstComes(cfg: Config, ms: set<BlockWithTransactions>, n: BlockWithTransactions, q: nat) returns (c: Core)
    requires n in ms && Sane(n) && Coherent(cfg.key, LookupsOf(n)) && q <= |Program(n)|
    ensures Calm(cfg, ms, c) && c.tasks == [Task(n, q, false, false)] && c.tables.blocks.Keys == {n.block.height}
    ensures var gated := AddBlock(EMPTY, n.block).tables;
            && Exec(cfg, gated, Program(n)[..q]) == Run(c.tables, true)
            && c.tables.accounts.Keys <= Lookups(Program(n)[..q])
  {
    var gated := AddBlock(EMPTY, n.block).tables;
    assert gated.accounts.Keys + LookupsOf(n) == LookupsOf(n);
    SanePrefix(cfg, gated, n, q);
    StartCalm(cfg, ms);
    c := OpenAndWork(cfg, ms, START, n, q);
    assert c.tasks == [c.tasks[0]];
  }

  /** The loser is past the gate and about to look up the first account that it shares with the winner. */
  lemma LoserComes(cfg: Config, m: BlockWithTransactions, n: BlockWithTransactions) returns (c: Core, p: nat)
    requires Sane(n) && !(LookupsOf(n) !! LookupsOf(m)) && Coherent(cfg.key, LookupsOf(n))
    ensures Calm(cfg, {m, n}, c) && c.tables.blocks.Keys == {n.block.height}
    ensures p < |Program(n)| && c.tasks == [Task(n, p, false, false)] && Program(n)[p].GetAccount?
    ensures AccountKey(Program(n)[p].address, Program(n)[p].token) in LookupsOf(m)
    ensures c.tables.accounts.Keys <= Lookups(Program(n)[..p]) && Lookups(Program(n)[..p]) !! LookupsOf(m)
  {
    p := FirstShared(Program(n), LookupsOf(m));
    c := FirstComes(cfg, {m, n}, n, p);
  }

  /** It looks the account up and finds nothing. */
  lemma LoserWaits(cfg: Config, m: BlockWithTransactions, n: BlockWithTransactions) returns (c: Core, p: nat)
    requires Sane(n) && !(LookupsOf(n) !! LookupsOf(m)) && Coherent(cfg.key, LookupsOf(n))
    ensures Calm(cfg, {m, n}, c) && c.tables.blocks.Keys == {n.block.height}
    ensures p < |Program(n)| && c.tasks == [Task(n, p, true, false)] && Program(n)[p].GetAccount?
    ensures AccountKey(Program(n)[p].address, Program(n)[p].token) in LookupsOf(m)
    ensures c.tables.accounts.Keys <= LookupsOf(n)
  {
    var b;
    b, p := LoserComes(cfg, m, n);
    assert Naming(Program(n)[p]) by {
      ProperNaming(n);
      assert Program(n)[p] in Program(n);
    }
    LookupStep(cfg, b, 0, n, p);
    c := Core(b.tables, [Task(n, p, true, false)]);
    CalmStep(cfg, {m, n}, b, Work(0), c);
    LookupsPrefix(Program(n), p);
  }

  lemma PartCoherent(key: Uniqueness, some: set<AccountKey>, all: set<AccountKey>)
    requires some <= all && Coherent(key, all)
    ensures Coherent(key, some)
  {
  }

  lemma LookupsPrefix(ops: seq<Op>, p: nat)
    requires p <= |ops|
    ensures Lookups(ops[..p]) <= Lookups(ops)
  {
    assert forall op :: op in ops[..p] ==> op in ops;
  }

  /** Any two sane messages that share an account, however late they name it, if the key allows all their accounts: a
      run without any outage in which one is completed and the other has failed, because between its lookup and its
      insert of the shared account the first created it. No redelivery repairs the failed message. */
  lemma RaceLoses(cfg: Config, m: BlockWithTransactions, n: BlockWithTransactions) returns (c: Core)
    requires Sane(m) && Sane(n) && m.block.height != n.block.height
    requires !(LookupsOf(n) !! LookupsOf(m)) && Coherent(cfg.key, LookupsOf(m) + LookupsOf(n))
    ensures Calm(cfg, {m, n}, c) && |c.tasks| == 2
    ensures c.tasks[0].msg == n && c.tasks[0].failed && c.tasks[1].msg == m && Complete(c.tasks[1])
    ensures Process(cfg, c.tables, n) == Run(c.tables, true)
  {
    PartCoherent(cfg.key, LookupsOf(n), LookupsOf(m) + LookupsOf(n));
    var b, p := LoserWaits(cfg, m, n);
    var gated := AddBlock(b.tables, m.block).tables;
    SanePrefix(cfg, gated, m, |Program(m)|);
    assert Program(m)[..|Program(m)|] == Program(m);
    SaneWhole(cfg, gated, m);
    var b1 := OpenAndWork(cfg, {m, n}, b, m, |Program(m)|);
    assert b1.tasks[0] == b1.tasks[..1][0] == Task(n, p, true, false);
    InsertStep(cfg, b1, 0, n, p);
    c := Core(b1.tables, b1.tasks[0 := Task(n, p, true, true)]);
    CalmStep(cfg, {m, n}, b1, Work(0), c);
    NoOpIffTaken(cfg, c.tables, n);
  }

  /** A sane message that names an account the key does not allow beside those there fails, also when left alone. */
  lemma FailsNext(cfg: Config, ms: set<BlockWithTransactions>, c: Core, n: BlockWithTransactions) returns (d: Core)
    requires Calm(cfg, ms, c) && n in ms && Sane(n) && n.block.height !in c.tables.blocks
    requires Coherent(cfg.key, c.tables.accounts.Keys)
    requires !Coherent(cfg.key, c.tables.accounts.Keys + LookupsOf(n))
    ensures Calm(cfg, ms, d) && exists i :: 0 <= i < |d.tasks| && d.tasks[i].failed
  {
    ProperSucceedsIff(cfg, c.tables, n);
    assert Program(n)[..|Program(n)|] == Program(n);
    d := OpenAndWork(cfg, ms, c, n, |Program(n)|);
    assert d.tasks[|c.tasks|].failed;
  }

  /** The first message alone, completed. */
  lemma FirstCompletes(cfg: Config, ms: set<BlockWithTransactions>, m: BlockWithTransactions) returns (c: Core)
    requires m in ms && Sane(m) && Coherent(cfg.key, LookupsOf(m))
    ensures Calm(cfg, ms, c) && c.tables.accounts.Keys == LookupsOf(m) && c.tables.blocks.Keys == {m.block.height}
  {
    assert Program(m)[..|Program(m)|] == Program(m);
    c := FirstComes(cfg, ms, m, |Program(m)|);
    SaneWhole(cfg, AddBlock(EMPTY, m.block).tables, m);
  }

  /** If the key does not allow the accounts of two messages beside each other, one fails even when they are processed
      one after the other. */
  lemma IncoherentFails(cfg: Config, m: BlockWithTransactions, n: BlockWithTransactions) returns (c: Core)
    requires Sane(m) && Sane(n) && (m.block.height != n.block.height || m == n)
    requires !Coherent(cfg.key, LookupsOf(m) + LookupsOf(n))
    ensures Calm(cfg, {m, n}, c) && exists i :: 0 <= i < |c.tasks| && c.tasks[i].failed
  {
    if Coherent(cfg.key, LookupsOf(m)) {
      assert LookupsOf(m) + LookupsOf(m) == LookupsOf(m);
      var b := FirstCompletes(cfg, {m, n}, m);
      c := FailsNext(cfg, {m, n}, b, n);
    } else {
      StartCalm(cfg, {m, n});
      assert START.tables.accounts.Keys + LookupsOf(m) == LookupsOf(m);
      c := FailsNext(cfg, {m, n}, START, m);
    }
  }

  // ---------------------------------------------------------------- exactly which messages can

  /** No two messages name accounts that clash, nor does one message name two. */
  ghost predicate Apart(key: Uniqueness, ms: set<BlockWithTransactions>) {
    forall m, n, k, l :: m in ms && n in ms && k in LookupsOf(m) && l in LookupsOf(n) && Clash(key, k, l) ==>
      m == n && k == l
  }

  predicate NoneFailed(c: Core) { forall i :: 0 <= i < |c.tasks| ==> !c.tasks[i].failed }

  /** Tasks are opened one by one, each at the start of its message. */
  lemma {:induction false} OpenedAt(cfg: Config, run: seq<Core>, acts: seq<Action>, i: nat, q: nat) returns (p: nat)
    requires IsRun(cfg, run, acts) && q <= |acts| && i < |run[q].tasks|
    ensures p <= q && i < |run[p].tasks| && run[p].tasks[i] == Task(run[q].tasks[i].msg, 0, false, false)
  {
    assert Step(cfg, run[q - 1], acts[q - 1], run[q - 1 + 1]);
    RunStructured(cfg, run, acts, q - 1);
    TasksAfter(cfg, run[q - 1], acts[q - 1], run[q]);
    if i < |run[q - 1].tasks| {
      p := OpenedAt(cfg, run, acts, i, q - 1);
    } else {
      p := q;
      StepShape(cfg, run[q - 1], acts[q - 1], run[q]);
    }
  }

  lemma {:induction false} CalmMessages(cfg: Config, ms: set<BlockWithTransactions>, run: seq<Core>, acts: seq<Action>,
                                        n: nat)
    requires IsRun(cfg, run, acts) && CalmActs(ms, acts) && n <= |acts|
    ensures forall i :: 0 <= i < |run[n].tasks| ==> run[n].tasks[i].msg in ms
  {
    if n > 0 {
      assert Step(cfg, run[n - 1], acts[n - 1], run[n - 1 + 1]);
      CalmMessages(cfg, ms, run, acts, n - 1);
      RunStructured(cfg, run, acts, n - 1);
      TasksAfter(cfg, run[n - 1], acts[n - 1], run[n]);
    }
  }

  /** Messages that are apart do not contend. */
  lemma ApartUncontended(cfg: Config, ms: set<BlockWithTransactions>, c: Core, i: nat, accounts: map<AccountKey, int>)
    requires Apart(cfg.key, ms) && Gated(c) && i < |c.tasks|
    requires forall j :: 0 <= j < |c.tasks| ==> c.tasks[j].msg in ms
    ensures Uncontended(cfg.key, accounts, c.tasks[i].msg, OtherLookups(c, i))
  {
    var m := c.tasks[i].msg;
    forall k, l | k in LookupsOf(m) && l in OtherLookups(c, i) ensures !Clash(cfg.key, k, l) {
      var j :| 0 <= j < |c.tasks| && j != i && l in Lookups(Program(c.tasks[j].msg));
      assert Height(c.tasks[i]) != Height(c.tasks[j]);
      assert l in LookupsOf(c.tasks[j].msg);
    }
    forall k, l | k in LookupsOf(m) && l in LookupsOf(m) && Clash(cfg.key, k, l) ensures k == l {}
  }

  lemma ApartNoneFails(cfg: Config, ms: set<BlockWithTransactions>, c: Core)
    requires (forall m :: m in ms ==> Sane(m)) && Apart(cfg.key, ms) && Calm(cfg, ms, c)
    ensures NoneFailed(c)
  {
    var run: seq<Core>, acts: seq<Action> :| IsRun(cfg, run, acts) && run[|acts|] == c && CalmActs(ms, acts);
    CalmMessages(cfg, ms, run, acts, |acts|);
    RunStructured(cfg, run, acts, |acts|);
    forall i: nat | i < |c.tasks| ensures !c.tasks[i].failed {
      var p: nat := OpenedAt(cfg, run, acts, i, |acts|);
      ApartUncontended(cfg, ms, c, i, run[p].tables.accounts);
      CannotFail(cfg, run, acts, i, p, |acts|, c.tasks[i].msg);
    }
  }

  lemma MoreCalm(cfg: Config, some: set<BlockWithTransactions>, all: set<BlockWithTransactions>, c: Core)
    requires some <= all && Calm(cfg, some, c)
    ensures Calm(cfg, all, c)
  {
    var run, acts :| IsRun(cfg, run, acts) && run[|acts|] == c && CalmActs(some, acts);
    assert CalmActs(all, acts);
  }

  /** Two clashing accounts make a message fail. */
  lemma ClashFails(cfg: Config, m: BlockWithTransactions, n: BlockWithTransactions, k: AccountKey, l: AccountKey)
    returns (c: Core)
    requires Sane(m) && Sane(n) && (m.block.height != n.block.height || m == n)
    requires k in LookupsOf(m) && l in LookupsOf(n) && Clash(cfg.key, k, l) && !(m == n && k == l)
    ensures Calm(cfg, {m, n}, c) && exists i :: 0 <= i < |c.tasks| && c.tasks[i].failed
  {
    if Coherent(cfg.key, LookupsOf(m) + LookupsOf(n)) {
      assert k in LookupsOf(m) + LookupsOf(n) && l in LookupsOf(m) + LookupsOf(n);
      assert k == l;
      c := RaceLoses(cfg, m, n);
      assert c.tasks[0].failed;
    } else {
      c := IncoherentFails(cfg, m, n);
    }
  }

  predicate Separate(ms: set<BlockWithTransactions>) {
    forall m, n :: m in ms && n in ms && m.block.height == n.block.height ==> m == n
  }

  lemma ClashInSetFails(cfg: Config, ms: set<BlockWithTransactions>) returns (c: Core)
    requires (forall m :: m in ms ==> Sane(m)) && Separate(ms) && !Apart(cfg.key, ms)
    ensures Calm(cfg, ms, c) && !NoneFailed(c)
  {
    var m, n, k, l :| m in ms && n in ms && k in LookupsOf(m) && l in LookupsOf(n) && Clash(cfg.key, k, l)
                      && !(m == n && k == l);
    c := ClashFails(cfg, m, n, k, l);
    MoreCalm(cfg, {m, n}, ms, c);
  }

  /** Exactly when none of these messages can fail: whatever the interleaving, without an outage no task fails, if and
      only if no account that one names clashes with one that it or another names. */
  lemma NoneFailsIff(cfg: Config, ms: set<BlockWithTransactions>)
    requires (forall m :: m in ms ==> Sane(m)) && Separate(ms)
    ensures (forall c :: Calm(cfg, ms, c) ==> NoneFailed(c)) <==> Apart(cfg.key, ms)
  {
    if Apart(cfg.key, ms) {
      forall c | Calm(cfg, ms, c) ensures NoneFailed(c) { ApartNoneFails(cfg, ms, c); }
    } else {
      var c := ClashInSetFails(cfg, ms);
    }
  }

  // ---------------------------------------------------------------- an input

  lemma MintIsSane(height: int, k: AccountKey)
    requires ProperKey(k)
    ensures var m := MintMessage(height, k.token, k.address, "5"); Sane(m) && LookupsOf(m) == {k}
  {
    var m := MintMessage(height, k.token, k.address, "5");
    var e := MintEvent(k.token, k.address, "5");
    OneDigit("5");
    MintMessageCalls(height, k.token, k.address, "5");
    MintEventCalls(k.token, k.address, "5");
    assert forall x :: x in m.transactions[0].events ==> x == e;
    assert Program(m)[1] in Program(m);
  }

  /** Two valid mints of 5 to the same new account: in some run without outages the second is lost. */
  lemma MintLosesRace(cfg: Config) returns (c: Core)
    ensures var m, n := MintMessage(1, FOO.token, FOO.address, "5"), MintMessage(2, FOO.token, FOO.address, "5");
            && Sane(m) && Sane(n) && Calm(cfg, {m, n}, c)
            && |c.tasks| == 2 && c.tasks[0].msg == n && c.tasks[0].failed && Complete(c.tasks[1])
            && Process(cfg, c.tables, n) == Run(c.tables, true)
  {
    var m, n := MintMessage(1, FOO.token, FOO.address, "5"), MintMessage(2, FOO.token, FOO.address, "5");
    MintIsSane(1, FOO);
    MintIsSane(2, FOO);
    c := RaceLoses(cfg, m, n);
  }
}
