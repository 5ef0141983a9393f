/** The tables together with the progress of every message that passed the block gate: one atomic repository call
    at a time, calls of different messages interleaved in any order, and any call may fail or never happen. */
module Core {
  import opened Float64
  import opened Model
  import opened Programs
  import opened Sums
  import opened Tables

  /** A message past the gate: pc calls of its program are done; adding means the lookup at pc found nothing. */
  datatype Task = Task(msg: BlockWithTransactions, pc: nat, adding: bool, failed: bool)

  datatype Core = Core(tables: Tables, tasks: seq<Task>)

  const START := Core(EMPTY, [])

  predicate Complete(t: Task) { t.pc == |Program(t.msg)| }

  predicate Running(t: Task) { !t.failed && t.pc < |Program(t.msg)| }

  function NextOp(t: Task): Op
    requires t.pc < |Program(t.msg)|
  {
    var op := Program(t.msg)[t.pc];
    if t.adding && op.GetAccount? then AddAccount(op.address, op.token) else op
  }

  /** The calls of a task that are done. */
  function Done(t: Task): seq<Op> {
    var p := Program(t.msg);
    if t.pc <= |p| then p[..t.pc] else p
  }

  /** The next call of task i, atomically. */
  function Advance(cfg: Config, c: Core, i: nat): Core
    requires i < |c.tasks| && Running(c.tasks[i])
  {
    var t := c.tasks[i];
    match Apply(cfg, c.tables, NextOp(t))
    case Ok(tables) => Core(tables, c.tasks[i := Task(t.msg, t.pc + 1, false, false)])
    case NoAccount => Core(c.tables, c.tasks[i := t.(adding := true)])
    case Failed => Core(c.tables, c.tasks[i := t.(failed := true)])
  }

  datatype Action = Open(msg: BlockWithTransactions) | Work(task: nat) | Outage(task: nat)

  predicate Step(cfg: Config, c: Core, a: Action, c': Core) {
    match a
    case Open(m) =>
      var g := AddBlock(c.tables, m.block);
      g.Inserted? && c' == Core(g.tables, c.tasks + [Task(m, 0, false, false)])
    case Work(i) => i < |c.tasks| && Running(c.tasks[i]) && c' == Advance(cfg, c, i)
    case Outage(i) =>
      i < |c.tasks| && Running(c.tasks[i]) && c' == c.(tasks := c.tasks[i := c.tasks[i].(failed := true)])
  }

  // ---------------------------------------------------------------- invariants

  predicate Executed(c: Core, op: Op) { exists i :: 0 <= i < |c.tasks| && op in Done(c.tasks[i]) }

  predicate TaskOk(t: Task) {
    && t.pc <= |Program(t.msg)|
    && (t.adding ==> t.pc < |Program(t.msg)| && Program(t.msg)[t.pc].GetAccount?)
    && (Complete(t) ==> !t.failed)
  }

  predicate TasksOk(c: Core) { forall i :: 0 <= i < |c.tasks| ==> TaskOk(c.tasks[i]) }

  predicate HasBlock(t: Tables, b: Block) { b.height in t.blocks && t.blocks[b.height] == b }

  function Height(t: Task): int { t.msg.block.height }

  predicate DistinctHeights(c: Core) {
    forall i, j :: 0 <= i < j < |c.tasks| ==> Height(c.tasks[i]) != Height(c.tasks[j])
  }

  predicate Opening(c: Core, h: int) { exists i :: 0 <= i < |c.tasks| && Height(c.tasks[i]) == h }

  /** Exactly one task per stored height: a height's calls are never made twice. */
  ghost predicate Gated(c: Core) {
    && (forall i :: 0 <= i < |c.tasks| ==> HasBlock(c.tables, c.tasks[i].msg.block))
    && DistinctHeights(c)
    && (forall h :: h in c.tables.blocks ==> Opening(c, h))
  }

  /** Every account row has a proper key, and was looked up by some task. */
  ghost predicate Sourced(c: Core) {
    forall k :: k in c.tables.accounts ==> ProperKey(k) && Executed(c, GetAccount(k.address, k.token))
  }

  predicate Present(accounts: map<AccountKey, int>, address: string, token: string) {
    address != "" ==>
      HasAddress(accounts, address) && (token != "" ==> AccountKey(address, token) in accounts)
  }

  /** Every completed lookup left its account in the table. */
  ghost predicate Ensured(c: Core) {
    forall i, op :: 0 <= i < |c.tasks| && op in Done(c.tasks[i]) && op.GetAccount? ==>
      Present(c.tables.accounts, op.address, op.token)
  }

  function TaskDelta(k: AccountKey): Task -> int { (t: Task) => SumBy(Done(t), Delta(k)) }

  /** Each balance is the sum of what the completed calls added to it. */
  ghost predicate Balanced(c: Core) {
    forall k :: ProperKey(k) ==> Balance(c.tables.accounts, k) == SumBy(c.tasks, TaskDelta(k))
  }

  /** What a call adds to all balances of a token together. */
  function TokenDelta(token: string): Op -> int {
    (op: Op) => if op.Increment? && op.token == token && op.address != "" then Amount(op) else 0
  }

  function TaskTokenDelta(token: string): Task -> int { (t: Task) => SumBy(Done(t), TokenDelta(token)) }

  ghost predicate Totalled(c: Core) {
    forall token :: token != "" ==> Total(c.tables.accounts, token) == SumBy(c.tasks, TaskTokenDelta(token))
  }

  function OpRowCount(a: Arithmetic, r: TransferRow): Op -> int { (op: Op) => SumBy(OpStored(a, op), CountIn(r)) }

  function TaskRowCount(a: Arithmetic, r: TransferRow): Task -> int { (t: Task) => SumBy(Done(t), OpRowCount(a, r)) }

  function TaskRowEffect(a: Arithmetic, k: AccountKey): Task -> int { (t: Task) => SumBy(Done(t), OpRowEffect(a, k)) }

  /** The transfers table holds exactly the rows of the completed bulk inserts, their amounts converted to the column's
      type, all of them valid and referring. */
  ghost predicate Logged(cfg: Config, c: Core) {
    && (forall r :: SumBy(c.tables.transfers, CountIn(r)) == SumBy(c.tasks, TaskRowCount(cfg.arithmetic, r)))
    && (forall k :: SumBy(c.tables.transfers, RowEffect(k)) == SumBy(c.tasks, TaskRowEffect(cfg.arithmetic, k)))
    && (forall i :: 0 <= i < |c.tasks| ==> RowsChecked(Done(c.tasks[i])))
    && RowsRefer(c.tables.accounts, c.tables.transfers)
  }

  function OpTxRows(op: Op): seq<TransactionRow> {
    if op.AddTransactions? then TransactionRows(op.height, op.txs) else []
  }

  function OpTxCount(r: TransactionRow): Op -> int { (op: Op) => SumBy(OpTxRows(op), CountIn(r)) }

  function TaskTxCount(r: TransactionRow): Task -> int { (t: Task) => SumBy(Done(t), OpTxCount(r)) }

  ghost predicate Stored(c: Core) {
    forall r :: SumBy(c.tables.transactions, CountIn(r)) == SumBy(c.tasks, TaskTxCount(r))
  }

  /** Under the generated key an address owns a single row. */
  ghost predicate Keyed(cfg: Config, c: Core) {
    cfg.key.ByAddress? ==>
      forall k, l :: k in c.tables.accounts && l in c.tables.accounts && k.address == l.address ==> k == l
  }

  /** What no step breaks whatever the balances are: no amount matters here. */
  ghost predicate Structured(cfg: Config, c: Core) {
    TasksOk(c) && Gated(c) && Sourced(c) && Ensured(c) && Keyed(cfg, c)
  }

  ghost predicate Inv(cfg: Config, c: Core) {
    Structured(cfg, c) && Balanced(c) && Totalled(c) && Logged(cfg, c) && Stored(c)
  }

  lemma StartInv(cfg: Config)
    ensures Inv(cfg, START)
  {
  }

  // ---------------------------------------------------------------- the shape of a step

  /** A completed call: its result on the tables. */
  ghost predicate Effect(cfg: Config, t: Tables, op: Op, t': Tables) {
    var r := ExecOp(cfg, t, op);
    r.ok && r.tables == t'
  }

  /** A step either opens a task, changes only bookkeeping, or completes one call of one task. */
  ghost predicate Opened(c: Core, m: BlockWithTransactions, c': Core) {
    && m.block.height !in c.tables.blocks
    && c' == Core(c.tables.(blocks := c.tables.blocks[m.block.height := m.block]), c.tasks + [Task(m, 0, false, false)])
  }

  ghost predicate Quiet(c: Core, i: nat, c': Core) {
    && i < |c.tasks| && Running(c.tasks[i])
    && c'.tables == c.tables
    && exists adding, failed :: c'.tasks == c.tasks[i := Task(c.tasks[i].msg, c.tasks[i].pc, adding, failed)]
  }

  ghost predicate Completed(cfg: Config, c: Core, i: nat, op: Op, c': Core) {
    && i < |c.tasks| && Running(c.tasks[i])
    && op == Program(c.tasks[i].msg)[c.tasks[i].pc]
    && Effect(cfg, c.tables, op, c'.tables)
    && c'.tasks == c.tasks[i := Task(c.tasks[i].msg, c.tasks[i].pc + 1, false, false)]
  }

  lemma StepShape(cfg: Config, c: Core, a: Action, c': Core)
    requires TasksOk(c) && Step(cfg, c, a, c')
    ensures match a
            case Open(m) => Opened(c, m, c')
            case Outage(i) => Quiet(c, i, c')
            case Work(i) =>
              i < |c.tasks| && Running(c.tasks[i]) &&
              (Quiet(c, i, c') || Completed(cfg, c, i, Program(c.tasks[i].msg)[c.tasks[i].pc], c'))
  {
    match a {
      case Open(m) =>
      case Outage(i) =>
        var t := c.tasks[i];
        assert c'.tasks == c.tasks[i := Task(t.msg, t.pc, t.adding, true)];
      case Work(i) =>
        var t := c.tasks[i];
        assert TaskOk(t);
        ProgramShape(t.msg);
        var op := Program(t.msg)[t.pc];
        assert op in Program(t.msg);
        match Apply(cfg, c.tables, NextOp(t)) {
          case Ok(tables) => CompletedEffect(cfg, c.tables, t, tables);
          case NoAccount => assert c'.tasks == c.tasks[i := Task(t.msg, t.pc, true, t.failed)];
          case Failed => assert c'.tasks == c.tasks[i := Task(t.msg, t.pc, t.adding, true)];
        }
    }
  }

  /** An AddAccount that still succeeds means the lookup before it would still find nothing. */
  lemma CompletedEffect(cfg: Config, t: Tables, task: Task, t': Tables)
    requires TaskOk(task) && Running(task) && Apply(cfg, t, NextOp(task)) == Ok(t')
    requires !Program(task.msg)[task.pc].AddAccount?
    ensures Effect(cfg, t, Program(task.msg)[task.pc], t')
  {
    if task.adding {
      var op := NextOp(task);
      var address, token := op.address, op.token;
      var ks := Matching(t.accounts, address, token);
      assert forall k :: k in ks ==> k.address == address && k.token == token;
      assert ks == {};
    }
  }

  lemma DoneGrows(t: Task)
    requires Running(t)
    ensures Done(Task(t.msg, t.pc + 1, false, false)) == Done(t) + [Program(t.msg)[t.pc]]
  {
  }

  lemma SumCompleted(cfg: Config, c: Core, i: nat, op: Op, c': Core, f: Op -> int, g: Task -> int)
    requires Completed(cfg, c, i, op, c')
    requires forall t :: g(t) == SumBy(Done(t), f)
    ensures SumBy(c'.tasks, g) == SumBy(c.tasks, g) + f(op)
  {
    var t := c.tasks[i];
    DoneGrows(t);
    SumSnoc(Done(t), op, f);
    SumUpdate(c.tasks, i, Task(t.msg, t.pc + 1, false, false), g);
  }

  lemma SumQuiet(c: Core, i: nat, c': Core, f: Op -> int, g: Task -> int)
    requires Quiet(c, i, c')
    requires forall t :: g(t) == SumBy(Done(t), f)
    ensures SumBy(c'.tasks, g) == SumBy(c.tasks, g)
  {
    var t := c.tasks[i];
    var adding, failed :| c'.tasks == c.tasks[i := Task(t.msg, t.pc, adding, failed)];
    assert Done(Task(t.msg, t.pc, adding, failed)) == Done(t);
    SumUpdate(c.tasks, i, Task(t.msg, t.pc, adding, failed), g);
  }

  lemma SumOpened(c: Core, m: BlockWithTransactions, c': Core, f: Op -> int, g: Task -> int)
    requires Opened(c, m, c')
    requires forall t :: g(t) == SumBy(Done(t), f)
    ensures SumBy(c'.tasks, g) == SumBy(c.tasks, g)
  {
    SumSnoc(c.tasks, Task(m, 0, false, false), g);
    assert Done(Task(m, 0, false, false)) == [];
  }

  /** A step that completes no call changes no sum over completed calls. */
  lemma SumIdle(cfg: Config, c: Core, a: Action, c': Core, f: Op -> int, g: Task -> int)
    requires TasksOk(c) && Step(cfg, c, a, c')
    requires a.Work? ==> Quiet(c, a.task, c')
    requires forall t :: g(t) == SumBy(Done(t), f)
    ensures SumBy(c'.tasks, g) == SumBy(c.tasks, g)
  {
    StepShape(cfg, c, a, c');
    match a {
      case Open(m) => SumOpened(c, m, c', f, g);
      case Work(i) => SumQuiet(c, i, c', f, g);
      case Outage(i) => SumQuiet(c, i, c', f, g);
    }
  }

  // ---------------------------------------------------------------- what a completed call does to the accounts

  /** The accounts after a completed call, case by case. */
  lemma EffectOnAccounts(cfg: Config, t: Tables, op: Op, t': Tables)
    requires Effect(cfg, t, op, t')
    ensures t'.blocks == t.blocks
    ensures !op.GetAccount? && !op.AddAccount? && !op.Increment? ==> t'.accounts == t.accounts
    ensures op.Increment? ==>
              t'.accounts == IncrementBalance(cfg.arithmetic, t.accounts, AccountKey(op.address, op.token), Amount(op))
    ensures !op.AddTransfers? ==> t'.transfers == t.transfers
    ensures !op.AddTransactions? ==> t'.transactions == t.transactions
    ensures op.GetAccount? && t'.accounts != t.accounts ==>
              var k := AccountKey(op.address, op.token);
              ProperKey(k) && !KeyTaken(cfg.key, t.accounts, k) && t'.accounts == t.accounts[k := 0]
  {
  }

  lemma LookupPresent(cfg: Config, t: Tables, op: Op, t': Tables)
    requires Effect(cfg, t, op, t') && op.GetAccount?
    ensures Present(t'.accounts, op.address, op.token)
  {
    var ks := Matching(t.accounts, op.address, op.token);
    if ks != {} {
      var k :| k in ks;
      assert op.address != "" ==> k.address == op.address;
    } else {
      var k := AccountKey(op.address, op.token);
      assert k in t'.accounts;
    }
  }

  /** Rows are never deleted. */
  lemma AccountsGrow(cfg: Config, c: Core, a: Action, c': Core)
    requires TasksOk(c) && Step(cfg, c, a, c')
    ensures c.tables.accounts.Keys <= c'.tables.accounts.Keys
    ensures forall x :: HasAddress(c.tables.accounts, x) ==> HasAddress(c'.tables.accounts, x)
  {
    StepShape(cfg, c, a, c');
    if a.Work? && !Quiet(c, a.task, c') {
      EffectOnAccounts(cfg, c.tables, Program(c.tasks[a.task].msg)[c.tasks[a.task].pc], c'.tables);
    }
    forall x | HasAddress(c.tables.accounts, x) ensures HasAddress(c'.tables.accounts, x) {
      var k :| k in c.tables.accounts && k.address == x;
      assert k in c'.tables.accounts;
    }
  }

  /** The calls done never shrink; the only new one is the call just completed. */
  lemma DoneStep(cfg: Config, c: Core, a: Action, c': Core, i: nat, op: Op)
    requires TasksOk(c) && Step(cfg, c, a, c') && i < |c'.tasks|
    ensures i < |c.tasks| && op in Done(c.tasks[i]) ==> op in Done(c'.tasks[i])
    ensures op in Done(c'.tasks[i]) ==>
              || (i < |c.tasks| && op in Done(c.tasks[i]))
              || (a == Work(i) && i < |c.tasks| && Completed(cfg, c, i, op, c'))
  {
    StepShape(cfg, c, a, c');
    if i == |c.tasks| {
      assert Done(c'.tasks[i]) == [];
    } else if c'.tasks[i].pc == c.tasks[i].pc {
      assert c'.tasks[i].msg == c.tasks[i].msg;
      assert Done(c'.tasks[i]) == Done(c.tasks[i]);
    } else {
      assert a == Work(i);
      DoneGrows(c.tasks[i]);
    }
  }

  lemma ExecutedStep(cfg: Config, c: Core, a: Action, c': Core, op: Op)
    requires TasksOk(c) && Step(cfg, c, a, c') && Executed(c, op)
    ensures Executed(c', op)
  {
    var i :| 0 <= i < |c.tasks| && op in Done(c.tasks[i]);
    StepShape(cfg, c, a, c');
    DoneStep(cfg, c, a, c', i, op);
  }

  // ---------------------------------------------------------------- preservation, one invariant at a time

  lemma KeepTasksOk(cfg: Config, c: Core, a: Action, c': Core)
    requires TasksOk(c) && Step(cfg, c, a, c')
    ensures TasksOk(c')
  {
    StepShape(cfg, c, a, c');
    forall i | 0 <= i < |c'.tasks| ensures TaskOk(c'.tasks[i]) {
      if i < |c.tasks| { assert TaskOk(c.tasks[i]); }
    }
  }

  /** The old tasks keep their messages; a task is added only together with its block row. */
  lemma TasksAfter(cfg: Config, c: Core, a: Action, c': Core)
    requires TasksOk(c) && Step(cfg, c, a, c')
    ensures |c'.tasks| == |c.tasks| + if a.Open? then 1 else 0
    ensures forall i :: 0 <= i < |c.tasks| ==> c'.tasks[i].msg == c.tasks[i].msg
    ensures a.Open? ==> a.msg.block.height !in c.tables.blocks && c'.tasks[|c.tasks|].msg == a.msg
    ensures c'.tables.blocks == if a.Open? then c.tables.blocks[a.msg.block.height := a.msg.block] else c.tables.blocks
  {
    StepShape(cfg, c, a, c');
    if a.Work? && !Quiet(c, a.task, c') {
      EffectOnAccounts(cfg, c.tables, Program(c.tasks[a.task].msg)[c.tasks[a.task].pc], c'.tables);
    }
  }

  lemma KeepGated(cfg: Config, c: Core, a: Action, c': Core)
    requires TasksOk(c) && Gated(c) && Step(cfg, c, a, c')
    ensures Gated(c')
  {
    TasksAfter(cfg, c, a, c');
    forall i | 0 <= i < |c'.tasks| ensures HasBlock(c'.tables, c'.tasks[i].msg.block) {
      if i < |c.tasks| { assert HasBlock(c.tables, c.tasks[i].msg.block); }
    }
    forall i, j | 0 <= i < j < |c'.tasks| ensures Height(c'.tasks[i]) != Height(c'.tasks[j]) {
      assert Height(c'.tasks[i]) == Height(c.tasks[i]);
      assert HasBlock(c.tables, c.tasks[i].msg.block);
      if j < |c.tasks| { assert Height(c.tasks[i]) != Height(c.tasks[j]); }
    }
    forall h | h in c'.tables.blocks ensures Opening(c', h) {
      if h in c.tables.blocks {
        assert Opening(c, h);
        var i :| 0 <= i < |c.tasks| && Height(c.tasks[i]) == h;
        assert Height(c'.tasks[i]) == h;
      } else {
        assert Height(c'.tasks[|c.tasks|]) == h;
      }
    }
  }

  lemma KeepSourced(cfg: Config, c: Core, a: Action, c': Core)
    requires TasksOk(c) && Sourced(c) && Step(cfg, c, a, c')
    ensures Sourced(c')
  {
    StepShape(cfg, c, a, c');
    forall k | k in c'.tables.accounts
      ensures ProperKey(k) && Executed(c', GetAccount(k.address, k.token))
    {
      var op := GetAccount(k.address, k.token);
      if k in c.tables.accounts {
        ExecutedStep(cfg, c, a, c', op);
      } else {
        var t := c.tasks[a.task];
        ProgramShape(t.msg);
        EffectOnAccounts(cfg, c.tables, Program(t.msg)[t.pc], c'.tables);
        assert Program(t.msg)[t.pc] == op;
        DoneGrows(t);
        assert op in Done(c'.tasks[a.task]);
      }
    }
  }

  lemma KeepEnsured(cfg: Config, c: Core, a: Action, c': Core)
    requires TasksOk(c) && Ensured(c) && Step(cfg, c, a, c')
    ensures Ensured(c')
  {
    AccountsGrow(cfg, c, a, c');
    forall i, op | 0 <= i < |c'.tasks| && op in Done(c'.tasks[i]) && op.GetAccount?
      ensures Present(c'.tables.accounts, op.address, op.token)
    {
      DoneStep(cfg, c, a, c', i, op);
      if i < |c.tasks| && op in Done(c.tasks[i]) {
      } else {
        LookupPresent(cfg, c.tables, op, c'.tables);
      }
    }
  }

  lemma KeepKeyed(cfg: Config, c: Core, a: Action, c': Core)
    requires TasksOk(c) && Keyed(cfg, c) && Step(cfg, c, a, c')
    ensures Keyed(cfg, c')
  {
    StepShape(cfg, c, a, c');
    if a.Work? && !Quiet(c, a.task, c') {
      EffectOnAccounts(cfg, c.tables, Program(c.tasks[a.task].msg)[c.tasks[a.task].pc], c'.tables);
    }
  }

  /** When a balance is about to change, its row is there. */
  lemma IncrementFinds(cfg: Config, c: Core, i: nat)
    requires TasksOk(c) && Ensured(c) && i < |c.tasks| && Running(c.tasks[i])
    requires NextOp(c.tasks[i]).Increment?
    ensures var op := NextOp(c.tasks[i]);
            op.address != "" && op.token != "" ==> AccountKey(op.address, op.token) in c.tables.accounts
  {
    var t := c.tasks[i];
    ProgramShape(t.msg);
    assert GuardedAt(Program(t.msg), t.pc);
    var op := Program(t.msg)[t.pc];
    assert GetAccount(op.address, op.token) in Done(t);
  }

  /** A completed call whose row is there changes one balance, and one total, by its amount. */
  lemma EffectOnBalance(cfg: Config, t: Tables, op: Op, t': Tables, k: AccountKey)
    requires cfg.arithmetic.Exact? && Effect(cfg, t, op, t') && !op.AddAccount? && ProperKey(k)
    requires op.Increment? && op.address != "" && op.token != "" ==> AccountKey(op.address, op.token) in t.accounts
    ensures Balance(t'.accounts, k) == Balance(t.accounts, k) + Delta(k)(op)
  {
    EffectOnAccounts(cfg, t, op, t');
  }

  lemma EffectOnTotal(cfg: Config, t: Tables, op: Op, t': Tables, token: string)
    requires cfg.arithmetic.Exact? && Effect(cfg, t, op, t') && !op.AddAccount? && token != ""
    requires op.Increment? && op.address != "" && op.token != "" ==> AccountKey(op.address, op.token) in t.accounts
    requires AccountKey("", token) !in t.accounts
    ensures Total(t'.accounts, token) == Total(t.accounts, token) + TokenDelta(token)(op)
  {
    EffectOnAccounts(cfg, t, op, t');
    if op.Increment? {
      var k := AccountKey(op.address, op.token);
      if k in t.accounts {
        TotalWrite(t.accounts, k, t.accounts[k] + Amount(op), token);
      }
    } else if op.GetAccount? && t'.accounts != t.accounts {
      TotalWrite(t.accounts, AccountKey(op.address, op.token), 0, token);
    }
  }

  /** A call that completes: never a bare insert, and an increment finds its row. */
  lemma WorkCompletes(cfg: Config, c: Core, a: Action, c': Core) returns (op: Op)
    requires TasksOk(c) && Ensured(c) && Step(cfg, c, a, c') && a.Work? && !Quiet(c, a.task, c')
    ensures Completed(cfg, c, a.task, op, c') && !op.AddAccount?
    ensures op.Increment? && op.address != "" && op.token != "" ==>
              AccountKey(op.address, op.token) in c.tables.accounts
  {
    StepShape(cfg, c, a, c');
    var t := c.tasks[a.task];
    op := Program(t.msg)[t.pc];
    ProgramShape(t.msg);
    assert op in Program(t.msg);
    if op.Increment? { IncrementFinds(cfg, c, a.task); }
  }

  lemma KeepBalance(cfg: Config, c: Core, a: Action, c': Core, k: AccountKey)
    requires cfg.arithmetic.Exact? && ProperKey(k)
    requires TasksOk(c) && Ensured(c) && Step(cfg, c, a, c')
    requires Balance(c.tables.accounts, k) == SumBy(c.tasks, TaskDelta(k))
    ensures Balance(c'.tables.accounts, k) == SumBy(c'.tasks, TaskDelta(k))
  {
    if a.Work? && !Quiet(c, a.task, c') {
      var op := WorkCompletes(cfg, c, a, c');
      SumCompleted(cfg, c, a.task, op, c', Delta(k), TaskDelta(k));
      EffectOnBalance(cfg, c.tables, op, c'.tables, k);
    } else {
      SumIdle(cfg, c, a, c', Delta(k), TaskDelta(k));
    }
  }

  lemma KeepBalanced(cfg: Config, c: Core, a: Action, c': Core)
    requires cfg.arithmetic.Exact?
    requires TasksOk(c) && Ensured(c) && Balanced(c) && Step(cfg, c, a, c')
    ensures Balanced(c')
  {
    forall k | ProperKey(k)
      ensures Balance(c'.tables.accounts, k) == SumBy(c'.tasks, TaskDelta(k))
    {
      KeepBalance(cfg, c, a, c', k);
    }
  }

  lemma KeepTotal(cfg: Config, c: Core, a: Action, c': Core, token: string)
    requires cfg.arithmetic.Exact? && token != ""
    requires TasksOk(c) && Ensured(c) && Step(cfg, c, a, c') && AccountKey("", token) !in c.tables.accounts
    requires Total(c.tables.accounts, token) == SumBy(c.tasks, TaskTokenDelta(token))
    ensures Total(c'.tables.accounts, token) == SumBy(c'.tasks, TaskTokenDelta(token))
  {
    if a.Work? && !Quiet(c, a.task, c') {
      var op := WorkCompletes(cfg, c, a, c');
      SumCompleted(cfg, c, a.task, op, c', TokenDelta(token), TaskTokenDelta(token));
      EffectOnTotal(cfg, c.tables, op, c'.tables, token);
    } else {
      SumIdle(cfg, c, a, c', TokenDelta(token), TaskTokenDelta(token));
    }
  }

  lemma KeepTotalled(cfg: Config, c: Core, a: Action, c': Core)
    requires cfg.arithmetic.Exact?
    requires TasksOk(c) && Ensured(c) && Sourced(c) && Totalled(c) && Step(cfg, c, a, c')
    ensures Totalled(c')
  {
    forall token | token != ""
      ensures Total(c'.tables.accounts, token) == SumBy(c'.tasks, TaskTokenDelta(token))
    {
      KeepTotal(cfg, c, a, c', token);
    }
  }

  /** A completed call appends its rows, valid and referring, to the transfers table, and its transactions to theirs. */
  lemma EffectOnLogs(cfg: Config, t: Tables, op: Op, t': Tables)
    requires Effect(cfg, t, op, t') && !op.AddAccount?
    ensures t'.transfers == t.transfers + OpStored(cfg.arithmetic, op)
    ensures (op.AddTransactions? ==> op.height in t.blocks) ==> t'.transactions == t.transactions + OpTxRows(op)
    ensures RowsValid(OpRows(op)) && RowsRefer(t.accounts, OpStored(cfg.arithmetic, op))
  {
    EffectOnAccounts(cfg, t, op, t');
    StoredAlike(cfg.arithmetic, t.accounts, OpRows(op));
    if op.AddTransfers? { SaveOutcome(cfg, t, op); }
  }

  lemma KeepRowCounts(cfg: Config, c: Core, a: Action, c': Core, r: TransferRow)
    requires TasksOk(c) && Step(cfg, c, a, c')
    requires SumBy(c.tables.transfers, CountIn(r)) == SumBy(c.tasks, TaskRowCount(cfg.arithmetic, r))
    ensures SumBy(c'.tables.transfers, CountIn(r)) == SumBy(c'.tasks, TaskRowCount(cfg.arithmetic, r))
  {
    StepShape(cfg, c, a, c');
    if a.Work? && !Quiet(c, a.task, c') {
      var t := c.tasks[a.task];
      var op := Program(t.msg)[t.pc];
      ProgramShape(t.msg);
      SumCompleted(cfg, c, a.task, op, c', OpRowCount(cfg.arithmetic, r), TaskRowCount(cfg.arithmetic, r));
      EffectOnLogs(cfg, c.tables, op, c'.tables);
      SumAppend(c.tables.transfers, OpStored(cfg.arithmetic, op), CountIn(r));
    } else {
      SumIdle(cfg, c, a, c', OpRowCount(cfg.arithmetic, r), TaskRowCount(cfg.arithmetic, r));
    }
  }

  lemma KeepRowEffects(cfg: Config, c: Core, a: Action, c': Core, k: AccountKey)
    requires TasksOk(c) && Step(cfg, c, a, c')
    requires SumBy(c.tables.transfers, RowEffect(k)) == SumBy(c.tasks, TaskRowEffect(cfg.arithmetic, k))
    ensures SumBy(c'.tables.transfers, RowEffect(k)) == SumBy(c'.tasks, TaskRowEffect(cfg.arithmetic, k))
  {
    StepShape(cfg, c, a, c');
    if a.Work? && !Quiet(c, a.task, c') {
      var t := c.tasks[a.task];
      var op := Program(t.msg)[t.pc];
      ProgramShape(t.msg);
      SumCompleted(cfg, c, a.task, op, c', OpRowEffect(cfg.arithmetic, k), TaskRowEffect(cfg.arithmetic, k));
      EffectOnLogs(cfg, c.tables, op, c'.tables);
      SumAppend(c.tables.transfers, OpStored(cfg.arithmetic, op), RowEffect(k));
    } else {
      SumIdle(cfg, c, a, c', OpRowEffect(cfg.arithmetic, k), TaskRowEffect(cfg.arithmetic, k));
    }
  }

  lemma KeepLogged(cfg: Config, c: Core, a: Action, c': Core)
    requires TasksOk(c) && Logged(cfg, c) && Step(cfg, c, a, c')
    ensures Logged(cfg, c')
  {
    forall r ensures SumBy(c'.tables.transfers, CountIn(r)) == SumBy(c'.tasks, TaskRowCount(cfg.arithmetic, r)) {
      KeepRowCounts(cfg, c, a, c', r);
    }
    forall k ensures SumBy(c'.tables.transfers, RowEffect(k)) == SumBy(c'.tasks, TaskRowEffect(cfg.arithmetic, k)) {
      KeepRowEffects(cfg, c, a, c', k);
    }
    KeepRowsChecked(cfg, c, a, c');
  }

  lemma KeepRowsChecked(cfg: Config, c: Core, a: Action, c': Core)
    requires TasksOk(c) && Step(cfg, c, a, c')
    requires forall i :: 0 <= i < |c.tasks| ==> RowsChecked(Done(c.tasks[i]))
    requires RowsRefer(c.tables.accounts, c.tables.transfers)
    ensures forall i :: 0 <= i < |c'.tasks| ==> RowsChecked(Done(c'.tasks[i]))
    ensures RowsRefer(c'.tables.accounts, c'.tables.transfers)
  {
    StepShape(cfg, c, a, c');
    AccountsGrow(cfg, c, a, c');
    if a.Work? && !Quiet(c, a.task, c') {
      var t := c.tasks[a.task];
      var op := Program(t.msg)[t.pc];
      ProgramShape(t.msg);
      EffectOnLogs(cfg, c.tables, op, c'.tables);
    }
    forall i | 0 <= i < |c'.tasks| ensures RowsChecked(Done(c'.tasks[i])) {
      forall op | op in Done(c'.tasks[i]) ensures RowsValid(OpRows(op)) {
        DoneStep(cfg, c, a, c', i, op);
      }
    }
  }

  lemma KeepTxCount(cfg: Config, c: Core, a: Action, c': Core, r: TransactionRow)
    requires TasksOk(c) && Gated(c) && Step(cfg, c, a, c')
    requires SumBy(c.tables.transactions, CountIn(r)) == SumBy(c.tasks, TaskTxCount(r))
    ensures SumBy(c'.tables.transactions, CountIn(r)) == SumBy(c'.tasks, TaskTxCount(r))
  {
    StepShape(cfg, c, a, c');
    if a.Work? && !Quiet(c, a.task, c') {
      var op := Program(c.tasks[a.task].msg)[c.tasks[a.task].pc];
      StoresUnderBlock(c, a.task);
      SumCompleted(cfg, c, a.task, op, c', OpTxCount(r), TaskTxCount(r));
      TxCountAfter(cfg, c.tables, op, c'.tables, r);
    } else {
      SumIdle(cfg, c, a, c', OpTxCount(r), TaskTxCount(r));
    }
  }

  lemma TxCountAfter(cfg: Config, t: Tables, op: Op, t': Tables, r: TransactionRow)
    requires Effect(cfg, t, op, t') && !op.AddAccount? && (op.AddTransactions? ==> op.height in t.blocks)
    ensures SumBy(t'.transactions, CountIn(r)) == SumBy(t.transactions, CountIn(r)) + OpTxCount(r)(op)
  {
    EffectOnLogs(cfg, t, op, t');
    SumAppend(t.transactions, OpTxRows(op), CountIn(r));
  }

  /** Transactions are stored under their message's block, which the gate has stored before. */
  lemma StoresUnderBlock(c: Core, i: nat)
    requires Gated(c) && i < |c.tasks| && Running(c.tasks[i])
    ensures var op := Program(c.tasks[i].msg)[c.tasks[i].pc];
            !op.AddAccount? && (op.AddTransactions? ==> op.height in c.tables.blocks)
  {
    var t := c.tasks[i];
    ProgramShape(t.msg);
    assert Program(t.msg)[t.pc] in Program(t.msg);
    assert HasBlock(c.tables, t.msg.block);
  }

  lemma KeepStored(cfg: Config, c: Core, a: Action, c': Core)
    requires TasksOk(c) && Gated(c) && Stored(c) && Step(cfg, c, a, c')
    ensures Stored(c')
  {
    forall r ensures SumBy(c'.tables.transactions, CountIn(r)) == SumBy(c'.tasks, TaskTxCount(r)) {
      KeepTxCount(cfg, c, a, c', r);
    }
  }

  /** Every step of every interleaving keeps the structure, with integer and with binary64 balances. */
  lemma StepStructured(cfg: Config, c: Core, a: Action, c': Core)
    requires Structured(cfg, c) && Step(cfg, c, a, c')
    ensures Structured(cfg, c')
  {
    KeepTasksOk(cfg, c, a, c');
    KeepGated(cfg, c, a, c');
    KeepSourced(cfg, c, a, c');
    KeepEnsured(cfg, c, a, c');
    KeepKeyed(cfg, c, a, c');
  }

  /** Every step of every interleaving keeps the whole invariant. */
  lemma StepInv(cfg: Config, c: Core, a: Action, c': Core)
    requires cfg.arithmetic.Exact?
    requires Inv(cfg, c) && Step(cfg, c, a, c')
    ensures Inv(cfg, c')
  {
    StepStructured(cfg, c, a, c');
    KeepBalanced(cfg, c, a, c');
    KeepTotalled(cfg, c, a, c');
    KeepLogged(cfg, c, a, c');
    KeepStored(cfg, c, a, c');
  }

  // ---------------------------------------------------------------- runs

  /** Any finite interleaving of steps from empty tables. */
  ghost predicate IsRun(cfg: Config, run: seq<Core>, acts: seq<Action>) {
    && |run| == |acts| + 1 && run[0] == START
    && forall i :: 0 <= i < |acts| ==> Step(cfg, run[i], acts[i], run[i + 1])
  }

  ghost predicate Reachable(cfg: Config, c: Core) {
    exists run, acts :: IsRun(cfg, run, acts) && run[|acts|] == c
  }

  lemma StartReachable(cfg: Config)
    ensures Reachable(cfg, START)
  {
    var none: seq<Action> := [];
    assert IsRun(cfg, [START], none) && [START][|none|] == START;
  }

  lemma {:induction false} RunStructured(cfg: Config, run: seq<Core>, acts: seq<Action>, n: nat)
    requires IsRun(cfg, run, acts) && n <= |acts|
    ensures Structured(cfg, run[n])
  {
    if n > 0 {
      RunStructured(cfg, run, acts, n - 1);
      StepStructured(cfg, run[n - 1], acts[n - 1], run[n]);
    }
  }

  lemma ReachableStructured(cfg: Config, c: Core)
    requires Reachable(cfg, c)
    ensures Structured(cfg, c)
  {
    var run, acts :| IsRun(cfg, run, acts) && run[|acts|] == c;
    RunStructured(cfg, run, acts, |acts|);
  }

  /** The tables of transactions and transfers, with integer and with binary64 columns. */
  lemma {:induction false} RunRecorded(cfg: Config, run: seq<Core>, acts: seq<Action>, n: nat)
    requires IsRun(cfg, run, acts) && n <= |acts|
    ensures Logged(cfg, run[n]) && Stored(run[n])
  {
    if n == 0 {
      StartRecorded(cfg);
    } else {
      RunRecorded(cfg, run, acts, n - 1);
      RunStructured(cfg, run, acts, n - 1);
      StepRecorded(cfg, run[n - 1], acts[n - 1], run[n - 1 + 1]);
    }
  }

  lemma StartRecorded(cfg: Config)
    ensures Logged(cfg, START) && Stored(START)
  {
  }

  lemma StepRecorded(cfg: Config, c: Core, a: Action, c': Core)
    requires Structured(cfg, c) && Logged(cfg, c) && Stored(c) && Step(cfg, c, a, c')
    ensures Logged(cfg, c') && Stored(c')
  {
    KeepLogged(cfg, c, a, c');
    KeepStored(cfg, c, a, c');
  }

  lemma ReachableRecorded(cfg: Config, c: Core)
    requires Reachable(cfg, c)
    ensures Logged(cfg, c) && Stored(c)
  {
    var run, acts :| IsRun(cfg, run, acts) && run[|acts|] == c;
    RunRecorded(cfg, run, acts, |acts|);
  }

  lemma {:induction false} RunInv(cfg: Config, run: seq<Core>, acts: seq<Action>, n: nat)
    requires cfg.arithmetic.Exact? && IsRun(cfg, run, acts) && n <= |acts|
    ensures Inv(cfg, run[n])
  {
    if n == 0 {
      StartInv(cfg);
    } else {
      RunInv(cfg, run, acts, n - 1);
      StepInv(cfg, run[n - 1], acts[n - 1], run[n]);
    }
  }

  lemma ReachableInv(cfg: Config, c: Core)
    requires cfg.arithmetic.Exact? && Reachable(cfg, c)
    ensures Inv(cfg, c)
  {
    var run, acts :| IsRun(cfg, run, acts) && run[|acts|] == c;
    RunInv(cfg, run, acts, |acts|);
  }

  lemma ExtendRun(cfg: Config, run: seq<Core>, acts: seq<Action>, a: Action, c': Core)
    requires IsRun(cfg, run, acts) && Step(cfg, run[|acts|], a, c')
    ensures IsRun(cfg, run + [c'], acts + [a])
  {
    var run', acts' := run + [c'], acts + [a];
    forall i | 0 <= i < |acts'| ensures Step(cfg, run'[i], acts'[i], run'[i + 1]) {
      if i < |acts| { assert Step(cfg, run[i], acts[i], run[i + 1]); }
    }
  }

  lemma ReachableStep(cfg: Config, c: Core, a: Action, c': Core)
    requires Reachable(cfg, c) && Step(cfg, c, a, c')
    ensures Reachable(cfg, c')
  {
    var run, acts :| IsRun(cfg, run, acts) && run[|acts|] == c;
    ExtendRun(cfg, run, acts, a, c');
    assert (run + [c'])[|acts + [a]|] == c';
  }

  // ---------------------------------------------------------------- a task left alone

  /** c' is reached from c by calls of task i only. */
  ghost predicate Works(cfg: Config, i: nat, c: Core, c': Core) {
    exists cs: seq<Core> :: WorkChain(cfg, i, cs) && cs[0] == c && cs[|cs| - 1] == c'
  }

  ghost predicate WorkChain(cfg: Config, i: nat, cs: seq<Core>) {
    cs != [] && forall n :: 0 <= n < |cs| - 1 ==> Step(cfg, cs[n], Work(i), cs[n + 1])
  }

  lemma WorksNone(cfg: Config, i: nat, c: Core)
    ensures Works(cfg, i, c, c)
  {
    assert WorkChain(cfg, i, [c]);
  }

  lemma WorksStep(cfg: Config, i: nat, b: Core, c: Core, d: Core)
    requires Works(cfg, i, b, c) && Step(cfg, c, Work(i), d)
    ensures Works(cfg, i, b, d)
  {
    var cs :| WorkChain(cfg, i, cs) && cs[0] == b && cs[|cs| - 1] == c;
    var ds := cs + [d];
    forall n | 0 <= n < |ds| - 1 ensures Step(cfg, ds[n], Work(i), ds[n + 1]) {
      if n < |cs| - 1 { assert Step(cfg, cs[n], Work(i), cs[n + 1]); }
    }
    assert WorkChain(cfg, i, ds) && ds[0] == b;
  }

  lemma WorksOn(cfg: Config, i: nat, b: Core, c: Core, d: Core)
    requires Works(cfg, i, b, c) && Works(cfg, i, c, d)
    ensures Works(cfg, i, b, d)
  {
    var cs :| WorkChain(cfg, i, cs) && cs[0] == c && cs[|cs| - 1] == d;
    WorksAlong(cfg, i, b, cs);
  }

  lemma {:induction false} WorksAlong(cfg: Config, i: nat, b: Core, cs: seq<Core>)
    requires WorkChain(cfg, i, cs) && Works(cfg, i, b, cs[0])
    ensures Works(cfg, i, b, cs[|cs| - 1])
  {
    var n := |cs| - 1;
    if n > 0 {
      assert Step(cfg, cs[n - 1], Work(i), cs[n - 1 + 1]);
      WorksAlong(cfg, i, b, cs[..n]);
      WorksStep(cfg, i, b, cs[n - 1], cs[n]);
    }
  }

  /** The state is reached without any outage by processing only the given messages. */
  ghost predicate Calm(cfg: Config, ms: set<BlockWithTransactions>, c: Core) {
    exists run, acts :: IsRun(cfg, run, acts) && run[|acts|] == c && CalmActs(ms, acts)
  }

  predicate CalmActs(ms: set<BlockWithTransactions>, acts: seq<Action>) {
    forall n :: 0 <= n < |acts| ==> !acts[n].Outage? && (acts[n].Open? ==> acts[n].msg in ms)
  }

  lemma StartCalm(cfg: Config, ms: set<BlockWithTransactions>)
    ensures Calm(cfg, ms, START)
  {
    var none: seq<Action> := [];
    assert IsRun(cfg, [START], none) && [START][|none|] == START && CalmActs(ms, none);
  }

  lemma CalmStep(cfg: Config, ms: set<BlockWithTransactions>, c: Core, a: Action, c': Core)
    requires Calm(cfg, ms, c) && Step(cfg, c, a, c') && !a.Outage? && (a.Open? ==> a.msg in ms)
    ensures Calm(cfg, ms, c')
  {
    var run, acts :| IsRun(cfg, run, acts) && run[|acts|] == c && CalmActs(ms, acts);
    ExtendRun(cfg, run, acts, a, c');
    assert (run + [c'])[|acts + [a]|] == c' && CalmActs(ms, acts + [a]);
  }

  lemma CalmWorks(cfg: Config, ms: set<BlockWithTransactions>, i: nat, c: Core, c': Core)
    requires Calm(cfg, ms, c) && Works(cfg, i, c, c')
    ensures Calm(cfg, ms, c')
  {
    var cs :| WorkChain(cfg, i, cs) && cs[0] == c && cs[|cs| - 1] == c';
    CalmAlong(cfg, ms, i, cs);
  }

  lemma {:induction false} CalmAlong(cfg: Config, ms: set<BlockWithTransactions>, i: nat, cs: seq<Core>)
    requires WorkChain(cfg, i, cs) && Calm(cfg, ms, cs[0])
    ensures Calm(cfg, ms, cs[|cs| - 1])
  {
    var n := |cs| - 1;
    if n > 0 {
      assert Step(cfg, cs[n - 1], Work(i), cs[n - 1 + 1]);
      CalmAlong(cfg, ms, i, cs[..n]);
      CalmStep(cfg, ms, cs[n - 1], Work(i), cs[n]);
    }
  }

  lemma WorksReachable(cfg: Config, i: nat, c: Core, c': Core)
    requires Reachable(cfg, c) && Works(cfg, i, c, c')
    ensures Reachable(cfg, c')
  {
    var cs :| WorkChain(cfg, i, cs) && cs[0] == c && cs[|cs| - 1] == c';
    ReachableAlong(cfg, i, cs);
  }

  lemma {:induction false} ReachableAlong(cfg: Config, i: nat, cs: seq<Core>)
    requires WorkChain(cfg, i, cs) && Reachable(cfg, cs[0])
    ensures Reachable(cfg, cs[|cs| - 1])
  {
    var n := |cs| - 1;
    if n > 0 {
      assert Step(cfg, cs[n - 1], Work(i), cs[n - 1 + 1]);
      ReachableAlong(cfg, i, cs[..n]);
      ReachableStep(cfg, cs[n - 1], Work(i), cs[n]);
    }
  }
}
