/** What the ledger computes: every balance is a plain fold over events, recomputable from the transfers table alone,
    and the order and multiplicity of deliveries do not matter. */
module Refinement {
  import opened Conservation
  import opened Core
  import opened Float64
  import opened Model
  import opened Programs
  import opened Sums
  import opened Tables

  // ---------------------------------------------------------------- the ledger against its own log

  /** The calls made since the last bulk insert of transfer rows. */
  function Unlogged(ops: seq<Op>): seq<Op> {
    if ops == [] || ops[|ops| - 1].AddTransfers? then []
    else Unlogged(ops[..|ops| - 1]) + [ops[|ops| - 1]]
  }

  /** What a task has added to an account and not yet written to the transfers table. */
  function Pending(k: AccountKey): Task -> int { (t: Task) => SumBy(Unlogged(Done(t)), Delta(k)) }

  lemma {:induction false} UnloggedAppend(a: seq<Op>, b: seq<Op>)
    requires a != [] && a[|a| - 1].AddTransfers?
    ensures Unlogged(a + b) == Unlogged(b)
    decreases |b|
  {
    if b == [] {
      assert a + b == a;
    } else {
      assert (a + b)[..|a + b| - 1] == a + b[..|b| - 1];
      UnloggedAppend(a, b[..|b| - 1]);
    }
  }

  lemma {:induction false} UnloggedNone(ops: seq<Op>)
    requires forall op :: op in ops ==> !op.AddTransfers?
    ensures Unlogged(ops) == ops
  {
    if ops != [] {
      UnloggedNone(ops[..|ops| - 1]);
    }
  }

  /** A leading call that changes no balance makes no difference. */
  lemma {:induction false} UnloggedFirst(first: Op, ops: seq<Op>, k: AccountKey)
    requires first.AddTransactions?
    ensures SumBy(Unlogged([first] + ops), Delta(k)) == SumBy(Unlogged(ops), Delta(k))
    decreases |ops|
  {
    var all := [first] + ops;
    if ops == [] {
      assert all == [first];
      assert Unlogged([first]) == Unlogged([]) + [first];
      SumSnoc([], first, Delta(k));
    } else {
      var last := ops[|ops| - 1];
      assert all[..|all| - 1] == [first] + ops[..|ops| - 1];
      UnloggedFirst(first, ops[..|ops| - 1], k);
      SumSnoc(Unlogged(ops[..|ops| - 1]), last, Delta(k));
      SumSnoc(Unlogged(all[..|all| - 1]), last, Delta(k));
    }
  }

  /** At every point of a program: applied = logged + pending. */
  ghost predicate Accounted(ops: seq<Op>, k: AccountKey) {
    SumBy(ops, Delta(k)) == SumBy(ops, OpRowEffect(Exact, k)) + SumBy(Unlogged(ops), Delta(k))
  }

  lemma EventsPartAccounted(es: seq<Event>, n: nat, k: AccountKey)
    requires n <= |EventsOps(es)|
    ensures Accounted(EventsOps(es)[..n], k)
  {
    var ops := EventsOps(es)[..n];
    EventsShape(es);
    forall op | op in ops ensures !op.AddTransfers? { assert op in EventsOps(es); }
    UnloggedNone(ops);
    SumZero(ops, OpRowEffect(Exact, k));
  }

  /** Calls that end with a bulk insert and log all they apply leave nothing pending for those after them. */
  lemma AccountedAfter(a: seq<Op>, rest: seq<Op>, k: AccountKey)
    requires a != [] && a[|a| - 1].AddTransfers? && SumBy(a, Delta(k)) == SumBy(a, OpRowEffect(Exact, k))
    requires Accounted(rest, k)
    ensures Accounted(a + rest, k)
  {
    UnloggedAppend(a, rest);
    SumAppend(a, rest, Delta(k));
    SumAppend(a, rest, OpRowEffect(Exact, k));
  }

  lemma {:induction false} TxsAccounted(txs: seq<Transaction>, n: nat, k: AccountKey)
    requires ProperKey(k) && n <= |TxsOps(txs)| && RowsChecked(TxsOps(txs)[..n])
    ensures Accounted(TxsOps(txs)[..n], k)
  {
    if txs != [] {
      var tx := txs[0];
      var a, b := TxOps(tx), TxsOps(txs[1..]);
      var es, ops := EventsOps(tx.events), TxsOps(txs)[..n];
      assert a == es + [AddTransfers(tx.hash, EventsTransfers(tx.events))];
      if n <= |es| {
        assert ops == es[..n];
        EventsPartAccounted(tx.events, n, k);
      } else {
        var rest := b[..n - |a|];
        assert ops == a + rest;
        RowsCheckedSplit(a, rest);
        TxsAccounted(txs[1..], n - |a|, k);
        assert a[|es|] in a && RowsValid(OpRows(a[|es|]));
        TxOpsEffect(tx, k);
        AccountedAfter(a, rest, k);
      }
    }
  }

  lemma TaskAccounted(t: Task, k: AccountKey)
    requires ProperKey(k) && TaskOk(t) && RowsChecked(Done(t))
    ensures TaskDelta(k)(t) == TaskRowEffect(Exact, k)(t) + Pending(k)(t)
  {
    assert Accounted(Done(t), k) by {
      if t.pc == 0 {
        assert Done(t) == [];
      } else {
        DoneAccounted(t, k);
      }
    }
  }

  lemma DoneAccounted(t: Task, k: AccountKey)
    requires ProperKey(k) && TaskOk(t) && RowsChecked(Done(t)) && t.pc > 0
    ensures Accounted(Done(t), k)
  {
    var first := AddTransactions(t.msg.block.height, t.msg.transactions);
    var ops := TxsOps(t.msg.transactions)[..t.pc - 1];
    DoneFirst(t);
    RowsCheckedSplit([first], ops);
    TxsAccounted(t.msg.transactions, t.pc - 1, k);
    AccountedFirst(first, ops, k);
  }

  lemma DoneFirst(t: Task)
    requires TaskOk(t) && t.pc > 0
    ensures Done(t) ==
            [AddTransactions(t.msg.block.height, t.msg.transactions)] + TxsOps(t.msg.transactions)[..t.pc - 1]
    ensures t.pc - 1 <= |TxsOps(t.msg.transactions)|
  {
  }

  lemma AccountedFirst(first: Op, ops: seq<Op>, k: AccountKey)
    requires first.AddTransactions? && Accounted(ops, k)
    ensures Accounted([first] + ops, k)
  {
    UnloggedFirst(first, ops, k);
    SumAppend([first], ops, Delta(k));
    SumAppend([first], ops, OpRowEffect(Exact, k));
    SumOne(first, Delta(k));
    SumOne(first, OpRowEffect(Exact, k));
  }

  lemma {:induction false} TasksAccounted(tasks: seq<Task>, k: AccountKey)
    requires ProperKey(k)
    requires forall i :: 0 <= i < |tasks| ==> TaskOk(tasks[i]) && RowsChecked(Done(tasks[i]))
    ensures SumBy(tasks, TaskDelta(k)) == SumBy(tasks, TaskRowEffect(Exact, k)) + SumBy(tasks, Pending(k))
  {
    if tasks != [] {
      TasksAccounted(tasks[..|tasks| - 1], k);
      TaskAccounted(tasks[|tasks| - 1], k);
    }
  }

  /** In every reachable state, failures included: each balance is what the transfers table says plus what unfinished
      or failed transactions have applied ahead of it. */
  lemma LedgerIsLogPlusPending(cfg: Config, c: Core, k: AccountKey)
    requires cfg.arithmetic.Exact? && Reachable(cfg, c) && ProperKey(k)
    ensures Balance(c.tables.accounts, k) == SumBy(c.tables.transfers, RowEffect(k)) + SumBy(c.tasks, Pending(k))
  {
    ReachableInv(cfg, c);
    TasksAccounted(c.tasks, k);
  }

  lemma CompleteDone(t: Task)
    requires Complete(t)
    ensures Done(t) == Program(t.msg)
  {
  }

  /** After messages that all succeeded, each balance is the plain fold over their events, and the transfers table
      alone gives the same number. */
  lemma BalancesAtRest(cfg: Config, c: Core, k: AccountKey)
    requires cfg.arithmetic.Exact? && Reachable(cfg, c) && ProperKey(k) && AllComplete(c)
    ensures Balance(c.tables.accounts, k) == SumBy(Messages(c.tasks), MessageEffect(k))
    ensures Balance(c.tables.accounts, k) == SumBy(c.tables.transfers, RowEffect(k))
  {
    ReachableInv(cfg, c);
    forall i | 0 <= i < |c.tasks|
      ensures TaskDelta(k)(c.tasks[i]) == MessageEffect(k)(Messages(c.tasks)[i])
      ensures TaskRowEffect(Exact, k)(c.tasks[i]) == MessageEffect(k)(Messages(c.tasks)[i])
    {
      CompleteDone(c.tasks[i]);
      ProgramEffect(c.tasks[i].msg, k);
    }
    SumMap(c.tasks, Messages(c.tasks), TaskDelta(k), MessageEffect(k));
    SumMap(c.tasks, Messages(c.tasks), TaskRowEffect(Exact, k), MessageEffect(k));
  }

  // ---------------------------------------------------------------- order independence

  /** Equal tables, ignoring the order in which rows were inserted. */
  ghost predicate SameTables(s: Tables, t: Tables) {
    && s.blocks == t.blocks && s.accounts == t.accounts
    && multiset(s.transactions) == multiset(t.transactions)
    && multiset(s.transfers) == multiset(t.transfers)
  }

  lemma {:induction false} CountIsMultiplicity<T>(s: seq<T>, x: T)
    ensures SumBy(s, CountIn(x)) == multiset(s)[x]
  {
    if s != [] {
      CountIsMultiplicity(s[..|s| - 1], x);
      assert s == s[..|s| - 1] + [s[|s| - 1]];
    }
  }

  lemma SameCounts<T>(s: seq<T>, t: seq<T>)
    requires forall x :: SumBy(s, CountIn(x)) == SumBy(t, CountIn(x))
    ensures multiset(s) == multiset(t)
  {
    forall x ensures multiset(s)[x] == multiset(t)[x] {
      CountIsMultiplicity(s, x);
      CountIsMultiplicity(t, x);
    }
  }

  /** A sum over complete tasks depends only on which messages they are. */
  lemma SameSums(a: seq<Task>, b: seq<Task>, f: Op -> int, g: Task -> int)
    requires forall t :: g(t) == SumBy(Done(t), f)
    requires forall t :: t in a || t in b ==> Complete(t)
    requires multiset(Messages(a)) == multiset(Messages(b))
    ensures SumBy(a, g) == SumBy(b, g)
  {
    var h := (m: BlockWithTransactions) => SumBy(Program(m), f);
    forall t | t in a || t in b ensures g(t) == h(t.msg) { CompleteDone(t); }
    SumMap(a, Messages(a), g, h);
    SumMap(b, Messages(b), g, h);
    SumPermutation(Messages(a), Messages(b), h);
  }

  lemma MessageOf(tasks: seq<Task>, i: nat, others: seq<Task>) returns (j: nat)
    requires i < |tasks| && multiset(Messages(tasks)) == multiset(Messages(others))
    ensures j < |others| && others[j].msg == tasks[i].msg
  {
    assert Messages(tasks)[i] in multiset(Messages(others));
    j :| 0 <= j < |Messages(others)| && Messages(others)[j] == tasks[i].msg;
  }

  lemma BlocksAgree(c: Core, d: Core, h: int)
    requires Gated(c) && Gated(d) && multiset(Messages(c.tasks)) == multiset(Messages(d.tasks))
    requires h in c.tables.blocks
    ensures h in d.tables.blocks && d.tables.blocks[h] == c.tables.blocks[h]
  {
    assert Opening(c, h);
    var i :| 0 <= i < |c.tasks| && Height(c.tasks[i]) == h;
    var j := MessageOf(c.tasks, i, d.tasks);
    assert HasBlock(c.tables, c.tasks[i].msg.block) && HasBlock(d.tables, d.tasks[j].msg.block);
  }

  lemma RowsAgree(c: Core, d: Core, k: AccountKey)
    requires Sourced(c) && Ensured(d) && AllComplete(d)
    requires multiset(Messages(c.tasks)) == multiset(Messages(d.tasks))
    requires k in c.tables.accounts
    ensures k in d.tables.accounts && ProperKey(k)
  {
    var op := GetAccount(k.address, k.token);
    assert Executed(c, op);
    var i :| 0 <= i < |c.tasks| && op in Done(c.tasks[i]);
    var j := MessageOf(c.tasks, i, d.tasks);
    CompleteDone(d.tasks[j]);
    assert op in Done(d.tasks[j]);
    assert Present(d.tables.accounts, op.address, op.token);
  }

  lemma LogsAgree(cfg: Config, c: Core, d: Core)
    requires Logged(cfg, c) && Logged(cfg, d) && Stored(c) && Stored(d) && AllComplete(c) && AllComplete(d)
    requires multiset(Messages(c.tasks)) == multiset(Messages(d.tasks))
    ensures multiset(c.tables.transfers) == multiset(d.tables.transfers)
    ensures multiset(c.tables.transactions) == multiset(d.tables.transactions)
  {
    forall r: TransferRow ensures SumBy(c.tables.transfers, CountIn(r)) == SumBy(d.tables.transfers, CountIn(r)) {
      SameSums(c.tasks, d.tasks, OpRowCount(cfg.arithmetic, r), TaskRowCount(cfg.arithmetic, r));
    }
    forall r: TransactionRow
      ensures SumBy(c.tables.transactions, CountIn(r)) == SumBy(d.tables.transactions, CountIn(r))
    {
      SameSums(c.tasks, d.tasks, OpTxCount(r), TaskTxCount(r));
    }
    SameCounts(c.tables.transfers, d.tables.transfers);
    SameCounts(c.tables.transactions, d.tables.transactions);
  }

  lemma BalanceAgrees(c: Core, d: Core, k: AccountKey)
    requires Balanced(c) && Balanced(d) && AllComplete(c) && AllComplete(d) && ProperKey(k)
    requires multiset(Messages(c.tasks)) == multiset(Messages(d.tasks))
    ensures Balance(c.tables.accounts, k) == Balance(d.tables.accounts, k)
  {
    SameSums(c.tasks, d.tasks, Delta(k), TaskDelta(k));
  }

  lemma BlockTablesAgree(c: Core, d: Core)
    requires Gated(c) && Gated(d) && multiset(Messages(c.tasks)) == multiset(Messages(d.tasks))
    ensures c.tables.blocks == d.tables.blocks
  {
    var a, b := c.tables.blocks, d.tables.blocks;
    forall h | h in a ensures h in b && b[h] == a[h] { BlocksAgree(c, d, h); }
    forall h | h in b ensures h in a { BlocksAgree(d, c, h); }
    assert a.Keys == b.Keys;
  }

  ghost predicate Within<K, V>(a: map<K, V>, b: map<K, V>) { forall k :: k in a ==> k in b && b[k] == a[k] }

  lemma WithinBoth<K, V>(a: map<K, V>, b: map<K, V>)
    requires Within(a, b) && Within(b, a)
    ensures a == b
  {
    assert a.Keys == b.Keys;
  }

  lemma AccountsWithin(c: Core, d: Core)
    requires Sourced(c) && Balanced(c) && AllComplete(c)
    requires Ensured(d) && Balanced(d) && AllComplete(d)
    requires multiset(Messages(c.tasks)) == multiset(Messages(d.tasks))
    ensures Within(c.tables.accounts, d.tables.accounts)
  {
    forall k | k in c.tables.accounts
      ensures k in d.tables.accounts && d.tables.accounts[k] == c.tables.accounts[k]
    {
      RowsAgree(c, d, k);
      BalanceAgrees(c, d, k);
    }
  }

  /** Order independence: two interleavings that got the same messages through, in whatever order, end in the same
      tables. */
  lemma OrderIndependent(cfg: Config, c: Core, d: Core)
    requires cfg.arithmetic.Exact? && Reachable(cfg, c) && Reachable(cfg, d)
    requires AllComplete(c) && AllComplete(d)
    requires multiset(Messages(c.tasks)) == multiset(Messages(d.tasks))
    ensures SameTables(c.tables, d.tables)
  {
    ReachableInv(cfg, c);
    ReachableInv(cfg, d);
    LogsAgree(cfg, c, d);
    BlockTablesAgree(c, d);
    AccountsWithin(c, d);
    AccountsWithin(d, c);
    WithinBoth(c.tables.accounts, d.tables.accounts);
  }

  // ---------------------------------------------------------------- referential integrity

  lemma TransferRefers(c: Core, i: nat, hash: string, tr: Transfer)
    requires Ensured(c) && i < |c.tasks| && LookedUp(tr, Done(c.tasks[i]))
    ensures Refers(c.tables.accounts, RowOf(hash, tr))
  {
    if tr.from != "" {
      assert Present(c.tables.accounts, GetAccount(tr.from, tr.token).address, tr.token);
    }
    if tr.to != "" {
      assert Present(c.tables.accounts, GetAccount(tr.to, tr.token).address, tr.token);
    }
  }

  /** The rows of one event refer as soon as the event's own lookups are done: no other event matters. */
  lemma EventRefers(c: Core, i: nat, hash: string, e: Event)
    requires Ensured(c) && i < |c.tasks| && NoStrayAddress(e)
    requires forall op :: op in EventOps(e) ==> op in Done(c.tasks[i])
    ensures RowsRefer(c.tables.accounts, RowsOf(hash, EventTransfers(e)))
  {
    EventCovered(e);
    var ts := EventTransfers(e);
    forall r | r in RowsOf(hash, ts) ensures Refers(c.tables.accounts, r) {
      var n :| 0 <= n < |ts| && r == RowOf(hash, ts[n]);
      TransferRefers(c, i, hash, ts[n]);
    }
  }

  /** The state of a task about to store the transfer rows of its transaction n. */
  predicate Saving(t: Task, n: nat) {
    Running(t) && n < |t.msg.transactions| && t.pc == SavePoint(t.msg.transactions, n)
  }

  /** Referential integrity, with any arithmetic and under any interleaving: when a task is about to store the transfer
      rows of a transaction, every address in the row of an event without stray addresses has an account, whatever the
      other events of the transaction and of its block are. */
  lemma ReferencesHold(cfg: Config, c: Core, i: nat, n: nat)
    requires Reachable(cfg, c) && i < |c.tasks| && Saving(c.tasks[i], n)
    ensures var tx := c.tasks[i].msg.transactions[n];
            && NextOp(c.tasks[i]) == AddTransfers(tx.hash, EventsTransfers(tx.events))
            && forall e :: e in tx.events && NoStrayAddress(e) ==>
                 RowsRefer(c.tables.accounts, RowsOf(tx.hash, EventTransfers(e)))
  {
    ReachableStructured(cfg, c);
    var t := c.tasks[i];
    var tx := t.msg.transactions[n];
    SavePointOp(t.msg, n);
    assert TaskOk(t);
    forall e | e in tx.events && NoStrayAddress(e)
      ensures RowsRefer(c.tables.accounts, RowsOf(tx.hash, EventTransfers(e)))
    {
      EventOpsWithin(tx.events, e);
      EventRefers(c, i, tx.hash, e);
    }
  }

  /** So for a transaction without stray addresses the foreign keys are never what makes the bulk insert fail. */
  lemma SavingFailsIff(cfg: Config, c: Core, i: nat, n: nat)
    requires Reachable(cfg, c) && i < |c.tasks| && Saving(c.tasks[i], n)
    requires forall e :: e in c.tasks[i].msg.transactions[n].events ==> NoStrayAddress(e)
    ensures var rows := OpRows(NextOp(c.tasks[i]));
            && RowsRefer(c.tables.accounts, rows)
            && (Apply(cfg, c.tables, NextOp(c.tasks[i])).Failed? <==> !RowsValid(rows))
  {
    ReferencesHold(cfg, c, i, n);
    SaveOutcome(cfg, c.tables, NextOp(c.tasks[i]));
    var tx := c.tasks[i].msg.transactions[n];
    forall r | r in RowsOf(tx.hash, EventsTransfers(tx.events)) ensures Refers(c.tables.accounts, r) {
      var e := EventOfRow(tx.events, tx.hash, r);
      assert r in RowsOf(tx.hash, EventTransfers(e));
    }
  }
}
