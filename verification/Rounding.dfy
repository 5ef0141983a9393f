/** The worker pool with float64 columns: which integer pool it rounds, and a bound on the events of its messages within
    which it loses nothing. */
module Rounding {
  import opened Amounts
  import opened Conservation
  import opened Core
  import opened Float64
  import opened Model
  import opened Programs
  import opened Refinement
  import opened Sums
  import opened Tables
  import P = Pool

  type Message = BlockWithTransactions

  // ---------------------------------------------------------------- every run rounds an integer run

  function RoundedPool(s: P.Pool): P.Pool { s.(core := Rounded(s.core)) }

  lemma PoolStaysWithin(cfg: Config, s: P.Pool, a: P.Action, s': P.Pool)
    requires P.Step(cfg, s, a, s') && TasksOk(s.core) && Within53(s'.core)
    ensures Within53(s.core)
  {
    P.StepProjects(cfg, s, a, s');
    if P.CoreAction(s, a).Some? { StaysWithin(cfg, s.core, P.CoreAction(s, a).value, s'.core); }
  }

  lemma PoolStepSimulated(cfg: Config, s: P.Pool, a: P.Action, d': P.Pool) returns (s': P.Pool)
    requires cfg.arithmetic.Binary64? && Inv(ExactOf(cfg), s.core)
    requires P.Step(cfg, RoundedPool(s), a, d') && Within53(d'.core)
    ensures P.Step(ExactOf(cfg), s, a, s') && d' == RoundedPool(s')
  {
    P.StepProjects(cfg, RoundedPool(s), a, d');
    assert P.CoreAction(RoundedPool(s), a) == P.CoreAction(s, a);
    if P.CoreAction(s, a).Some? {
      var core := StepSimulated(cfg, s.core, P.CoreAction(s, a).value, d'.core);
      s' := d'.(core := core);
    } else {
      s' := d'.(core := s.core);
    }
  }

  lemma {:induction false} PoolRunSimulated(cfg: Config, run: seq<P.Pool>, acts: seq<P.Action>, n: nat)
    returns (s: P.Pool)
    requires cfg.arithmetic.Binary64? && P.IsRun(cfg, run, acts) && n <= |acts| && Within53(run[n].core)
    ensures P.Reachable(ExactOf(cfg), s) && run[n] == RoundedPool(s)
  {
    if n == 0 {
      s := P.START;
      P.StartReachable(ExactOf(cfg));
    } else {
      assert P.Step(cfg, run[n - 1], acts[n - 1], run[n - 1 + 1]);
      P.RunInv(cfg, run, acts, n - 1);
      PoolStaysWithin(cfg, run[n - 1], acts[n - 1], run[n]);
      var before := PoolRunSimulated(cfg, run, acts, n - 1);
      P.CoreReachable(ExactOf(cfg), before);
      ReachableInv(ExactOf(cfg), before.core);
      s := PoolStepSimulated(cfg, before, acts[n - 1], run[n]);
      P.ReachableStep(ExactOf(cfg), before, acts[n - 1], s);
    }
  }

  /** The pool with float64 columns, within 2^53 per account, is in a state that the integer pool reaches, but for the
      rounding of stored transfer amounts; and in that very state if and only if float64 represents all of them. */
  lemma Binary64Pool(cfg: Config, s: P.Pool) returns (exact: P.Pool)
    requires cfg.arithmetic.Binary64? && P.Reachable(cfg, s) && Within53(s.core)
    ensures P.Reachable(ExactOf(cfg), exact) && s == RoundedPool(exact)
    ensures s == exact <==> AmountsRepresentable(exact.core)
  {
    var run, acts :| P.IsRun(cfg, run, acts) && run[|acts|] == s;
    exact := PoolRunSimulated(cfg, run, acts, |acts|);
    StoredSame(exact.core.tables.transfers);
  }

  // ---------------------------------------------------------------- a bound on the events

  /** The absolute value an event applies to the balance of k. */
  function EventAbs(k: AccountKey): Event -> int {
    (e: Event) =>
      if !IsTransfer(e) || e.pkgPath != k.token then 0
      else match ReadAttrs(e.attrs, NO_FIELDS)
        case None => 0
        case Some(f) =>
          var action := FuncOf(e.func);
          (if (action.Mint? || action.Move?) && f.to == k.address then Abs(f.value) else 0)
          + (if (action.Burn? || action.Move?) && f.from == k.address then Abs(f.value) else 0)
  }

  /** With float64 columns the absolute amounts of the messages' events sum to at most 2^53 for every account. */
  ghost predicate EventsFit(cfg: Config, ms: seq<Message>) {
    cfg.arithmetic.Binary64? ==> forall k :: ProperKey(k) ==> SumBy(ms, MessageSum(EventAbs(k))) <= TWO_53
  }

  lemma EventAbsOps(e: Event, k: AccountKey)
    requires ProperKey(k)
    ensures SumBy(EventOps(e), AbsDelta(k)) == EventAbs(k)(e)
  {
    var ops := EventOps(e);
    assert forall i :: 0 <= i < |ops| ==> AbsDelta(k)(ops[i]) == Abs(Delta(k)(ops[i]));
    SumFour(ops, AbsDelta(k));
    if |ops| == 1 { SumOne(ops[0], AbsDelta(k)); }
  }

  lemma CompleteAbs(t: Task, k: AccountKey)
    requires Complete(t) && ProperKey(k)
    ensures TaskAbsDelta(k)(t) == MessageSum(EventAbs(k))(t.msg)
  {
    var m := t.msg;
    var first := AddTransactions(m.block.height, m.transactions);
    assert Done(t) == [first] + TxsOps(m.transactions);
    forall e ensures SumBy(EventOps(e), AbsDelta(k)) == EventAbs(k)(e) { EventAbsOps(e, k); }
    forall op: Op | !op.Increment? ensures AbsDelta(k)(op) == 0 { assert Delta(k)(op) == 0; }
    TxsSums(m.transactions, AbsDelta(k), EventAbs(k));
    SumAppend([first], TxsOps(m.transactions), AbsDelta(k));
    SumOne(first, AbsDelta(k));
  }

  lemma FitsWithin(cfg: Config, c: Core)
    requires cfg.arithmetic.Binary64? && AllComplete(c) && EventsFit(cfg, Messages(c.tasks))
    ensures Within53(c)
  {
    forall k | ProperKey(k) ensures SumBy(c.tasks, TaskAbsDelta(k)) <= TWO_53 {
      forall i | 0 <= i < |c.tasks|
        ensures TaskAbsDelta(k)(c.tasks[i]) == MessageSum(EventAbs(k))(Messages(c.tasks)[i])
      {
        CompleteAbs(c.tasks[i], k);
      }
      SumMap(c.tasks, Messages(c.tasks), TaskAbsDelta(k), MessageSum(EventAbs(k)));
    }
  }

  // ---------------------------------------------------------------- rows that count for an account

  lemma EventAbsNonNegative(k: AccountKey)
    ensures forall e :: EventAbs(k)(e) >= 0
    ensures forall tx :: TxSum(EventAbs(k))(tx) >= 0
    ensures forall m :: MessageSum(EventAbs(k))(m) >= 0
  {
    forall tx: Transaction ensures TxSum(EventAbs(k))(tx) >= 0 { SumNonNegative(tx.events, EventAbs(k)); }
    forall m: Message ensures MessageSum(EventAbs(k))(m) >= 0 { SumNonNegative(m.transactions, TxSum(EventAbs(k))); }
  }

  /** The transaction behind a bulk insert of a message. */
  lemma {:induction false} SavesOf(txs: seq<Transaction>, op: Op) returns (tx: Transaction)
    requires op in TxsOps(txs) && op.AddTransfers?
    ensures tx in txs && op == AddTransfers(tx.hash, EventsTransfers(tx.events))
  {
    EventsShape(txs[0].events);
    if op in TxOps(txs[0]) {
      tx := txs[0];
    } else {
      tx := SavesOf(txs[1..], op);
    }
  }

  /** The event behind a stored row. */
  lemma RowSource(c: Core, r: TransferRow) returns (i: nat, tx: Transaction, e: Event)
    requires Logged(Config(ByAddress, Exact), c) && r in c.tables.transfers
    ensures i < |c.tasks| && tx in c.tasks[i].msg.transactions && e in tx.events
    ensures r in RowsOf(tx.hash, EventTransfers(e))
  {
    SumMember(c.tables.transfers, CountIn(r), r);
    var t := SumPositive(c.tasks, TaskRowCount(Exact, r));
    var op := SumPositive(Done(t), OpRowCount(Exact, r));
    var x := SumPositive(OpRows(op), CountIn(r));
    i :| 0 <= i < |c.tasks| && c.tasks[i] == t;
    assert op in Program(t.msg) && op in TxsOps(t.msg.transactions);
    tx := SavesOf(t.msg.transactions, op);
    e := EventOfRow(tx.events, tx.hash, r);
  }

  /** What a row says about an account is no more than its event's absolute value. */
  lemma RowBounded(hash: string, e: Event, r: TransferRow, k: AccountKey)
    requires r in RowsOf(hash, EventTransfers(e)) && ProperKey(k) && RowEffect(k)(r) != 0
    ensures Abs(r.amount) <= EventAbs(k)(e)
  {
    assert EventTransfers(e) != [] && r == RowOf(hash, EventTransfers(e)[0]);
  }

  /** So every row that counts for an account is stored unrounded. */
  lemma CountedRowFits(cfg: Config, c: Core, r: TransferRow, k: AccountKey)
    requires cfg.arithmetic.Binary64? && EventsFit(cfg, Messages(c.tasks)) && ProperKey(k)
    requires Logged(Config(ByAddress, Exact), c) && r in c.tables.transfers && RowEffect(k)(r) != 0
    ensures Abs(r.amount) <= TWO_53
  {
    var i, tx, e := RowSource(c, r);
    var m := c.tasks[i].msg;
    EventAbsNonNegative(k);
    RowBounded(tx.hash, e, r, k);
    SumMember(tx.events, EventAbs(k), e);
    SumMember(m.transactions, TxSum(EventAbs(k)), tx);
    assert Messages(c.tasks)[i] == m;
    SumMember(Messages(c.tasks), MessageSum(EventAbs(k)), m);
  }

  lemma RoundedRowEffects(rows: seq<TransferRow>, k: AccountKey)
    requires forall r :: r in rows && RowEffect(k)(r) != 0 ==> Abs(r.amount) <= TWO_53
    ensures SumBy(StoredRows(Binary64, rows), RowEffect(k)) == SumBy(rows, RowEffect(k))
  {
    var stored := StoredRows(Binary64, rows);
    forall i | 0 <= i < |rows| ensures RowEffect(k)(stored[i]) == RowEffect(k)(rows[i]) {
      assert rows[i] in rows;
      if Abs(rows[i].amount) <= TWO_53 { RoundExact(rows[i].amount); }
      if RowEffect(k)(rows[i]) == 0 { NoEffectStays(rows[i], k); }
    }
    SumMap(stored, rows, RowEffect(k), RowEffect(k));
  }

  /** A row without an effect has none after rounding. */
  lemma NoEffectStays(r: TransferRow, k: AccountKey)
    requires RowEffect(k)(r) == 0
    ensures RowEffect(k)(StoredRow(Binary64, r)) == 0
  {
    RoundExact(0);
  }

  // ---------------------------------------------------------------- the pool at rest, with either kind of columns

  /** At rest without errors, with integer columns, or with float64 columns and events that fit: every balance is the
      fold over the events of the messages that passed the gate, the transfers table gives the same number, and with
      float64 columns so does the reported int64 value. */
  lemma RestFold(cfg: Config, s: P.Pool, k: AccountKey)
    requires P.Reachable(cfg, s) && P.Quiescent(s) && P.NoErrors(s) && ProperKey(k)
    requires EventsFit(cfg, Messages(s.core.tasks))
    ensures var b := Balance(s.core.tables.accounts, k);
            && b == SumBy(Messages(s.core.tasks), MessageEffect(k))
            && b == SumBy(s.core.tables.transfers, RowEffect(k))
            && (cfg.arithmetic.Binary64? ==> ToInt64(b) == b)
  {
    P.RestComplete(cfg, s);
    if cfg.arithmetic.Exact? {
      P.CoreReachable(cfg, s);
      BalancesAtRest(cfg, s.core, k);
    } else {
      FitsWithin(cfg, s.core);
      var exact := Binary64Pool(cfg, s);
      var c := exact.core;
      P.CoreReachable(ExactOf(cfg), exact);
      ReachableInv(ExactOf(cfg), c);
      BalancesAtRest(ExactOf(cfg), c, k);
      BalanceBounded(c, k);
      forall r | r in c.tables.transfers && RowEffect(k)(r) != 0 ensures Abs(r.amount) <= TWO_53 {
        CountedRowFits(cfg, c, r, k);
      }
      RoundedRowEffects(c.tables.transfers, k);
    }
  }
}
