/** What a failing message leaves behind. */
module Failures {
  import opened Conservation
  import opened Core
  import opened Deliveries
  import opened Model
  import opened Programs
  import opened Refinement
  import opened Success
  import opened Sums
  import opened Tables

  // ---------------------------------------------------------------- the first failing call of any message

  /** The position of call j of transaction n: of its events' calls, and after these its bulk insert. */
  function CallAt(txs: seq<Transaction>, n: nat, j: nat): nat
    requires n < |txs|
  {
    1 + |TxsOps(txs[..n])| + j
  }

  lemma ProgramAt(m: BlockWithTransactions, n: nat, j: nat)
    requires n < |m.transactions| && j <= |EventsOps(m.transactions[n].events)|
    ensures var txs := m.transactions;
            var p := CallAt(txs, n, j);
            && p < |Program(m)|
            && Program(m)[..p] ==
               [AddTransactions(m.block.height, txs)] + TxsOps(txs[..n]) + EventsOps(txs[n].events)[..j]
  {
    var txs, es := m.transactions, EventsOps(m.transactions[n].events);
    var start := [AddTransactions(m.block.height, txs)] + TxsOps(txs[..n]);
    ProgramAround(m, n);
    assert Program(m)[..|start + es|] == start + es;
    assert Program(m)[..|start| + j] == (start + es)[..|start| + j] == start + es[..j];
  }

  /** The first call that does not go through on a table with these accounts. */
  predicate FirstFailing(key: Uniqueness, ks: set<AccountKey>, ops: seq<Op>, p: nat) {
    p < |ops| && GoesThrough(key, ks, ops[..p]) && !CallOk(key, ks + Named(ops[..p]), ops[p])
  }

  /** There the message stops, with the tables as the calls before left them. */
  lemma StopsAt(cfg: Config, t: Tables, ops: seq<Op>, p: nat)
    requires Coherent(cfg.key, t.accounts.Keys) && NoBareInsert(ops)
    requires FirstFailing(cfg.key, t.accounts.Keys, ops, p)
    ensures Exec(cfg, t, ops[..p]).ok && Exec(cfg, t, ops) == Run(Exec(cfg, t, ops[..p]).tables, false)
  {
    var front, op, rest := ops[..p], ops[p], ops[p + 1..];
    SplitAt(ops, p);
    GoesThroughIff(cfg, t, front);
    CallOkIff(cfg, Exec(cfg, t, front).tables, op);
    ExecFailsAt(cfg, t, front, op, rest);
  }

  lemma SplitAt(ops: seq<Op>, p: nat)
    requires p < |ops|
    ensures ops == ops[..p] + ([ops[p]] + ops[p + 1..])
    ensures NoBareInsert(ops) ==> NoBareInsert(ops[..p]) && !ops[p].AddAccount?
  {
  }

  /** The calls before a call of transaction n: what they add to a balance, and what they log. */
  lemma CallsSum(m: BlockWithTransactions, n: nat, j: nat, k: AccountKey)
    requires n < |m.transactions| && j <= |EventsOps(m.transactions[n].events)| && ProperKey(k)
    requires RowsChecked(TxsOps(m.transactions[..n]))
    ensures var txs, es := m.transactions, EventsOps(m.transactions[n].events);
            var ops := [AddTransactions(m.block.height, txs)] + TxsOps(txs[..n]) + es[..j];
            && SumBy(ops, Delta(k)) == SumBy(txs[..n], TxEffect(k)) + SumBy(es[..j], Delta(k))
            && SumBy(ops, OpRowEffect(Exact, k)) == SumBy(txs[..n], TxEffect(k))
  {
    var txs := m.transactions;
    var first, before, last := AddTransactions(m.block.height, txs), TxsOps(txs[..n]), EventsOps(txs[n].events)[..j];
    TxsOpsEffect(txs[..n], k);
    NothingLogged(txs[n].events, j, k);
    SumOne(first, Delta(k));
    SumOne(first, OpRowEffect(Exact, k));
    SumAppend([first], before, Delta(k));
    SumAppend([first], before, OpRowEffect(Exact, k));
    SumAppend([first] + before, last, Delta(k));
    SumAppend([first] + before, last, OpRowEffect(Exact, k));
  }

  lemma NothingLogged(es: seq<Event>, j: nat, k: AccountKey)
    requires j <= |EventsOps(es)|
    ensures SumBy(EventsOps(es)[..j], OpRowEffect(Exact, k)) == 0
  {
    EventsShape(es);
    forall op | op in EventsOps(es)[..j] ensures OpRowEffect(Exact, k)(op) == 0 { assert op in EventsOps(es); }
    SumZero(EventsOps(es)[..j], OpRowEffect(Exact, k));
  }

  /** Some calls of a message, from the first: they can be summed up. */
  lemma PartOfProgram(m: BlockWithTransactions, p: nat)
    requires p <= |Program(m)|
    ensures NoBareInsert(Program(m)[..p]) && Guarded(Program(m)[..p])
  {
    ProgramShape(m);
    GuardedPrefix(Program(m), p);
    assert forall op :: op in Program(m)[..p] ==> op in Program(m);
  }

  lemma PartChecked(cfg: Config, t: Tables, a: seq<Op>, b: seq<Op>, c: seq<Op>)
    requires NoBareInsert(a + b + c) && Exec(cfg, t, a + b + c).ok
    ensures RowsChecked(b)
  {
    SuccessMeans(cfg, t, a + b + c);
    forall op | op in b ensures RowsValid(OpRows(op)) {
      assert op in a + b + c;
      assert Acceptable(op);
    }
  }

  /** The tables after the calls before call j of transaction n. */
  lemma CallsLeave(cfg: Config, t: Tables, m: BlockWithTransactions, n: nat, j: nat, k: AccountKey)
    requires cfg.arithmetic.Exact? && ProperKey(k)
    requires n < |m.transactions| && j <= |EventsOps(m.transactions[n].events)|
    requires CallAt(m.transactions, n, j) <= |Program(m)|
    requires Exec(cfg, t, Program(m)[..CallAt(m.transactions, n, j)]).ok
    ensures var txs, es := m.transactions, EventsOps(m.transactions[n].events);
            var logged := SumBy(txs[..n], TxEffect(k));
            Adds(t, Exec(cfg, t, Program(m)[..CallAt(txs, n, j)]).tables, k, logged + SumBy(es[..j], Delta(k)), logged)
  {
    var txs, es := m.transactions, EventsOps(m.transactions[n].events);
    ProgramAt(m, n, j);
    PartOfProgram(m, CallAt(txs, n, j));
    PartChecked(cfg, t, [AddTransactions(m.block.height, txs)], TxsOps(txs[..n]), es[..j]);
    ExecEffect(cfg, t, Program(m)[..CallAt(txs, n, j)], k);
    CallsSum(m, n, j, k);
  }

  /** What any failing message leaves behind. If call j of transaction n is its first call that does not go through,
      be it a value that does not parse, an account the key refuses, a lookup without a single row, an invalid row or
      one that refers to no account: all transactions before are in balances and log alike, and of transaction n the
      calls before call j are in the balances and nothing is in the log. */
  lemma FailureLeaves(cfg: Config, t: Tables, m: BlockWithTransactions, n: nat, j: nat, k: AccountKey)
    requires cfg.arithmetic.Exact? && ProperKey(k)
    requires Coherent(cfg.key, t.accounts.Keys) && AddBlock(t, m.block).Inserted?
    requires n < |m.transactions| && j <= |EventsOps(m.transactions[n].events)|
    requires FirstFailing(cfg.key, t.accounts.Keys, Program(m), CallAt(m.transactions, n, j))
    ensures var txs, es := m.transactions, EventsOps(m.transactions[n].events);
            var r, logged := Process(cfg, t, m), SumBy(txs[..n], TxEffect(k));
            !r.ok && Adds(t, r.tables, k, logged + SumBy(es[..j], Delta(k)), logged)
  {
    var gated, p := AddBlock(t, m.block).tables, CallAt(m.transactions, n, j);
    assert NoBareInsert(Program(m)) by { ProgramShape(m); }
    StopsAt(cfg, gated, Program(m), p);
    CallsLeave(cfg, gated, m, n, j, k);
  }

  lemma {:induction false} FirstOf(key: Uniqueness, ks: set<AccountKey>, ops: seq<Op>) returns (p: nat)
    requires !GoesThrough(key, ks, ops)
    ensures FirstFailing(key, ks, ops, p)
  {
    var n := |ops| - 1;
    GoesThroughSnoc(key, ks, ops[..n], ops[n]);
    assert ops == ops[..n] + [ops[n]];
    if GoesThrough(key, ks, ops[..n]) {
      p := n;
    } else {
      p := FirstOf(key, ks, ops[..n]);
      assert ops[..n][..p] == ops[..p];
    }
  }

  /** The transaction a call belongs to. */
  lemma {:induction false} TxOfCall(txs: seq<Transaction>, q: nat) returns (n: nat, j: nat)
    requires q < |TxsOps(txs)|
    ensures n < |txs| && j <= |EventsOps(txs[n].events)| && q == |TxsOps(txs[..n])| + j
  {
    if q < |TxOps(txs[0])| {
      n, j := 0, q;
      assert txs[..0] == [];
    } else {
      var n', j' := TxOfCall(txs[1..], q - |TxOps(txs[0])|);
      n, j := n' + 1, j';
      assert txs[..n][0] == txs[0] && txs[..n][1..] == txs[1..][..n'];
    }
  }

  /** Every message that fails past the gate, and in which no transaction lacks its hash, has such a call. */
  lemma FailsSomewhere(cfg: Config, t: Tables, m: BlockWithTransactions) returns (n: nat, j: nat)
    requires Coherent(cfg.key, t.accounts.Keys) && AddBlock(t, m.block).Inserted? && !Process(cfg, t, m).ok
    requires forall tx :: tx in m.transactions ==> tx.hash != ""
    ensures n < |m.transactions| && j <= |EventsOps(m.transactions[n].events)|
    ensures FirstFailing(cfg.key, t.accounts.Keys, Program(m), CallAt(m.transactions, n, j))
  {
    SucceedsIff(cfg, t, m);
    var p := FirstOf(cfg.key, t.accounts.Keys, Program(m));
    n, j := TxOfCall(m.transactions, p - 1);
  }

  // ---------------------------------------------------------------- the first invalid transaction of a proper message

  /** How many events are applied before one whose value does not parse. */
  function Parsed(es: seq<Event>): (n: nat)
    ensures n <= |es|
  {
    if es == [] || !Parses(es[0]) then 0 else 1 + Parsed(es[1..])
  }

  lemma {:induction false} ParsedPrefix(es: seq<Event>)
    ensures forall e :: e in es[..Parsed(es)] ==> Parses(e)
    ensures Parsed(es) < |es| ==> !Parses(es[Parsed(es)])
  {
    if es != [] && Parses(es[0]) {
      ParsedPrefix(es[1..]);
      assert es[..Parsed(es)] == [es[0]] + es[1..][..Parsed(es) - 1];
    }
  }

  /** The calls made before transaction n fails: those of all transactions before it, and of its events that parse. */
  function CallsBefore(m: BlockWithTransactions, n: nat): seq<Op>
    requires n < |m.transactions|
  {
    var txs, es := m.transactions, m.transactions[n].events;
    [AddTransactions(m.block.height, txs)] + TxsOps(txs[..n]) + EventsOps(es[..Parsed(es)])
  }

  /** The event calls of an invalid transaction around its first value that does not parse. */
  lemma {:induction false} RejectedValue(es: seq<Event>)
    requires Parsed(es) < |es|
    ensures EventsOps(es) == EventsOps(es[..Parsed(es)]) + ([RejectValue] + EventsOps(es[Parsed(es) + 1..]))
  {
    var j, rest := Parsed(es), es[Parsed(es)..];
    ParsedPrefix(es);
    RejectedFirst(rest);
    assert rest[1..] == es[j + 1..];
    EventsOpsSplit(es, j);
  }

  lemma {:induction false} RejectedFirst(es: seq<Event>)
    requires es != [] && !Parses(es[0])
    ensures EventsOps(es) == [RejectValue] + EventsOps(es[1..])
  {
    assert EventOps(es[0]) == [RejectValue];
  }

  /** The call that fails in an invalid transaction: the value that does not parse, else the bulk insert. */
  lemma FailingCall(m: BlockWithTransactions, n: nat) returns (op: Op, rest: seq<Op>)
    requires n < |m.transactions| && m.transactions[n].hash != "" && !ValidTx(m.transactions[n])
    ensures Program(m) == CallsBefore(m, n) + ([op] + rest)
    ensures op.RejectValue? || (op.AddTransfers? && !RowsValid(OpRows(op)))
  {
    var txs, tx := m.transactions, m.transactions[n];
    var es := tx.events;
    var start := [AddTransactions(m.block.height, txs)] + TxsOps(txs[..n]);
    var save, after := AddTransfers(tx.hash, EventsTransfers(es)), TxsOps(txs[n + 1..]);
    ProgramAround(m, n);
    if Parsed(es) < |es| {
      var more := EventsOps(es[Parsed(es) + 1..]);
      RejectedValue(es);
      op, rest := RejectValue, more + [save] + after;
      RegroupFailing(start, EventsOps(es[..Parsed(es)]), op, more, save, after);
    } else {
      op, rest := save, after;
      assert es[..Parsed(es)] == es;
      ParsedPrefix(es);
      EventsAcceptable(es, tx.hash);
      Regroup(start + EventsOps(es), [save], after);
    }
  }

  lemma RegroupFailing(start: seq<Op>, es: seq<Op>, op: Op, more: seq<Op>, save: Op, after: seq<Op>)
    ensures start + (es + ([op] + more)) + [save] + after == (start + es) + ([op] + (more + [save] + after))
  {
  }

  /** The calls before the failing one go through. */
  lemma CallsBeforeSucceed(cfg: Config, t: Tables, m: BlockWithTransactions, n: nat)
    requires n < |m.transactions| && ProperMessage(m) && Coherent(cfg.key, RowsNeeded(t, m))
    requires CallsBefore(m, n) <= Program(m)
    requires forall tx :: tx in m.transactions ==> tx.hash != ""
    requires forall tx :: tx in m.transactions[..n] ==> ValidTx(tx)
    ensures var ops := CallsBefore(m, n); NoBareInsert(ops) && Guarded(ops) && Exec(cfg, t, ops).ok
    ensures RowsChecked(TxsOps(m.transactions[..n]))
  {
    var ops, txs, es := CallsBefore(m, n), m.transactions, m.transactions[n].events;
    ProperNaming(m);
    assert ops == Program(m)[..|ops|];
    assert forall op :: op in ops ==> op in Program(m);
    GuardedPrefix(Program(m), |ops|);
    CoveredPrefix(Program(m), |ops|);
    assert Lookups(ops) <= Lookups(Program(m));
    ParsedPrefix(es);
    TxsAcceptable(txs[..n]);
    EventsAcceptable(es[..Parsed(es)], txs[n].hash);
    ExecSucceeds(cfg, t, ops);
  }

  lemma CallsBeforeSum(m: BlockWithTransactions, n: nat, k: AccountKey)
    requires n < |m.transactions| && ProperKey(k) && RowsChecked(TxsOps(m.transactions[..n]))
    ensures var txs, es := m.transactions, m.transactions[n].events;
            && SumBy(CallsBefore(m, n), Delta(k)) ==
               SumBy(txs[..n], TxEffect(k)) + SumBy(EventsOps(es[..Parsed(es)]), Delta(k))
            && SumBy(CallsBefore(m, n), OpRowEffect(Exact, k)) == SumBy(txs[..n], TxEffect(k))
  {
    var es := m.transactions[n].events;
    var j := |EventsOps(es[..Parsed(es)])|;
    EventsOpsSplit(es, Parsed(es));
    assert EventsOps(es)[..j] == EventsOps(es[..Parsed(es)]);
    CallsSum(m, n, j, k);
  }

  /** A message with an invalid transaction fails there, with the tables as the calls before left them. */
  lemma FailsInTx(cfg: Config, t: Tables, m: BlockWithTransactions, n: nat)
    requires ProperMessage(m) && Coherent(cfg.key, RowsNeeded(t, m))
    requires forall tx :: tx in m.transactions ==> tx.hash != ""
    requires n < |m.transactions| && !ValidTx(m.transactions[n])
    requires forall tx :: tx in m.transactions[..n] ==> ValidTx(tx)
    ensures var ops := CallsBefore(m, n);
            && NoBareInsert(ops) && Guarded(ops) && Exec(cfg, t, ops).ok
            && Exec(cfg, t, Program(m)) == Run(Exec(cfg, t, ops).tables, false)
    ensures RowsChecked(TxsOps(m.transactions[..n]))
  {
    var op, rest := FailingCall(m, n);
    CallsBeforeSucceed(cfg, t, m, n);
    if op.AddTransfers? { SaveOutcome(cfg, Exec(cfg, t, CallsBefore(m, n)).tables, op); }
    ExecFailsAt(cfg, t, CallsBefore(m, n), op, rest);
  }

  lemma CallsBeforeEffect(cfg: Config, t: Tables, m: BlockWithTransactions, n: nat, k: AccountKey)
    requires cfg.arithmetic.Exact? && ProperKey(k) && n < |m.transactions|
    requires RowsChecked(TxsOps(m.transactions[..n]))
    requires var ops := CallsBefore(m, n); NoBareInsert(ops) && Guarded(ops) && Exec(cfg, t, ops).ok
    ensures var txs, es := m.transactions, m.transactions[n].events;
            var logged := SumBy(txs[..n], TxEffect(k));
            Adds(t, Exec(cfg, t, CallsBefore(m, n)).tables, k,
                 logged + SumBy(EventsOps(es[..Parsed(es)]), Delta(k)), logged)
  {
    ExecEffect(cfg, t, CallsBefore(m, n), k);
    CallsBeforeSum(m, n, k);
  }

  /** The same in terms of a proper message whose accounts the key allows. Up to its first invalid transaction,
      balances and log changed alike; of that transaction the events before the first value that does not parse, or
      else all of them, are applied to the balances and are missing from the log. */
  lemma InvalidTxLeaves(cfg: Config, t: Tables, m: BlockWithTransactions, n: nat, k: AccountKey)
    requires cfg.arithmetic.Exact? && ProperKey(k)
    requires AddBlock(t, m.block).Inserted? && ProperMessage(m) && Coherent(cfg.key, RowsNeeded(t, m))
    requires forall tx :: tx in m.transactions ==> tx.hash != ""
    requires n < |m.transactions| && !ValidTx(m.transactions[n])
    requires forall tx :: tx in m.transactions[..n] ==> ValidTx(tx)
    ensures !Process(cfg, t, m).ok
    ensures var txs, es := m.transactions, m.transactions[n].events;
            var logged := SumBy(txs[..n], TxEffect(k));
            Adds(t, Process(cfg, t, m).tables, k, logged + SumBy(EventsOps(es[..Parsed(es)]), Delta(k)), logged)
  {
    var gated := AddBlock(t, m.block).tables;
    FailsInTx(cfg, gated, m, n);
    CallsBeforeEffect(cfg, gated, m, n, k);
  }

  /** A transaction without a hash anywhere in the message: nothing but the block row is stored. */
  lemma MissingHashLeaves(cfg: Config, t: Tables, m: BlockWithTransactions)
    requires AddBlock(t, m.block).Inserted? && exists tx :: tx in m.transactions && tx.hash == ""
    ensures Process(cfg, t, m) == Run(AddBlock(t, m.block).tables, false)
  {
    ExecCons(cfg, AddBlock(t, m.block).tables, AddTransactions(m.block.height, m.transactions), TxsOps(m.transactions));
  }
}
