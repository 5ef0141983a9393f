/** What the tables of transactions and transfers hold, row by row, in terms of the messages. */
module Records {
  import opened Conservation
  import opened Core
  import opened Meaning
  import opened Model
  import opened Programs
  import opened Success
  import opened Sums
  import opened Tables

  // ---------------------------------------------------------------- transactions

  /** What the first call of a message stores: each transaction, under the message's height. */
  lemma FirstCallCount(height: int, txs: seq<Transaction>, r: TransactionRow)
    ensures OpTxCount(r)(AddTransactions(height, txs)) == if height == r.height then SumBy(txs, CountIn(r.tx)) else 0
  {
    var rows := TransactionRows(height, txs);
    assert |rows| == |txs| && forall i :: 0 <= i < |txs| ==> rows[i] == TransactionRow(height, txs[i]);
    if height == r.height {
      SumMap(rows, txs, CountIn(r), CountIn(r.tx));
    } else {
      SumZero(rows, CountIn(r));
    }
  }

  lemma TaskTxCountIs(t: Task, r: TransactionRow)
    requires TaskOk(t)
    ensures TaskTxCount(r)(t) ==
            if t.pc >= 1 && Height(t) == r.height then SumBy(t.msg.transactions, CountIn(r.tx)) else 0
  {
    if t.pc >= 1 {
      var first := AddTransactions(t.msg.block.height, t.msg.transactions);
      var rest := TxsOps(t.msg.transactions)[..t.pc - 1];
      assert Done(t) == [first] + rest;
      TxsShape(t.msg.transactions);
      forall op | op in rest ensures OpTxCount(r)(op) == 0 { assert op in TxsOps(t.msg.transactions); }
      SumZero(rest, OpTxCount(r));
      SumAppend([first], rest, OpTxCount(r));
      SumOne(first, OpTxCount(r));
      FirstCallCount(t.msg.block.height, t.msg.transactions, r);
    }
  }

  /** In every reachable state, with either kind of columns: once its first call is done, each transaction of a message
      is stored under the message's height, as often as the message holds it; and no other transaction is stored. */
  lemma TransactionsAre(cfg: Config, c: Core, h: int, tx: Transaction)
    requires Reachable(cfg, c)
    ensures forall i :: 0 <= i < |c.tasks| && c.tasks[i].msg.block.height == h ==>
              SumBy(c.tables.transactions, CountIn(TransactionRow(h, tx))) ==
              if c.tasks[i].pc >= 1 then SumBy(c.tasks[i].msg.transactions, CountIn(tx)) else 0
    ensures (forall i :: 0 <= i < |c.tasks| ==> c.tasks[i].msg.block.height != h) ==>
              SumBy(c.tables.transactions, CountIn(TransactionRow(h, tx))) == 0
  {
    var r := TransactionRow(h, tx);
    ReachableStructured(cfg, c);
    ReachableRecorded(cfg, c);
    forall i | 0 <= i < |c.tasks|
      ensures TaskTxCount(r)(c.tasks[i]) ==
              if c.tasks[i].pc >= 1 && Height(c.tasks[i]) == h
              then SumBy(c.tasks[i].msg.transactions, CountIn(tx)) else 0
    {
      TaskTxCountIs(c.tasks[i], r);
    }
    if i :| 0 <= i < |c.tasks| && Height(c.tasks[i]) == h {
      forall j | 0 <= j < |c.tasks| && j != i ensures Height(c.tasks[j]) != h {
        assert Height(c.tasks[if i < j then i else j]) != Height(c.tasks[if i < j then j else i]);
      }
      SumOnly(c.tasks, i, TaskTxCount(r));
    } else {
      SumZero(c.tasks, TaskTxCount(r));
    }
  }

  // ---------------------------------------------------------------- transfers

  /** Whether the event stores this row. */
  ghost function EventRow(a: Arithmetic, hash: string, r: TransferRow): Event -> int {
    (e: Event) => if Reads(e.kind, "transfer") && RowSays(a, r, hash, e) then 1 else 0
  }

  ghost function TxRow(a: Arithmetic, r: TransferRow): Transaction -> int {
    (tx: Transaction) => SumBy(tx.events, EventRow(a, tx.hash, r))
  }

  /** How many events of a message say this row. */
  ghost function MessageRow(a: Arithmetic, r: TransferRow): BlockWithTransactions -> int {
    (m: BlockWithTransactions) => SumBy(m.transactions, TxRow(a, r))
  }

  lemma SaysOne(a: Arithmetic, hash: string, e: Event, r: TransferRow, s: TransferRow)
    requires RowSays(a, r, hash, e) && RowSays(a, s, hash, e)
    ensures r == s
  {
  }

  lemma EventRowCount(a: Arithmetic, hash: string, e: Event, r: TransferRow)
    requires Readable(e)
    ensures SumBy(StoredRows(a, RowsOf(hash, EventTransfers(e))), CountIn(r)) == EventRow(a, hash, r)(e)
  {
    var rows := StoredRows(a, RowsOf(hash, EventTransfers(e)));
    RowOfEvent(a, hash, e);
    if Reads(e.kind, "transfer") {
      assert rows == [rows[0]];
      SumOne(rows[0], CountIn(r));
      if RowSays(a, r, hash, e) { SaysOne(a, hash, e, r, rows[0]); }
    }
  }

  lemma {:induction false} EventsRowCount(a: Arithmetic, hash: string, es: seq<Event>, r: TransferRow)
    requires forall e :: e in es ==> Readable(e)
    ensures SumBy(StoredRows(a, RowsOf(hash, EventsTransfers(es))), CountIn(r)) == SumBy(es, EventRow(a, hash, r))
  {
    if es != [] {
      var here, there := RowsOf(hash, EventTransfers(es[0])), RowsOf(hash, EventsTransfers(es[1..]));
      EventRowCount(a, hash, es[0], r);
      EventsRowCount(a, hash, es[1..], r);
      RowsOfAppend(hash, EventTransfers(es[0]), EventsTransfers(es[1..]));
      StoredAppend(a, here, there);
      SumAppend(StoredRows(a, here), StoredRows(a, there), CountIn(r));
      SumCons(es, EventRow(a, hash, r));
    } else {
      assert RowsOf(hash, EventsTransfers(es)) == [];
    }
  }

  lemma TxRowCount(a: Arithmetic, tx: Transaction, r: TransferRow)
    requires forall e :: e in tx.events ==> Readable(e)
    ensures SumBy(TxOps(tx), OpRowCount(a, r)) == TxRow(a, r)(tx)
  {
    var es, save := EventsOps(tx.events), AddTransfers(tx.hash, EventsTransfers(tx.events));
    EventsShape(tx.events);
    forall op | op in es ensures OpRowCount(a, r)(op) == 0 { assert OpStored(a, op) == []; }
    SumZero(es, OpRowCount(a, r));
    SumSnoc(es, save, OpRowCount(a, r));
    EventsRowCount(a, tx.hash, tx.events, r);
  }

  lemma {:induction false} TxsRowCount(a: Arithmetic, txs: seq<Transaction>, r: TransferRow)
    requires forall tx, e :: tx in txs && e in tx.events ==> Readable(e)
    ensures SumBy(TxsOps(txs), OpRowCount(a, r)) == SumBy(txs, TxRow(a, r))
  {
    if txs != [] {
      TxRowCount(a, txs[0], r);
      TxsRowCount(a, txs[1..], r);
      SumsMatch(txs, TxOps(txs[0]), TxsOps(txs[1..]), OpRowCount(a, r), TxRow(a, r));
    }
  }

  /** A message whose calls are all done has no value that does not parse. */
  lemma {:induction false} DoneParses(txs: seq<Transaction>)
    requires forall op :: op in TxsOps(txs) ==> !op.RejectValue?
    ensures forall tx, e :: tx in txs && e in tx.events ==> Readable(e)
  {
    if txs != [] {
      MembersAppend(TxOps(txs[0]), TxsOps(txs[1..]));
      DoneParses(txs[1..]);
      forall e | e in txs[0].events ensures Readable(e) {
        var tx := txs[0];
        EventOpsWithin(tx.events, e);
        RejectedIff(e);
        MembersAppend(EventsOps(tx.events), [AddTransfers(tx.hash, EventsTransfers(tx.events))]);
        assert forall op :: op in EventOps(e) ==> op in TxOps(tx);
        assert forall op :: op in TxOps(tx) ==> op in TxsOps(txs);
        assert RejectValue in EventOps(e) ==> RejectValue in TxsOps(txs);
      }
    }
  }

  lemma RejectedIff(e: Event)
    ensures RejectValue in EventOps(e) <==> !Readable(e)
  {
    KindsAndFuncs(e);
    FieldsOf(e);
  }

  /** At rest after messages that all succeeded, with either kind of columns: the transfers table holds, for every row,
      as many copies as there are transfer events in the messages that say it, and so nothing else. */
  lemma TransfersAre(cfg: Config, c: Core, r: TransferRow)
    requires Reachable(cfg, c) && AllComplete(c)
    ensures SumBy(c.tables.transfers, CountIn(r)) == SumBy(Messages(c.tasks), MessageRow(cfg.arithmetic, r))
  {
    ReachableRecorded(cfg, c);
    ReachableAdmitted(cfg, c);
    forall i | 0 <= i < |c.tasks|
      ensures TaskRowCount(cfg.arithmetic, r)(c.tasks[i]) == MessageRow(cfg.arithmetic, r)(Messages(c.tasks)[i])
    {
      CompleteRowCount(cfg.arithmetic, c.tasks[i], r);
    }
    SumMap(c.tasks, Messages(c.tasks), TaskRowCount(cfg.arithmetic, r), MessageRow(cfg.arithmetic, r));
  }

  lemma CompleteRowCount(a: Arithmetic, t: Task, r: TransferRow)
    requires Complete(t) && forall op :: op in Done(t) ==> Acceptable(op)
    ensures TaskRowCount(a, r)(t) == MessageRow(a, r)(t.msg)
  {
    var first, ops := AddTransactions(t.msg.block.height, t.msg.transactions), TxsOps(t.msg.transactions);
    assert Done(t) == [first] + ops;
    MembersAppend([first], ops);
    DoneParses(t.msg.transactions);
    TxsRowCount(a, t.msg.transactions, r);
    SumAppend([first], ops, OpRowCount(a, r));
    SumOne(first, OpRowCount(a, r));
    assert OpStored(a, first) == [];
  }
}
