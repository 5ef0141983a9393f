/** What the list of calls made for a message looks like, and what it adds up to: the link between events and calls. */
module Programs {
  import opened Float64
  import opened Model
  import opened Sums
  import opened Tables

  // ---------------------------------------------------------------- shape

  predicate GuardedAt(ops: seq<Op>, j: nat)
    requires j < |ops|
  {
    ops[j].Increment? ==> GetAccount(ops[j].address, ops[j].token) in ops[..j]
  }

  /** A balance is changed only after its account was looked up. */
  predicate Guarded(ops: seq<Op>) {
    forall j :: 0 <= j < |ops| ==> GuardedAt(ops, j)
  }

  predicate CreditOf(debit: Op, credit: Op) {
    && debit.Increment? && credit.Increment? && debit.role.Debit? && credit.role.Credit?
    && debit.token == credit.token && debit.value == credit.value
  }

  predicate PairedAt(ops: seq<Op>, j: nat)
    requires j < |ops|
  {
    ops[j].Increment? ==>
      && (ops[j].role.Debit? ==> j + 1 < |ops| && CreditOf(ops[j], ops[j + 1]))
      && (ops[j].role.Credit? ==> j > 0 && CreditOf(ops[j - 1], ops[j]))
  }

  /** Every debit is followed at once by the credit of the same transfer, and there are no other credits. */
  predicate Paired(ops: seq<Op>) {
    forall j :: 0 <= j < |ops| ==> PairedAt(ops, j)
  }

  predicate Handling(op: Op) { op.GetAccount? || op.Increment? || op.RejectValue? }

  lemma MoveShape(token: string, from: string, to: string, value: int)
    ensures Guarded(MoveOps(token, from, to, value)) && Paired(MoveOps(token, from, to, value))
  {
    var ops := MoveOps(token, from, to, value);
    assert ops[..2][0] == GetAccount(from, token);
    assert ops[..3][1] == GetAccount(to, token);
  }

  lemma PairShape(address: string, token: string, value: int, role: Role)
    requires role.Minting? || role.Burning?
    ensures var ops := [GetAccount(address, token), Increment(address, token, value, role)]; Guarded(ops) && Paired(ops)
  {
    var ops := [GetAccount(address, token), Increment(address, token, value, role)];
    assert ops[..1][0] == GetAccount(address, token);
  }

  lemma EventShape(e: Event)
    ensures Guarded(EventOps(e)) && Paired(EventOps(e))
    ensures forall op :: op in EventOps(e) ==> Handling(op)
  {
    if IsTransfer(e) && ReadAttrs(e.attrs, NO_FIELDS).Some? {
      var f := ReadAttrs(e.attrs, NO_FIELDS).value;
      match FuncOf(e.func) {
        case Mint => PairShape(f.to, e.pkgPath, f.value, Minting);
        case Burn => PairShape(f.from, e.pkgPath, f.value, Burning);
        case Move => MoveShape(e.pkgPath, f.from, f.to, f.value);
        case Other =>
      }
    }
  }

  lemma AppendShape(a: seq<Op>, b: seq<Op>)
    requires Guarded(a) && Paired(a) && Guarded(b) && Paired(b)
    ensures Guarded(a + b) && Paired(a + b)
  {
    var ops := a + b;
    forall j | 0 <= j < |ops|
      ensures GuardedAt(ops, j) && PairedAt(ops, j)
    {
      if j < |a| {
        assert GuardedAt(a, j) && PairedAt(a, j);
        assert ops[..j] == a[..j];
      } else {
        assert GuardedAt(b, j - |a|) && PairedAt(b, j - |a|);
        assert ops[..j] == a + b[..j - |a|];
      }
    }
  }

  lemma {:induction false} EventsShape(es: seq<Event>)
    ensures Guarded(EventsOps(es)) && Paired(EventsOps(es))
    ensures forall op :: op in EventsOps(es) ==> Handling(op)
  {
    if es != [] {
      EventShape(es[0]);
      EventsShape(es[1..]);
      AppendShape(EventOps(es[0]), EventsOps(es[1..]));
    }
  }

  lemma {:induction false} TxsShape(txs: seq<Transaction>)
    ensures Guarded(TxsOps(txs)) && Paired(TxsOps(txs))
    ensures forall op :: op in TxsOps(txs) ==> !op.AddTransactions? && !op.AddAccount?
  {
    if txs != [] {
      var tx := txs[0];
      EventsShape(tx.events);
      AppendShape(EventsOps(tx.events), [AddTransfers(tx.hash, EventsTransfers(tx.events))]);
      TxsShape(txs[1..]);
      AppendShape(TxOps(tx), TxsOps(txs[1..]));
    }
  }

  lemma ProgramShape(m: BlockWithTransactions)
    ensures Guarded(Program(m)) && Paired(Program(m))
    ensures forall op :: op in Program(m) ==> !op.AddAccount? && (op.AddTransactions? ==> op.height == m.block.height)
  {
    TxsShape(m.transactions);
    AppendShape([AddTransactions(m.block.height, m.transactions)], TxsOps(m.transactions));
  }

  // ---------------------------------------------------------------- which accounts a transfer row names

  /** The event carries no address that its handler does not look up: a mint no other sender, a burn no other receiver,
      an unknown function none at all. */
  predicate NoStrayAddress(e: Event) {
    IsTransfer(e) ==>
      match ReadAttrs(e.attrs, NO_FIELDS)
      case None => true
      case Some(f) =>
        match FuncOf(e.func)
        case Mint => f.from == "" || f.from == f.to
        case Burn => f.to == "" || f.to == f.from
        case Move => true
        case Other => f.from == "" && f.to == ""
  }

  predicate LookedUp(t: Transfer, ops: seq<Op>) {
    && (t.from != "" ==> GetAccount(t.from, t.token) in ops)
    && (t.to != "" ==> GetAccount(t.to, t.token) in ops)
  }

  /** Every address a bulk insert will store was looked up earlier in the same program. */
  predicate Covered(ops: seq<Op>) {
    forall j :: 0 <= j < |ops| && ops[j].AddTransfers? ==>
      forall t :: t in ops[j].transfers ==> LookedUp(t, ops[..j])
  }

  lemma AppendCovered(a: seq<Op>, b: seq<Op>)
    requires Covered(a) && Covered(b)
    ensures Covered(a + b)
  {
    var ops := a + b;
    forall j, t | 0 <= j < |ops| && ops[j].AddTransfers? && t in ops[j].transfers
      ensures LookedUp(t, ops[..j])
    {
      if j < |a| {
        assert ops[..j] == a[..j];
        assert ops[j] == a[j];
      } else {
        assert ops[..j] == a + b[..j - |a|];
        assert ops[j] == b[j - |a|];
        assert LookedUp(t, b[..j - |a|]);
      }
    }
  }

  lemma EventCovered(e: Event)
    ensures NoStrayAddress(e) <==> forall t :: t in EventTransfers(e) ==> LookedUp(t, EventOps(e))
  {
    var ops := EventOps(e);
    if EventTransfers(e) != [] { assert EventTransfers(e)[0] in EventTransfers(e); }
    if |ops| > 0 { assert ops[0] in ops; }
    if |ops| > 1 { assert ops[1] in ops; }
  }

  lemma {:induction false} EventsCovered(es: seq<Event>)
    requires forall e :: e in es ==> NoStrayAddress(e)
    ensures forall t :: t in EventsTransfers(es) ==> LookedUp(t, EventsOps(es))
  {
    if es != [] {
      EventCovered(es[0]);
      EventsCovered(es[1..]);
    }
  }

  lemma {:induction false} TxsCovered(txs: seq<Transaction>)
    requires forall tx, e :: tx in txs && e in tx.events ==> NoStrayAddress(e)
    ensures Covered(TxsOps(txs))
  {
    if txs != [] {
      var tx := txs[0];
      EventsCovered(tx.events);
      EventsShape(tx.events);
      var ops := EventsOps(tx.events);
      assert TxOps(tx)[..|ops|] == ops;
      assert forall j :: 0 <= j < |ops| ==> TxOps(tx)[j] in ops;
      assert Covered(TxOps(tx));
      TxsCovered(txs[1..]);
      AppendCovered(TxOps(tx), TxsOps(txs[1..]));
    }
  }

  lemma ProgramCovered(m: BlockWithTransactions)
    requires forall tx, e :: tx in m.transactions && e in tx.events ==> NoStrayAddress(e)
    ensures Covered(Program(m))
  {
    TxsCovered(m.transactions);
    AppendCovered([AddTransactions(m.block.height, m.transactions)], TxsOps(m.transactions));
  }

  // ---------------------------------------------------------------- the width of amounts

  predicate Int64(v: int) { MIN_INT64 <= v <= MAX_INT64 }

  /** A call hands on only int64 amounts, negated or not. */
  predicate AmountsFit(op: Op) {
    && (op.Increment? ==> Int64(Amount(op)))
    && (op.AddTransfers? ==> forall t :: t in op.transfers ==> Int64(t.amount))
  }

  lemma {:induction false} EventsAmountsFit(es: seq<Event>)
    ensures forall op :: op in EventsOps(es) ==> AmountsFit(op)
    ensures forall t :: t in EventsTransfers(es) ==> Int64(t.amount)
  {
    if es != [] {
      ReadAttrsInRange(es[0].attrs, NO_FIELDS);
      EventsAmountsFit(es[1..]);
    }
  }

  lemma {:induction false} TxsAmountsFit(txs: seq<Transaction>)
    ensures forall op :: op in TxsOps(txs) ==> AmountsFit(op)
  {
    if txs != [] {
      EventsAmountsFit(txs[0].events);
      TxsAmountsFit(txs[1..]);
    }
  }

  /** Every amount that any message makes the ledger apply or store is an int64, also after negation. */
  lemma ProgramAmountsFit(m: BlockWithTransactions)
    ensures forall op :: op in Program(m) ==> AmountsFit(op)
  {
    TxsAmountsFit(m.transactions);
  }

  // ---------------------------------------------------------------- where a transaction's rows are stored

  /** The position, in the program of a message with these transactions, of the bulk insert of transaction n. */
  function SavePoint(txs: seq<Transaction>, n: nat): nat
    requires n < |txs|
  {
    1 + |TxsOps(txs[..n])| + |EventsOps(txs[n].events)|
  }

  lemma {:induction false} TxsOpsSplit(txs: seq<Transaction>, n: nat)
    requires n <= |txs|
    ensures TxsOps(txs) == TxsOps(txs[..n]) + TxsOps(txs[n..])
  {
    if n > 0 {
      TxsOpsSplit(txs[1..], n - 1);
      assert txs[1..][..n - 1] == txs[..n][1..] && txs[1..][n - 1..] == txs[n..];
      Regroup(TxOps(txs[0]), TxsOps(txs[..n][1..]), TxsOps(txs[n..]));
    } else {
      assert txs[..0] == [] && txs[0..] == txs;
    }
  }

  lemma {:induction false} EventsOpsSplit(es: seq<Event>, n: nat)
    requires n <= |es|
    ensures EventsOps(es) == EventsOps(es[..n]) + EventsOps(es[n..])
  {
    if n > 0 {
      EventsOpsSplit(es[1..], n - 1);
      assert es[1..][..n - 1] == es[..n][1..] && es[1..][n - 1..] == es[n..];
      Regroup(EventOps(es[0]), EventsOps(es[..n][1..]), EventsOps(es[n..]));
    } else {
      assert es[..0] == [] && es[0..] == es;
    }
  }

  /** The program around the bulk insert of transaction n. */
  lemma ProgramAround(m: BlockWithTransactions, n: nat)
    requires n < |m.transactions|
    ensures var txs := m.transactions;
            var tx := txs[n];
            Program(m) ==
            [AddTransactions(m.block.height, txs)] + TxsOps(txs[..n]) + EventsOps(tx.events)
            + [AddTransfers(tx.hash, EventsTransfers(tx.events))] + TxsOps(txs[n + 1..])
  {
    var txs := m.transactions;
    var tx := txs[n];
    var first, before, after := [AddTransactions(m.block.height, txs)], TxsOps(txs[..n]), TxsOps(txs[n + 1..]);
    var es, save := EventsOps(tx.events), [AddTransfers(tx.hash, EventsTransfers(tx.events))];
    assert txs[n..][0] == tx && txs[n..][1..] == txs[n + 1..];
    TxsOpsSplit(txs, n);
    Regroup(before, es + save, after);
    Regroup(first, before + (es + save), after);
    Regroup(first, before, es + save);
    Regroup(first + before, es, save);
  }

  /** There the program stores the rows of transaction n, right after the calls of the transaction's events. */
  lemma SavePointOp(m: BlockWithTransactions, n: nat)
    requires n < |m.transactions|
    ensures var tx, p := m.transactions[n], SavePoint(m.transactions, n);
            && p < |Program(m)| && Program(m)[p] == AddTransfers(tx.hash, EventsTransfers(tx.events))
            && forall op :: op in EventsOps(tx.events) ==> op in Program(m)[..p]
  {
    var txs := m.transactions;
    var start := [AddTransactions(m.block.height, txs)] + TxsOps(txs[..n]);
    var es := EventsOps(txs[n].events);
    ProgramAround(m, n);
    assert Program(m)[..|start + es|] == start + es;
  }

  lemma {:induction false} EventOpsWithin(es: seq<Event>, e: Event)
    requires e in es
    ensures forall op :: op in EventOps(e) ==> op in EventsOps(es)
  {
    if e != es[0] { EventOpsWithin(es[1..], e); }
  }

  lemma {:induction false} EventOfRow(es: seq<Event>, hash: string, r: TransferRow) returns (e: Event)
    requires r in RowsOf(hash, EventsTransfers(es))
    ensures e in es && r in RowsOf(hash, EventTransfers(e))
  {
    RowsOfAppend(hash, EventTransfers(es[0]), EventsTransfers(es[1..]));
    if r in RowsOf(hash, EventTransfers(es[0])) {
      e := es[0];
    } else {
      e := EventOfRow(es[1..], hash, r);
    }
  }

  // ---------------------------------------------------------------- what calls, rows and events add to an account

  /** What a call adds to the balance of k. */
  function Delta(k: AccountKey): Op -> int {
    (op: Op) => if op.Increment? && op.address == k.address && op.token == k.token then Amount(op) else 0
  }

  /** What a stored transfer says about the balance of k, going by the table alone. */
  function RowEffect(k: AccountKey): TransferRow -> int {
    (r: TransferRow) =>
      if r.token != k.token then 0
      else
        (if (r.func == "mint" || r.func == "transfer") && r.to == Some(k.address) then r.amount else 0)
        - (if (r.func == "burn" || r.func == "transfer") && r.from == Some(k.address) then r.amount else 0)
  }

  /** What an event means for the balance of k: the plain ledger rule. */
  function EventEffect(k: AccountKey): Event -> int {
    (e: Event) =>
      if !IsTransfer(e) || e.pkgPath != k.token then 0
      else match ReadAttrs(e.attrs, NO_FIELDS)
        case None => 0
        case Some(f) =>
          var action := FuncOf(e.func);
          (if (action.Mint? || action.Move?) && f.to == k.address then f.value else 0)
          - (if (action.Burn? || action.Move?) && f.from == k.address then f.value else 0)
  }

  function TxEffect(k: AccountKey): Transaction -> int {
    (tx: Transaction) => SumBy(tx.events, EventEffect(k))
  }

  function MessageEffect(k: AccountKey): BlockWithTransactions -> int {
    (m: BlockWithTransactions) => SumBy(m.transactions, TxEffect(k))
  }

  predicate ProperKey(k: AccountKey) { k.address != "" && k.token != "" }

  /** The rows a call stores. */
  function OpRows(op: Op): seq<TransferRow> {
    if op.AddTransfers? then RowsOf(op.hash, op.transfers) else []
  }

  /** The same rows as the table holds them. */
  function OpStored(a: Arithmetic, op: Op): seq<TransferRow> { StoredRows(a, OpRows(op)) }

  /** A bulk insert fails exactly if a row is invalid or refers to no account, and else appends the rows as stored. */
  lemma SaveOutcome(cfg: Config, t: Tables, op: Op)
    requires op.AddTransfers?
    ensures Apply(cfg, t, op) ==
            if RowsValid(OpRows(op)) && RowsRefer(t.accounts, OpRows(op))
            then Ok(t.(transfers := t.transfers + OpStored(cfg.arithmetic, op))) else Failed
  {
    StoredAlike(cfg.arithmetic, t.accounts, OpRows(op));
  }

  function OpRowEffect(a: Arithmetic, k: AccountKey): Op -> int {
    (op: Op) => SumBy(OpStored(a, op), RowEffect(k))
  }

  predicate RowsChecked(ops: seq<Op>) {
    forall op :: op in ops ==> RowsValid(OpRows(op))
  }

  lemma RowsCheckedSplit(a: seq<Op>, b: seq<Op>)
    requires RowsChecked(a + b)
    ensures RowsChecked(a) && RowsChecked(b)
  {
    forall op | op in a || op in b ensures RowsValid(OpRows(op)) { assert op in a + b; }
  }

  lemma RowsOfAppend(hash: string, a: seq<Transfer>, b: seq<Transfer>)
    ensures RowsOf(hash, a + b) == RowsOf(hash, a) + RowsOf(hash, b)
  {
  }

  lemma {:induction false} TransfersSnoc(es: seq<Event>, e: Event)
    ensures EventsTransfers(es + [e]) == EventsTransfers(es) + EventTransfers(e)
  {
    var all := es + [e];
    if es == [] {
      assert all == [e] && all[1..] == [];
      assert EventsTransfers([]) == [];
    } else {
      var here, rest := EventTransfers(es[0]), EventsTransfers(es[1..]);
      assert all[0] == es[0] && all[1..] == es[1..] + [e];
      TransfersSnoc(es[1..], e);
      assert here + (rest + EventTransfers(e)) == (here + rest) + EventTransfers(e);
    }
  }

  lemma SumOne<T>(x: T, f: T -> int)
    ensures SumBy([x], f) == f(x)
  {
    SumSnoc([], x, f);
    assert [] + [x] == [x];
  }

  lemma SumFour<T>(s: seq<T>, f: T -> int)
    ensures |s| == 2 ==> SumBy(s, f) == f(s[0]) + f(s[1])
    ensures |s| == 4 ==> SumBy(s, f) == f(s[0]) + f(s[1]) + f(s[2]) + f(s[3])
  {
    if |s| == 2 {
      assert s == [s[0]] + [s[1]];
      SumOne(s[0], f);
      SumSnoc([s[0]], s[1], f);
    }
    if |s| == 4 {
      SumOne(s[0], f);
      SumSnoc([s[0]], s[1], f);
      SumSnoc([s[0], s[1]], s[2], f);
      SumSnoc([s[0], s[1], s[2]], s[3], f);
      assert [s[0]] + [s[1]] == [s[0], s[1]];
      assert [s[0], s[1]] + [s[2]] == [s[0], s[1], s[2]];
      assert s == [s[0], s[1], s[2]] + [s[3]];
    }
  }

  /** No burn or transfer of the one int64 that has no negation. */
  predicate Negatable(e: Event) {
    IsTransfer(e) && ReadAttrs(e.attrs, NO_FIELDS).Some? ==> ReadAttrs(e.attrs, NO_FIELDS).value.value != MIN_INT64
  }

  /** The calls made for an event change each account by exactly what the event means. */
  lemma EventOpsEffect(e: Event, k: AccountKey)
    requires ProperKey(k) && Negatable(e)
    ensures SumBy(EventOps(e), Delta(k)) == EventEffect(k)(e)
  {
    var ops := EventOps(e);
    SumFour(ops, Delta(k));
    if |ops| == 1 { SumOne(ops[0], Delta(k)); }
  }

  /** So does the row written for it. */
  lemma EventRowEffect(e: Event, hash: string, k: AccountKey)
    requires ProperKey(k)
    ensures SumBy(RowsOf(hash, EventTransfers(e)), RowEffect(k)) == EventEffect(k)(e)
  {
    var rows := RowsOf(hash, EventTransfers(e));
    if rows != [] {
      assert rows == [rows[0]];
      SumOne(rows[0], RowEffect(k));
    }
  }

  lemma {:induction false} EventsOpsEffect(es: seq<Event>, k: AccountKey)
    requires ProperKey(k) && forall e :: e in es ==> Negatable(e)
    ensures SumBy(EventsOps(es), Delta(k)) == SumBy(es, EventEffect(k))
  {
    if es != [] {
      EventOpsEffect(es[0], k);
      EventsOpsEffect(es[1..], k);
      SumAppend(EventOps(es[0]), EventsOps(es[1..]), Delta(k));
      SumCons(es, EventEffect(k));
    }
  }

  lemma {:induction false} EventsRowEffect(es: seq<Event>, hash: string, k: AccountKey)
    requires ProperKey(k)
    ensures SumBy(RowsOf(hash, EventsTransfers(es)), RowEffect(k)) == SumBy(es, EventEffect(k))
  {
    if es != [] {
      EventRowEffect(es[0], hash, k);
      EventsRowEffect(es[1..], hash, k);
      RowsOfAppend(hash, EventTransfers(es[0]), EventsTransfers(es[1..]));
      SumAppend(RowsOf(hash, EventTransfers(es[0])), RowsOf(hash, EventsTransfers(es[1..])), RowEffect(k));
      SumCons(es, EventEffect(k));
    }
  }

  /** Rows that pass the positive-amount validator come from events that can be negated. */
  lemma {:induction false} CheckedRowsNegatable(es: seq<Event>, hash: string)
    requires RowsValid(RowsOf(hash, EventsTransfers(es)))
    ensures forall e :: e in es ==> Negatable(e)
  {
    if es != [] {
      var ts := EventsTransfers(es);
      var rows := RowsOf(hash, ts);
      var here, rest := EventTransfers(es[0]), EventsTransfers(es[1..]);
      assert ts == here + rest;
      RowsOfAppend(hash, here, rest);
      forall r | r in RowsOf(hash, rest) ensures FirstInvalid(r).None? { assert r in rows; }
      CheckedRowsNegatable(es[1..], hash);
      if here != [] {
        assert rows[0] == RowOf(hash, here[0]);
        assert rows[0] in rows;
      }
    }
  }

  lemma TxOpsEffect(tx: Transaction, k: AccountKey)
    requires ProperKey(k) && RowsValid(RowsOf(tx.hash, EventsTransfers(tx.events)))
    ensures SumBy(TxOps(tx), Delta(k)) == TxEffect(k)(tx)
    ensures SumBy(TxOps(tx), OpRowEffect(Exact, k)) == TxEffect(k)(tx)
  {
    var es, save := EventsOps(tx.events), AddTransfers(tx.hash, EventsTransfers(tx.events));
    CheckedRowsNegatable(tx.events, tx.hash);
    EventsOpsEffect(tx.events, k);
    EventsRowEffect(tx.events, tx.hash, k);
    EventsShape(tx.events);
    SumZero(es, OpRowEffect(Exact, k));
    SumSnoc(es, save, Delta(k));
    SumSnoc(es, save, OpRowEffect(Exact, k));
  }

  /** Sums over a concatenation of calls match sums over a list of transactions that splits alike. */
  lemma SumsMatch(txs: seq<Transaction>, a: seq<Op>, b: seq<Op>, f: Op -> int, g: Transaction -> int)
    requires txs != []
    requires SumBy(a, f) == g(txs[0]) && SumBy(b, f) == SumBy(txs[1..], g)
    ensures SumBy(a + b, f) == SumBy(txs, g)
  {
    SumAppend(a, b, f);
    SumCons(txs, g);
  }

  lemma {:induction false} TxsOpsEffect(txs: seq<Transaction>, k: AccountKey)
    requires ProperKey(k) && RowsChecked(TxsOps(txs))
    ensures SumBy(TxsOps(txs), Delta(k)) == SumBy(txs, TxEffect(k))
    ensures SumBy(TxsOps(txs), OpRowEffect(Exact, k)) == SumBy(txs, TxEffect(k))
  {
    if txs != [] {
      var tx, rest := txs[0], txs[1..];
      var save := AddTransfers(tx.hash, EventsTransfers(tx.events));
      RowsCheckedSplit(TxOps(tx), TxsOps(rest));
      assert save in TxOps(tx);
      assert RowsValid(OpRows(save));
      TxOpsEffect(tx, k);
      TxsOpsEffect(rest, k);
      SumsMatch(txs, TxOps(tx), TxsOps(rest), Delta(k), TxEffect(k));
      SumsMatch(txs, TxOps(tx), TxsOps(rest), OpRowEffect(Exact, k), TxEffect(k));
    }
  }

  /** A program all of whose rows were stored changed every account by what its events mean, and so do its rows. */
  lemma ProgramEffect(m: BlockWithTransactions, k: AccountKey)
    requires ProperKey(k) && RowsChecked(Program(m))
    ensures SumBy(Program(m), Delta(k)) == MessageEffect(k)(m)
    ensures SumBy(Program(m), OpRowEffect(Exact, k)) == MessageEffect(k)(m)
  {
    var first := AddTransactions(m.block.height, m.transactions);
    var ops := TxsOps(m.transactions);
    RowsCheckedSplit([first], ops);
    TxsOpsEffect(m.transactions, k);
    SumOne(first, Delta(k));
    SumOne(first, OpRowEffect(Exact, k));
    SumAppend([first], ops, Delta(k));
    SumAppend([first], ops, OpRowEffect(Exact, k));
  }
}
