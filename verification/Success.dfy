/** Exactly when a message succeeds, and what follows for the worker pool. */
module Success {
  import opened Conservation
  import opened Core
  import opened Deliveries
  import opened Model
  import opened Programs
  import opened Refinement
  import opened Sums
  import opened Tables
  import P = Pool

  // ---------------------------------------------------------------- how far a program gets

  lemma ExecSnoc(cfg: Config, t: Tables, ops: seq<Op>, op: Op)
    ensures Exec(cfg, t, ops + [op]) == var r := Exec(cfg, t, ops); if r.ok then ExecOp(cfg, r.tables, op) else r
  {
    ExecAppend(cfg, t, ops, [op]);
    if Exec(cfg, t, ops).ok {
      assert [op] == [op] + [];
      ExecCons(cfg, Exec(cfg, t, ops).tables, op, []);
    }
  }

  /** A program stops at its first failing call, with the tables as the calls before it left them. */
  lemma ExecFailsAt(cfg: Config, t: Tables, ops: seq<Op>, op: Op, rest: seq<Op>)
    requires Exec(cfg, t, ops).ok && !ExecOp(cfg, Exec(cfg, t, ops).tables, op).ok
    ensures Exec(cfg, t, ops + ([op] + rest)) == Run(Exec(cfg, t, ops).tables, false)
  {
    ExecAppend(cfg, t, ops, [op] + rest);
    ExecCons(cfg, Exec(cfg, t, ops).tables, op, rest);
  }

  /** The accounts that the calls look up. */
  function Lookups(ops: seq<Op>): set<AccountKey> {
    set op | op in ops && op.GetAccount? :: AccountKey(op.address, op.token)
  }

  predicate NoBareInsert(ops: seq<Op>) { forall op :: op in ops ==> !op.AddAccount? }

  /** What every successful program leaves: no row is lost, new rows were looked up, and all lookups find their row. */
  lemma {:induction false} ExecAccounts(cfg: Config, t: Tables, ops: seq<Op>)
    requires NoBareInsert(ops) && Exec(cfg, t, ops).ok
    ensures var r := Exec(cfg, t, ops).tables;
            && t.accounts.Keys <= r.accounts.Keys <= t.accounts.Keys + Lookups(ops)
            && forall op :: op in ops && op.GetAccount? ==> Present(r.accounts, op.address, op.token)
    decreases |ops|
  {
    if ops != [] {
      var front, last := ops[..|ops| - 1], ops[|ops| - 1];
      assert ops == front + [last];
      ExecSnoc(cfg, t, front, last);
      ExecAccounts(cfg, t, front);
      var mid, r := Exec(cfg, t, front).tables, Exec(cfg, t, ops).tables;
      EffectOnAccounts(cfg, mid, last, r);
      if last.GetAccount? { LookupPresent(cfg, mid, last, r); }
      StaysPresent(mid.accounts, r.accounts);
      assert Lookups(front) <= Lookups(ops);
    }
  }

  lemma StaysPresent(a: map<AccountKey, int>, b: map<AccountKey, int>)
    requires a.Keys <= b.Keys
    ensures forall address, token :: Present(a, address, token) ==> Present(b, address, token)
  {
    forall x | HasAddress(a, x) ensures HasAddress(b, x) {
      var k :| k in a && k.address == x;
      assert k in b;
    }
  }

  /** Balances and log after a successful program: each call has added its amount, each bulk insert its rows. */
  lemma {:induction false} ExecEffect(cfg: Config, t: Tables, ops: seq<Op>, k: AccountKey)
    requires cfg.arithmetic.Exact? && ProperKey(k)
    requires NoBareInsert(ops) && Guarded(ops) && Exec(cfg, t, ops).ok
    ensures var r := Exec(cfg, t, ops).tables;
            && Balance(r.accounts, k) == Balance(t.accounts, k) + SumBy(ops, Delta(k))
            && SumBy(r.transfers, RowEffect(k)) == SumBy(t.transfers, RowEffect(k)) + SumBy(ops, OpRowEffect(Exact, k))
    decreases |ops|
  {
    if ops != [] {
      var front, last := ops[..|ops| - 1], ops[|ops| - 1];
      assert ops == front + [last];
      GuardedPrefix(ops, |front|);
      ExecSnoc(cfg, t, front, last);
      ExecEffect(cfg, t, front, k);
      ExecAccounts(cfg, t, front);
      var mid, r := Exec(cfg, t, front).tables, Exec(cfg, t, ops).tables;
      assert GuardedAt(ops, |front|);
      EffectOnBalance(cfg, mid, last, r, k);
      EffectOnLogs(cfg, mid, last, r);
      SumAppend(mid.transfers, OpRows(last), RowEffect(k));
      SumSnoc(front, last, Delta(k));
      SumSnoc(front, last, OpRowEffect(Exact, k));
    }
  }

  lemma GuardedPrefix(ops: seq<Op>, n: nat)
    requires Guarded(ops) && n <= |ops|
    ensures Guarded(ops[..n])
  {
    forall j | 0 <= j < n ensures GuardedAt(ops[..n], j) {
      assert GuardedAt(ops, j);
      assert ops[..n][..j] == ops[..j];
    }
  }

  // ---------------------------------------------------------------- which calls can fail

  /** A call that does not fail for what it carries. */
  predicate Acceptable(op: Op) {
    && !op.RejectValue?
    && (op.AddTransactions? ==> forall tx :: tx in op.txs ==> tx.hash != "")
    && RowsValid(OpRows(op))
  }

  lemma EffectAcceptable(cfg: Config, t: Tables, op: Op, t': Tables)
    requires Effect(cfg, t, op, t')
    ensures Acceptable(op)
  {
    if op.AddTransfers? { SaveOutcome(cfg, t, op); }
  }

  /** A lookup that names one account. */
  predicate Naming(op: Op) { op.GetAccount? ==> ProperKey(AccountKey(op.address, op.token)) }

  /** The account rows the key allows to exist together: under the generated key, one token for each address. */
  predicate Coherent(key: Uniqueness, ks: set<AccountKey>) {
    key.ByAddress? ==> forall k, l :: k in ks && l in ks && k.address == l.address ==> k == l
  }

  /** One naming lookup succeeds exactly when the key allows its row beside the others. */
  lemma LookupSucceedsIff(cfg: Config, t: Tables, op: Op)
    requires op.GetAccount? && Naming(op) && Coherent(cfg.key, t.accounts.Keys)
    ensures ExecOp(cfg, t, op).ok <==> Coherent(cfg.key, t.accounts.Keys + {AccountKey(op.address, op.token)})
  {
    var k := AccountKey(op.address, op.token);
    var ks := Matching(t.accounts, op.address, op.token);
    if k in t.accounts {
      assert ks == {k};
      assert t.accounts.Keys + {k} == t.accounts.Keys;
    } else {
      assert ks == {};
      if HasAddress(t.accounts, k.address) {
        var l :| l in t.accounts && l.address == k.address;
        assert l in t.accounts.Keys + {k} && k in t.accounts.Keys + {k};
      }
    }
  }

  lemma {:induction false} StaysCoherent(cfg: Config, t: Tables, ops: seq<Op>)
    requires NoBareInsert(ops) && Exec(cfg, t, ops).ok && Coherent(cfg.key, t.accounts.Keys)
    ensures Coherent(cfg.key, Exec(cfg, t, ops).tables.accounts.Keys)
    decreases |ops|
  {
    if ops != [] {
      var front, last := ops[..|ops| - 1], ops[|ops| - 1];
      assert ops == front + [last];
      ExecSnoc(cfg, t, front, last);
      StaysCoherent(cfg, t, front);
      EffectOnAccounts(cfg, Exec(cfg, t, front).tables, last, Exec(cfg, t, ops).tables);
    }
  }

  lemma CoveredPrefix(ops: seq<Op>, n: nat)
    requires Covered(ops) && n <= |ops|
    ensures Covered(ops[..n])
  {
    forall j, t | 0 <= j < n && ops[..n][j].AddTransfers? && t in ops[..n][j].transfers
      ensures LookedUp(t, ops[..n][..j])
    {
      assert ops[..n][..j] == ops[..j] && ops[..n][j] == ops[j];
    }
  }

  /** The bulk insert that ends covered calls meets its foreign keys. */
  lemma CoveredRefers(accounts: map<AccountKey, int>, ops: seq<Op>, save: Op)
    requires save.AddTransfers? && forall t :: t in save.transfers ==> LookedUp(t, ops)
    requires forall op :: op in ops && op.GetAccount? ==> Present(accounts, op.address, op.token)
    ensures RowsRefer(accounts, OpRows(save))
  {
    forall r | r in OpRows(save) ensures Refers(accounts, r) {
      var n :| 0 <= n < |save.transfers| && r == RowOf(save.hash, save.transfers[n]);
      var t := save.transfers[n];
      assert LookedUp(t, ops);
      if t.from != "" { assert Present(accounts, GetAccount(t.from, t.token).address, t.token); }
      if t.to != "" { assert Present(accounts, GetAccount(t.to, t.token).address, t.token); }
    }
  }

  /** Calls that are acceptable, name their accounts and look up what they store succeed, if the key allows the rows. */
  lemma {:induction false} ExecSucceeds(cfg: Config, t: Tables, ops: seq<Op>)
    requires NoBareInsert(ops) && Covered(ops) && forall op :: op in ops ==> Acceptable(op) && Naming(op)
    requires Coherent(cfg.key, t.accounts.Keys + Lookups(ops))
    ensures Exec(cfg, t, ops).ok
    decreases |ops|
  {
    if ops != [] {
      var front, last := ops[..|ops| - 1], ops[|ops| - 1];
      assert ops == front + [last];
      assert Lookups(front) <= Lookups(ops);
      CoveredPrefix(ops, |front|);
      ExecSucceeds(cfg, t, front);
      ExecSnoc(cfg, t, front, last);
      ExecAccounts(cfg, t, front);
      var mid := Exec(cfg, t, front).tables;
      assert last in ops && Acceptable(last);
      if last.GetAccount? {
        assert AccountKey(last.address, last.token) in Lookups(ops);
        assert mid.accounts.Keys + {AccountKey(last.address, last.token)} <= t.accounts.Keys + Lookups(ops);
        LookupSucceedsIff(cfg, mid, last);
      } else if last.AddTransfers? {
        CoveredRefers(mid.accounts, front, last);
        SaveOutcome(cfg, mid, last);
      }
    }
  }

  /** Conversely, success means every call was acceptable and the key allowed every row. */
  lemma {:induction false} SuccessMeans(cfg: Config, t: Tables, ops: seq<Op>)
    requires NoBareInsert(ops) && Exec(cfg, t, ops).ok
    ensures forall op :: op in ops ==> Acceptable(op)
    decreases |ops|
  {
    if ops != [] {
      var front, last := ops[..|ops| - 1], ops[|ops| - 1];
      assert ops == front + [last];
      ExecSnoc(cfg, t, front, last);
      SuccessMeans(cfg, t, front);
      EffectAcceptable(cfg, Exec(cfg, t, front).tables, last, Exec(cfg, t, ops).tables);
    }
  }

  // ---------------------------------------------------------------- exactly when any calls succeed

  /** The rows of these keys that a query selects. */
  function Selected(ks: set<AccountKey>, address: string, token: string): set<AccountKey> {
    set k | k in ks && (address == "" || k.address == address) && (token == "" || k.token == token)
  }

  /** The accounts that the calls name in full: those they may create. */
  function Named(ops: seq<Op>): set<AccountKey> { set k | k in Lookups(ops) && ProperKey(k) }

  predicate Known(ks: set<AccountKey>, address: string) {
    address != "" ==> exists k :: k in ks && k.address == address
  }

  /** Whether a call succeeds on an account table with these keys: nothing else of the tables matters. */
  predicate CallOk(key: Uniqueness, ks: set<AccountKey>, op: Op) {
    match op
    case AddTransactions(_, txs) => forall tx :: tx in txs ==> tx.hash != ""
    case GetAccount(address, token) =>
      if address != "" && token != "" then Coherent(key, ks + {AccountKey(address, token)})
      else |Selected(ks, address, token)| == 1
    case AddAccount(_, _) => false
    case Increment(_, _, _, _) => true
    case AddTransfers(_, ts) => RowsValid(OpRows(op)) && forall t :: t in ts ==> Known(ks, t.from) && Known(ks, t.to)
    case RejectValue => false
  }

  lemma RefersIffKnown(accounts: map<AccountKey, int>, op: Op)
    requires op.AddTransfers?
    ensures RowsRefer(accounts, OpRows(op)) <==>
            forall t :: t in op.transfers ==> Known(accounts.Keys, t.from) && Known(accounts.Keys, t.to)
  {
    var rows, ts := OpRows(op), op.transfers;
    forall i | 0 <= i < |ts|
      ensures Refers(accounts, rows[i]) <==> Known(accounts.Keys, ts[i].from) && Known(accounts.Keys, ts[i].to)
    {
      KnownIff(accounts, ts[i].from);
      KnownIff(accounts, ts[i].to);
    }
    ByPlace(rows, (r: TransferRow) => Refers(accounts, r));
    assert forall t :: t in ts <==> exists i :: 0 <= i < |ts| && ts[i] == t;
  }

  lemma KnownIff(accounts: map<AccountKey, int>, address: string)
    ensures Known(accounts.Keys, address) <==> (address != "" ==> HasAddress(accounts, address))
  {
    if k :| k in accounts && k.address == address { assert k in accounts.Keys; }
    if k :| k in accounts.Keys && k.address == address { assert k in accounts; }
  }

  /** A lookup by part of a key creates nothing and succeeds exactly if it finds a single row. */
  lemma PartialLookup(cfg: Config, t: Tables, op: Op)
    requires op.GetAccount? && (op.address == "" || op.token == "")
    ensures ExecOp(cfg, t, op).ok <==> |Selected(t.accounts.Keys, op.address, op.token)| == 1
    ensures ExecOp(cfg, t, op).tables == t
  {
    assert Selected(t.accounts.Keys, op.address, op.token) == Matching(t.accounts, op.address, op.token);
  }

  /** One call: whether it succeeds, and which accounts are there afterwards. */
  lemma CallOkIff(cfg: Config, t: Tables, op: Op)
    requires Coherent(cfg.key, t.accounts.Keys) && !op.AddAccount?
    ensures ExecOp(cfg, t, op).ok <==> CallOk(cfg.key, t.accounts.Keys, op)
    ensures ExecOp(cfg, t, op).ok ==> ExecOp(cfg, t, op).tables.accounts.Keys == t.accounts.Keys + Named([op])
  {
    if op.GetAccount? {
      if Naming(op) {
        LookupSucceedsIff(cfg, t, op);
        assert Named([op]) == {AccountKey(op.address, op.token)};
        if ExecOp(cfg, t, op).ok {
          LookupPresent(cfg, t, op, ExecOp(cfg, t, op).tables);
          EffectOnAccounts(cfg, t, op, ExecOp(cfg, t, op).tables);
        }
      } else {
        PartialLookup(cfg, t, op);
        assert Named([op]) == {};
      }
    } else {
      assert Named([op]) == {};
      if op.AddTransfers? {
        SaveOutcome(cfg, t, op);
        RefersIffKnown(t.accounts, op);
      }
    }
  }

  /** Each call finds the keys it needs among those there at first and those named before it. */
  predicate GoesThrough(key: Uniqueness, ks: set<AccountKey>, ops: seq<Op>) {
    forall p :: 0 <= p < |ops| ==> CallOk(key, ks + Named(ops[..p]), ops[p])
  }

  lemma NamedAppend(a: seq<Op>, b: seq<Op>)
    ensures Named(a + b) == Named(a) + Named(b)
  {
    forall k | k in Named(a + b) ensures k in Named(a) + Named(b) {
      var op :| op in a + b && op.GetAccount? && AccountKey(op.address, op.token) == k;
      assert op in a || op in b;
    }
    forall k | k in Named(a) ensures k in Named(a + b) {
      var op :| op in a && op.GetAccount? && AccountKey(op.address, op.token) == k;
      assert op in a + b;
    }
    forall k | k in Named(b) ensures k in Named(a + b) {
      var op :| op in b && op.GetAccount? && AccountKey(op.address, op.token) == k;
      assert op in a + b;
    }
  }

  lemma GoesThroughSnoc(key: Uniqueness, ks: set<AccountKey>, front: seq<Op>, last: Op)
    ensures GoesThrough(key, ks, front + [last]) <==>
            GoesThrough(key, ks, front) && CallOk(key, ks + Named(front), last)
  {
    var ops := front + [last];
    assert ops[..|front|] == front && ops[|front|] == last;
    assert forall p :: 0 <= p < |front| ==> ops[..p] == front[..p] && ops[p] == front[p];
  }

  /** Exactly when calls succeed, whatever they are, and which accounts they leave. */
  lemma {:induction false} GoesThroughIff(cfg: Config, t: Tables, ops: seq<Op>)
    requires Coherent(cfg.key, t.accounts.Keys) && NoBareInsert(ops)
    ensures Exec(cfg, t, ops).ok <==> GoesThrough(cfg.key, t.accounts.Keys, ops)
    ensures Exec(cfg, t, ops).ok ==>
              && Exec(cfg, t, ops).tables.accounts.Keys == t.accounts.Keys + Named(ops)
              && Coherent(cfg.key, t.accounts.Keys + Named(ops))
    decreases |ops|
  {
    if ops != [] {
      var front, last := ops[..|ops| - 1], ops[|ops| - 1];
      assert ops == front + [last];
      ExecSnoc(cfg, t, front, last);
      GoesThroughIff(cfg, t, front);
      GoesThroughSnoc(cfg.key, t.accounts.Keys, front, last);
      NamedAppend(front, [last]);
      if Exec(cfg, t, front).ok { CallOkIff(cfg, Exec(cfg, t, front).tables, last); }
      if Exec(cfg, t, ops).ok { StaysCoherent(cfg, t, ops); }
    } else {
      assert t.accounts.Keys + Named(ops) == t.accounts.Keys;
    }
  }

  /** Exactly when a message succeeds, run past the gate without interference: when each of its calls is in order and
      finds the accounts it needs. The condition is on the message and the keys of the account table alone. */
  lemma SucceedsIff(cfg: Config, t: Tables, m: BlockWithTransactions)
    requires Coherent(cfg.key, t.accounts.Keys) && AddBlock(t, m.block).Inserted?
    ensures Process(cfg, t, m).ok <==> GoesThrough(cfg.key, t.accounts.Keys, Program(m))
  {
    ProgramShape(m);
    GoesThroughIff(cfg, AddBlock(t, m.block).tables, Program(m));
  }

  // ---------------------------------------------------------------- the same in terms of the message

  /** A transfer event of which all addresses in its row are looked up, and every lookup names one account. */
  predicate ProperEvent(e: Event) {
    NoStrayAddress(e) && forall op :: op in EventOps(e) ==> Naming(op)
  }

  predicate ProperMessage(m: BlockWithTransactions) {
    forall tx, e :: tx in m.transactions && e in tx.events ==> ProperEvent(e)
  }

  /** What the parser and the validators demand of a transfer event. */
  predicate ValidEvent(e: Event) {
    IsTransfer(e) ==>
      match ReadAttrs(e.attrs, NO_FIELDS)
      case None => false
      case Some(f) => f.value > 0 && e.func != "" && e.pkgPath != ""
  }

  predicate ValidTx(tx: Transaction) { tx.hash != "" && forall e :: e in tx.events ==> ValidEvent(e) }

  predicate ValidMessage(m: BlockWithTransactions) { forall tx :: tx in m.transactions ==> ValidTx(tx) }

  predicate Parses(e: Event) { IsTransfer(e) ==> ReadAttrs(e.attrs, NO_FIELDS).Some? }

  lemma EventAcceptable(e: Event, hash: string)
    ensures (forall op :: op in EventOps(e) ==> Acceptable(op)) <==> Parses(e)
    ensures hash != "" && Parses(e) ==> (RowsValid(RowsOf(hash, EventTransfers(e))) <==> ValidEvent(e))
  {
    EventShape(e);
    if !Parses(e) {
      assert RejectValue in EventOps(e);
    } else if EventTransfers(e) != [] {
      var rows := RowsOf(hash, EventTransfers(e));
      assert rows == [rows[0]] && rows[0] in rows;
      assert |rows[0].func| == |e.func|;
    }
  }

  /** The calls for the events are acceptable if all values parse, and then their rows are valid if the events are. */
  lemma {:induction false} EventsAcceptable(es: seq<Event>, hash: string)
    requires hash != ""
    ensures (forall op :: op in EventsOps(es) ==> Acceptable(op)) <==> forall e :: e in es ==> Parses(e)
    ensures (forall e :: e in es ==> Parses(e)) ==>
              (RowsValid(RowsOf(hash, EventsTransfers(es))) <==> forall e :: e in es ==> ValidEvent(e))
  {
    if es != [] {
      var here, rest := EventOps(es[0]), EventsOps(es[1..]);
      EventAcceptable(es[0], hash);
      EventsAcceptable(es[1..], hash);
      RowsOfAppend(hash, EventTransfers(es[0]), EventsTransfers(es[1..]));
      assert forall op :: op in EventsOps(es) <==> op in here || op in rest;
      assert forall e :: e in es <==> e == es[0] || e in es[1..];
      MembersAppend(RowsOf(hash, EventTransfers(es[0])), RowsOf(hash, EventsTransfers(es[1..])));
    }
  }

  lemma MembersAppend<T>(a: seq<T>, b: seq<T>)
    ensures forall x :: x in a + b <==> x in a || x in b
  {
  }

  lemma TxAcceptable(tx: Transaction)
    requires tx.hash != ""
    ensures (forall op :: op in TxOps(tx) ==> Acceptable(op)) <==> ValidTx(tx)
  {
    EventsAcceptable(tx.events, tx.hash);
    var save := AddTransfers(tx.hash, EventsTransfers(tx.events));
    MembersAppend(EventsOps(tx.events), [save]);
    assert save in TxOps(tx);
    assert OpRows(save) == RowsOf(tx.hash, EventsTransfers(tx.events));
  }

  lemma {:induction false} TxsAcceptable(txs: seq<Transaction>)
    requires forall tx :: tx in txs ==> tx.hash != ""
    ensures (forall op :: op in TxsOps(txs) ==> Acceptable(op)) <==> forall tx :: tx in txs ==> ValidTx(tx)
  {
    if txs != [] {
      TxAcceptable(txs[0]);
      TxsAcceptable(txs[1..]);
      MembersAppend(TxOps(txs[0]), TxsOps(txs[1..]));
      assert forall tx :: tx in txs <==> tx == txs[0] || tx in txs[1..];
    }
  }

  /** The calls of a message are all acceptable exactly when the message is valid. */
  lemma AcceptableIffValid(m: BlockWithTransactions)
    ensures (forall op :: op in Program(m) ==> Acceptable(op)) <==> ValidMessage(m)
  {
    var first := AddTransactions(m.block.height, m.transactions);
    MembersAppend([first], TxsOps(m.transactions));
    assert first in Program(m);
    if forall tx :: tx in m.transactions ==> tx.hash != "" {
      TxsAcceptable(m.transactions);
    }
  }

  lemma {:induction false} EventsNaming(es: seq<Event>)
    requires forall e :: e in es ==> ProperEvent(e)
    ensures forall op :: op in EventsOps(es) ==> Naming(op)
  {
    if es != [] {
      assert ProperEvent(es[0]);
      EventsNaming(es[1..]);
      MembersAppend(EventOps(es[0]), EventsOps(es[1..]));
    }
  }

  lemma {:induction false} TxsNaming(txs: seq<Transaction>)
    requires forall tx, e :: tx in txs && e in tx.events ==> ProperEvent(e)
    ensures forall op :: op in TxsOps(txs) ==> Naming(op)
  {
    if txs != [] {
      EventsNaming(txs[0].events);
      TxsNaming(txs[1..]);
      MembersAppend(TxOps(txs[0]), TxsOps(txs[1..]));
    }
  }

  lemma ProperNaming(m: BlockWithTransactions)
    requires ProperMessage(m)
    ensures forall op :: op in Program(m) ==> Naming(op)
    ensures Covered(Program(m)) && NoBareInsert(Program(m)) && Guarded(Program(m))
  {
    TxsNaming(m.transactions);
    forall tx, e | tx in m.transactions && e in tx.events ensures NoStrayAddress(e) { assert ProperEvent(e); }
    ProgramCovered(m);
    ProgramShape(m);
  }

  /** The rows the key must allow beside each other for the message to go through. */
  function RowsNeeded(t: Tables, m: BlockWithTransactions): set<AccountKey> { t.accounts.Keys + Lookups(Program(m)) }

  /** A proper message succeeds exactly when every value parses, every row is valid, every transaction has a hash, and
      the key of the account table allows all the accounts it names. */
  lemma ProperSucceedsIff(cfg: Config, t: Tables, m: BlockWithTransactions)
    requires Coherent(cfg.key, t.accounts.Keys) && AddBlock(t, m.block).Inserted? && ProperMessage(m)
    ensures Process(cfg, t, m).ok <==> ValidMessage(m) && Coherent(cfg.key, RowsNeeded(t, m))
  {
    var ops := Program(m);
    var gated := AddBlock(t, m.block).tables;
    ProperNaming(m);
    AcceptableIffValid(m);
    if ValidMessage(m) && Coherent(cfg.key, RowsNeeded(t, m)) {
      ExecSucceeds(cfg, gated, ops);
    }
    if Exec(cfg, gated, ops).ok {
      SuccessMeans(cfg, gated, ops);
      StaysCoherent(cfg, gated, ops);
      ExecAccounts(cfg, gated, ops);
      var after := Exec(cfg, gated, ops).tables.accounts.Keys;
      assert forall k :: k in Lookups(ops) ==> k in after;
    }
  }

  // ---------------------------------------------------------------- the ledger against its log

  function LogBalance(t: Tables, k: AccountKey): int { SumBy(t.transfers, RowEffect(k)) }

  /** A processed message added d to the balance of k, and l to what the transfers table says about it. */
  predicate Adds(t: Tables, t': Tables, k: AccountKey, d: int, l: int) {
    Balance(t'.accounts, k) == Balance(t.accounts, k) + d && LogBalance(t', k) == LogBalance(t, k) + l
  }

  /** The whole outcome: no error, and every account and the log changed by what the events mean. */
  ghost predicate Applied(t: Tables, r: Run, m: BlockWithTransactions) {
    r.ok && forall k :: ProperKey(k) ==> Adds(t, r.tables, k, MessageEffect(k)(m), MessageEffect(k)(m))
  }

  /** Success is all: balances and log then changed by what the events mean. */
  lemma SuccessApplies(cfg: Config, t: Tables, m: BlockWithTransactions)
    requires cfg.arithmetic.Exact? && AddBlock(t, m.block).Inserted? && Process(cfg, t, m).ok
    ensures Applied(t, Process(cfg, t, m), m)
  {
    var r, gated := Process(cfg, t, m), AddBlock(t, m.block).tables;
    ProgramShape(m);
    SuccessMeans(cfg, gated, Program(m));
    forall k | ProperKey(k) ensures Adds(t, r.tables, k, MessageEffect(k)(m), MessageEffect(k)(m)) {
      ProgramEffect(m, k);
      ExecEffect(cfg, gated, Program(m), k);
    }
  }

  /** A message is applied in full, balances and log in step, exactly when each of its calls is in order and finds the
      accounts it needs. */
  lemma AppliedIff(cfg: Config, t: Tables, m: BlockWithTransactions)
    requires cfg.arithmetic.Exact? && Coherent(cfg.key, t.accounts.Keys) && AddBlock(t, m.block).Inserted?
    ensures Applied(t, Process(cfg, t, m), m) <==> GoesThrough(cfg.key, t.accounts.Keys, Program(m))
  {
    SucceedsIff(cfg, t, m);
    if Process(cfg, t, m).ok { SuccessApplies(cfg, t, m); }
  }

  /** A proper message is applied in full exactly when it is valid and its accounts fit the key. */
  lemma ProperAppliedIff(cfg: Config, t: Tables, m: BlockWithTransactions)
    requires cfg.arithmetic.Exact?
    requires Coherent(cfg.key, t.accounts.Keys) && AddBlock(t, m.block).Inserted? && ProperMessage(m)
    ensures Applied(t, Process(cfg, t, m), m) <==> ValidMessage(m) && Coherent(cfg.key, RowsNeeded(t, m))
  {
    ProperSucceedsIff(cfg, t, m);
    if Process(cfg, t, m).ok { SuccessApplies(cfg, t, m); }
  }

  // ---------------------------------------------------------------- the pool against processing in sequence

  /** Only stored blocks have tasks, and only acceptable calls get done. */
  ghost predicate Admitted(c: Core) {
    forall i :: 0 <= i < |c.tasks| ==>
      c.tasks[i].msg.block.hash != "" && forall op :: op in Done(c.tasks[i]) ==> Acceptable(op)
  }

  lemma KeepAdmitted(cfg: Config, c: Core, a: Action, c': Core)
    requires TasksOk(c) && Admitted(c) && Step(cfg, c, a, c')
    ensures Admitted(c')
  {
    TasksAfter(cfg, c, a, c');
    forall i | 0 <= i < |c'.tasks|
      ensures c'.tasks[i].msg.block.hash != "" && forall op :: op in Done(c'.tasks[i]) ==> Acceptable(op)
    {
      forall op | op in Done(c'.tasks[i]) ensures Acceptable(op) {
        DoneStep(cfg, c, a, c', i, op);
        if !(i < |c.tasks| && op in Done(c.tasks[i])) { EffectAcceptable(cfg, c.tables, op, c'.tables); }
      }
    }
  }

  lemma {:induction false} RunAdmitted(cfg: Config, run: seq<Core>, acts: seq<Action>, n: nat)
    requires IsRun(cfg, run, acts) && n <= |acts|
    ensures Admitted(run[n])
  {
    if n > 0 {
      RunAdmitted(cfg, run, acts, n - 1);
      RunStructured(cfg, run, acts, n - 1);
      KeepAdmitted(cfg, run[n - 1], acts[n - 1], run[n]);
    }
  }

  lemma ReachableAdmitted(cfg: Config, c: Core)
    requires Reachable(cfg, c)
    ensures Admitted(c)
  {
    var run, acts :| IsRun(cfg, run, acts) && run[|acts|] == c;
    RunAdmitted(cfg, run, acts, |acts|);
  }

  /** A proper message that got through some interleaving was valid, and its accounts are in the table. */
  lemma CompleteMeans(cfg: Config, d: Core, i: nat)
    requires Reachable(cfg, d) && i < |d.tasks| && Complete(d.tasks[i]) && ProperMessage(d.tasks[i].msg)
    ensures var m := d.tasks[i].msg;
            m.block.hash != "" && ValidMessage(m) && Lookups(Program(m)) <= d.tables.accounts.Keys
    ensures Coherent(cfg.key, d.tables.accounts.Keys)
  {
    var m := d.tasks[i].msg;
    ReachableStructured(cfg, d);
    ReachableAdmitted(cfg, d);
    ProperNaming(m);
    AcceptableIffValid(m);
    assert Done(d.tasks[i]) == Program(m);
    forall k | k in Lookups(Program(m)) ensures k in d.tables.accounts {
      var op :| op in Program(m) && op.GetAccount? && AccountKey(op.address, op.token) == k;
      assert Present(d.tables.accounts, op.address, op.token);
    }
  }

  /** It succeeds again on any tables with no other accounts than that interleaving ended with, and adds no others. */
  lemma SucceedsAgain(cfg: Config, d: Core, i: nat, t: Tables)
    requires Reachable(cfg, d) && i < |d.tasks| && Complete(d.tasks[i]) && ProperMessage(d.tasks[i].msg)
    requires t.accounts.Keys <= d.tables.accounts.Keys
    ensures var r := Process(cfg, t, d.tasks[i].msg); r.ok && r.tables.accounts.Keys <= d.tables.accounts.Keys
  {
    var m := d.tasks[i].msg;
    CompleteMeans(cfg, d, i);
    if AddBlock(t, m.block).Inserted? {
      ProperSucceedsIff(cfg, t, m);
      ProperNaming(m);
      ExecAccounts(cfg, AddBlock(t, m.block).tables, Program(m));
    }
  }

  lemma {:induction false} SequenceSucceeds(cfg: Config, d: Core, ms: seq<BlockWithTransactions>)
    requires Reachable(cfg, d) && AllComplete(d)
    requires forall m :: m in ms ==> m in Messages(d.tasks) && ProperMessage(m)
    ensures var r := ProcessAll(cfg, EMPTY, ms); r.ok && r.tables.accounts.Keys <= d.tables.accounts.Keys
  {
    if ms != [] {
      var front, m := ms[..|ms| - 1], ms[|ms| - 1];
      SequenceSucceeds(cfg, d, front);
      assert m in ms;
      var i :| 0 <= i < |d.tasks| && Messages(d.tasks)[i] == m;
      SucceedsAgain(cfg, d, i, ProcessAll(cfg, EMPTY, front).tables);
    }
  }

  /** For proper messages nothing else is needed: what five concurrent workers got through without errors, any sequence
      of the same messages gets through as well, and leaves the same tables. */
  lemma PoolIsSequence(cfg: Config, s: P.Pool, ms: seq<BlockWithTransactions>)
    requires cfg.arithmetic.Exact?
    requires P.Reachable(cfg, s) && P.Quiescent(s) && P.NoErrors(s)
    requires SameMessages(s.taken, ms) && forall m :: m in ms ==> ProperMessage(m)
    ensures ProcessAll(cfg, EMPTY, ms).ok && SameTables(s.core.tables, ProcessAll(cfg, EMPTY, ms).tables)
  {
    P.CoreReachable(cfg, s);
    PoolSettled(cfg, s);
    forall m | m in ms ensures m in Messages(s.core.tasks) { SettledMessages(s.core, s.taken, m); }
    SequenceSucceeds(cfg, s.core, ms);
    PoolRefinesSequence(cfg, s, ms);
  }
}
