/** Where the supply of a token goes: in every state of every interleaving, the balances add up to what was minted,
    less what was burned, less what is between a debit and its credit. */
module Conservation {
  import opened Core
  import opened Float64
  import opened Model
  import opened Programs
  import opened Sums
  import opened Tables

  // ---------------------------------------------------------------- progress of a task, per token

  function MintedBy(token: string): Op -> int {
    (op: Op) => if op.Increment? && op.role.Minting? && op.token == token then op.value else 0
  }

  function BurnedBy(token: string): Op -> int {
    (op: Op) => if op.Increment? && op.role.Burning? && op.token == token then op.value else 0
  }

  /** What a task has minted, and burned, with the calls it has completed. */
  function Minted(token: string): Task -> int { (t: Task) => SumBy(Done(t), MintedBy(token)) }

  function Burned(token: string): Task -> int { (t: Task) => SumBy(Done(t), BurnedBy(token)) }

  predicate IsCredit(op: Op, token: string) { op.Increment? && op.role.Credit? && op.token == token }

  /** The transfer a task has debited and not credited: its next call is the credit. */
  function InFlightAt(ops: seq<Op>, n: nat, token: string): int {
    if n < |ops| && IsCredit(ops[n], token) then ops[n].value else 0
  }

  function InFlight(token: string): Task -> int { (t: Task) => InFlightAt(Program(t.msg), t.pc, token) }

  /** What a change of balance adds to or removes from the supply beyond its meaning. */
  function LeakBy(token: string): Op -> int {
    (op: Op) =>
      if !op.Increment? || op.token != token then 0
      else match op.role
        case Minting => TokenDelta(token)(op) - op.value
        case Burning => TokenDelta(token)(op) + op.value
        case Debit => TokenDelta(token)(op) + op.value
        case Credit => TokenDelta(token)(op) - op.value
  }

  function Leaked(token: string): Task -> int { (t: Task) => SumBy(Done(t), LeakBy(token)) }

  // ---------------------------------------------------------------- one program

  lemma {:induction false} PrefixBalance(ops: seq<Op>, n: nat, token: string)
    requires n <= |ops| && Paired(ops)
    ensures SumBy(ops[..n], TokenDelta(token)) ==
            SumBy(ops[..n], MintedBy(token)) - SumBy(ops[..n], BurnedBy(token)) - InFlightAt(ops, n, token)
            + SumBy(ops[..n], LeakBy(token))
  {
    if n == 0 {
      if |ops| > 0 { assert PairedAt(ops, 0); }
    } else {
      PrefixBalance(ops, n - 1, token);
      var op := ops[n - 1];
      assert ops[..n] == ops[..n - 1] + [op];
      SumSnoc(ops[..n - 1], op, TokenDelta(token));
      SumSnoc(ops[..n - 1], op, MintedBy(token));
      SumSnoc(ops[..n - 1], op, BurnedBy(token));
      SumSnoc(ops[..n - 1], op, LeakBy(token));
      assert PairedAt(ops, n - 1);
      if n < |ops| { assert PairedAt(ops, n); }
    }
  }

  lemma {:induction false} TasksBalance(tasks: seq<Task>, token: string)
    requires forall i :: 0 <= i < |tasks| ==> TaskOk(tasks[i])
    ensures SumBy(tasks, TaskTokenDelta(token)) ==
            SumBy(tasks, Minted(token)) - SumBy(tasks, Burned(token)) - SumBy(tasks, InFlight(token))
            + SumBy(tasks, Leaked(token))
  {
    if tasks != [] {
      var t := tasks[|tasks| - 1];
      TasksBalance(tasks[..|tasks| - 1], token);
      ProgramShape(t.msg);
      PrefixBalance(Program(t.msg), t.pc, token);
    }
  }

  /** The whole account of a token's supply, with no assumption on the messages. */
  lemma SupplyAccount(cfg: Config, c: Core, token: string)
    requires cfg.arithmetic.Exact? && Reachable(cfg, c) && token != ""
    ensures Total(c.tables.accounts, token) ==
            SumBy(c.tasks, Minted(token)) - SumBy(c.tasks, Burned(token)) - SumBy(c.tasks, InFlight(token))
            + SumBy(c.tasks, Leaked(token))
  {
    ReachableInv(cfg, c);
    TasksBalance(c.tasks, token);
  }

  // ---------------------------------------------------------------- messages that leak nothing

  /** Transfers of the token have both endpoints, and nothing burns or moves the int64 without a negation. */
  predicate CleanEvent(e: Event, token: string) {
    IsTransfer(e) && e.pkgPath == token && ReadAttrs(e.attrs, NO_FIELDS).Some? ==>
      var f, action := ReadAttrs(e.attrs, NO_FIELDS).value, FuncOf(e.func);
      && (action.Burn? || action.Move? ==> f.value != MIN_INT64)
      && (action.Move? ==> f.from != "" && f.to != "")
  }

  predicate Clean(m: BlockWithTransactions, token: string) {
    forall tx, e :: tx in m.transactions && e in tx.events ==> CleanEvent(e, token)
  }

  predicate NoLeak(ops: seq<Op>, token: string) { forall op :: op in ops ==> LeakBy(token)(op) == 0 }

  lemma EventNoLeak(e: Event, token: string)
    requires CleanEvent(e, token)
    ensures NoLeak(EventOps(e), token)
  {
    forall op | op in EventOps(e) ensures LeakBy(token)(op) == 0 {
      if op.Increment? && op.token == token {
        var f := ReadAttrs(e.attrs, NO_FIELDS).value;
        assert EventOps(e) == FuncOps(e, f);
        match FuncOf(e.func) {
          case Mint => assert op == Increment(f.to, token, f.value, Minting);
          case Burn => assert op == Increment(f.from, token, f.value, Burning);
          case Move =>
            assert op == Increment(f.from, token, f.value, Debit) || op == Increment(f.to, token, f.value, Credit);
          case Other =>
        }
        assert TokenDelta(token)(op) == Amount(op);
      }
    }
  }

  lemma {:induction false} EventsNoLeak(es: seq<Event>, token: string)
    requires forall e :: e in es ==> CleanEvent(e, token)
    ensures NoLeak(EventsOps(es), token)
  {
    if es != [] {
      EventsNoLeak(es[1..], token);
      EventNoLeak(es[0], token);
    }
  }

  lemma {:induction false} TxsNoLeak(txs: seq<Transaction>, token: string)
    requires forall tx, e :: tx in txs && e in tx.events ==> CleanEvent(e, token)
    ensures NoLeak(TxsOps(txs), token)
  {
    if txs != [] {
      EventsNoLeak(txs[0].events, token);
      TxsNoLeak(txs[1..], token);
    }
  }

  lemma TaskNoLeak(t: Task, token: string)
    requires Clean(t.msg, token)
    ensures Leaked(token)(t) == 0
  {
    TxsNoLeak(t.msg.transactions, token);
    SumZero(Done(t), LeakBy(token));
  }

  /** Conservation: balances = minted - burned - in flight, in every reachable state of every interleaving. */
  lemma Conserved(cfg: Config, c: Core, token: string)
    requires cfg.arithmetic.Exact? && Reachable(cfg, c) && token != ""
    requires forall i :: 0 <= i < |c.tasks| ==> Clean(c.tasks[i].msg, token)
    ensures Total(c.tables.accounts, token) ==
            SumBy(c.tasks, Minted(token)) - SumBy(c.tasks, Burned(token)) - SumBy(c.tasks, InFlight(token))
  {
    SupplyAccount(cfg, c, token);
    forall t | t in c.tasks ensures Leaked(token)(t) == 0 { TaskNoLeak(t, token); }
    SumZero(c.tasks, Leaked(token));
  }

  // ---------------------------------------------------------------- complete messages, in terms of their events

  function EventMinted(token: string): Event -> int {
    (e: Event) =>
      if !IsTransfer(e) || e.pkgPath != token || !FuncOf(e.func).Mint? then 0
      else match ReadAttrs(e.attrs, NO_FIELDS) case None => 0 case Some(f) => if f.to == "" then 0 else f.value
  }

  function EventBurned(token: string): Event -> int {
    (e: Event) =>
      if !IsTransfer(e) || e.pkgPath != token || !FuncOf(e.func).Burn? then 0
      else match ReadAttrs(e.attrs, NO_FIELDS) case None => 0 case Some(f) => if f.from == "" then 0 else f.value
  }

  function TxSum(f: Event -> int): Transaction -> int { (tx: Transaction) => SumBy(tx.events, f) }

  function MessageSum(f: Event -> int): BlockWithTransactions -> int {
    (m: BlockWithTransactions) => SumBy(m.transactions, TxSum(f))
  }

  lemma {:induction false} EventsSums(es: seq<Event>, f: Op -> int, g: Event -> int)
    requires forall e :: SumBy(EventOps(e), f) == g(e)
    ensures SumBy(EventsOps(es), f) == SumBy(es, g)
  {
    if es != [] {
      EventsSums(es[1..], f, g);
      SumAppend(EventOps(es[0]), EventsOps(es[1..]), f);
      SumCons(es, g);
    }
  }

  lemma {:induction false} TxsSums(txs: seq<Transaction>, f: Op -> int, g: Event -> int)
    requires forall e :: SumBy(EventOps(e), f) == g(e)
    requires forall op: Op :: !op.Increment? ==> f(op) == 0
    ensures SumBy(TxsOps(txs), f) == SumBy(txs, TxSum(g))
  {
    if txs != [] {
      var tx := txs[0];
      EventsSums(tx.events, f, g);
      SumSnoc(EventsOps(tx.events), AddTransfers(tx.hash, EventsTransfers(tx.events)), f);
      TxsSums(txs[1..], f, g);
      SumsMatch(txs, TxOps(tx), TxsOps(txs[1..]), f, TxSum(g));
    }
  }

  /** A complete task has minted and burned exactly what its events say, and has nothing in flight. */
  lemma CompleteTotals(t: Task, token: string)
    requires Complete(t)
    ensures Minted(token)(t) == MessageSum(EventMinted(token))(t.msg)
    ensures Burned(token)(t) == MessageSum(EventBurned(token))(t.msg)
    ensures InFlight(token)(t) == 0
  {
    var m := t.msg;
    var first := AddTransactions(m.block.height, m.transactions);
    assert Done(t) == [first] + TxsOps(m.transactions);
    forall e ensures SumBy(EventOps(e), MintedBy(token)) == EventMinted(token)(e) { EventTotals(e, token); }
    forall e ensures SumBy(EventOps(e), BurnedBy(token)) == EventBurned(token)(e) { EventTotals(e, token); }
    TxsSums(m.transactions, MintedBy(token), EventMinted(token));
    TxsSums(m.transactions, BurnedBy(token), EventBurned(token));
    SumAppend([first], TxsOps(m.transactions), MintedBy(token));
    SumAppend([first], TxsOps(m.transactions), BurnedBy(token));
    SumOne(first, MintedBy(token));
    SumOne(first, BurnedBy(token));
  }

  lemma EventTotals(e: Event, token: string)
    ensures SumBy(EventOps(e), MintedBy(token)) == EventMinted(token)(e)
    ensures SumBy(EventOps(e), BurnedBy(token)) == EventBurned(token)(e)
  {
    var ops := EventOps(e);
    SumFour(ops, MintedBy(token));
    SumFour(ops, BurnedBy(token));
    if |ops| == 1 {
      SumOne(ops[0], MintedBy(token));
      SumOne(ops[0], BurnedBy(token));
    }
  }

  function Messages(tasks: seq<Task>): seq<BlockWithTransactions> {
    seq(|tasks|, i requires 0 <= i < |tasks| => tasks[i].msg)
  }

  predicate AllComplete(c: Core) { forall i :: 0 <= i < |c.tasks| ==> Complete(c.tasks[i]) }

  /** At rest, after messages that all succeeded, the supply is what their events minted less what they burned. */
  lemma SupplyAtRest(cfg: Config, c: Core, token: string)
    requires cfg.arithmetic.Exact? && Reachable(cfg, c) && token != "" && AllComplete(c)
    requires forall i :: 0 <= i < |c.tasks| ==> Clean(c.tasks[i].msg, token)
    ensures Total(c.tables.accounts, token) ==
            SumBy(Messages(c.tasks), MessageSum(EventMinted(token)))
            - SumBy(Messages(c.tasks), MessageSum(EventBurned(token)))
  {
    Conserved(cfg, c, token);
    forall i | 0 <= i < |c.tasks|
      ensures Minted(token)(c.tasks[i]) == MessageSum(EventMinted(token))(Messages(c.tasks)[i])
      ensures Burned(token)(c.tasks[i]) == MessageSum(EventBurned(token))(Messages(c.tasks)[i])
      ensures InFlight(token)(c.tasks[i]) == 0
    {
      CompleteTotals(c.tasks[i], token);
    }
    SumMap(c.tasks, Messages(c.tasks), Minted(token), MessageSum(EventMinted(token)));
    SumMap(c.tasks, Messages(c.tasks), Burned(token), MessageSum(EventBurned(token)));
    SumZero(c.tasks, InFlight(token));
  }

  // ---------------------------------------------------------------- exactly when one transfer conserves

  predicate ProperKeys(accounts: map<AccountKey, int>) { forall k :: k in accounts ==> ProperKey(k) }

  /** The moves that keep the supply: nothing moved, or both endpoints on the ledger and a value with a negation. */
  predicate Conserving(from: string, to: string, value: int) {
    value == 0 || ((from == "" <==> to == "") && (from != "" ==> value != MIN_INT64))
  }

  lemma ExecMove(cfg: Config, t: Tables, token: string, from: string, to: string, value: int)
    returns (t1: Tables, t2: Tables, t3: Tables)
    requires Exec(cfg, t, MoveOps(token, from, to, value)).ok
    ensures Effect(cfg, t, GetAccount(from, token), t1)
    ensures Effect(cfg, t1, GetAccount(to, token), t2)
    ensures Effect(cfg, t2, Increment(from, token, value, Debit), t3)
    ensures Effect(cfg, t3, Increment(to, token, value, Credit), Exec(cfg, t, MoveOps(token, from, to, value)).tables)
  {
    var ops := MoveOps(token, from, to, value);
    t1 := ExecOp(cfg, t, ops[0]).tables;
    t2 := ExecOp(cfg, t1, ops[1]).tables;
    t3 := ExecOp(cfg, t2, ops[2]).tables;
    assert ops[1..][0] == ops[1] && ops[1..][1..][0] == ops[2] && ops[1..][1..][1..][0] == ops[3];
    assert Exec(cfg, t, ops) == Exec(cfg, t1, ops[1..]) == Exec(cfg, t2, ops[1..][1..]);
    assert Exec(cfg, t2, ops[1..][1..]) == Exec(cfg, t3, ops[1..][1..][1..]);
    var rest := ops[1..][1..][1..][1..];
    assert rest == [];
    assert Exec(cfg, t3, ops[1..][1..][1..]) == Exec(cfg, ExecOp(cfg, t3, ops[3]).tables, rest);
  }

  /** A transfer handled without error keeps the token's supply if and only if it is conserving. */
  lemma MoveConservesIff(cfg: Config, t: Tables, token: string, from: string, to: string, value: int)
    requires cfg.arithmetic.Exact? && token != "" && ProperKeys(t.accounts)
    requires Exec(cfg, t, MoveOps(token, from, to, value)).ok
    ensures Total(Exec(cfg, t, MoveOps(token, from, to, value)).tables.accounts, token) == Total(t.accounts, token)
            <==> Conserving(from, to, value)
  {
    var t1, t2, t3 := ExecMove(cfg, t, token, from, to, value);
    var t4 := Exec(cfg, t, MoveOps(token, from, to, value)).tables;
    LookupPresent(cfg, t, GetAccount(from, token), t1);
    LookupPresent(cfg, t1, GetAccount(to, token), t2);
    EffectOnAccounts(cfg, t1, GetAccount(to, token), t2);
    EffectOnTotal(cfg, t, GetAccount(from, token), t1, token);
    EffectOnTotal(cfg, t1, GetAccount(to, token), t2, token);
    EffectOnTotal(cfg, t2, Increment(from, token, value, Debit), t3, token);
    EffectOnTotal(cfg, t3, Increment(to, token, value, Credit), t4, token);
  }

  /** A transfer without a sender, when the token has one account, creates supply out of nothing. */
  lemma EmptySenderCreatesSupply(cfg: Config)
    requires cfg.arithmetic.Exact?
    ensures var k := AccountKey("g1receiver", "gno.land/r/demo/foo");
            var t := EMPTY.(accounts := map[k := 7]);
            var r := Exec(cfg, t, MoveOps(k.token, "", k.address, 5));
            r.ok && r.tables.accounts == map[k := 12]
  {
    var k := AccountKey("g1receiver", "gno.land/r/demo/foo");
    var t := EMPTY.(accounts := map[k := 7]);
    var ops := MoveOps(k.token, "", k.address, 5);
    assert Matching(t.accounts, "", k.token) == {k};
    assert Matching(t.accounts, k.address, k.token) == {k};
    assert ExecOp(cfg, t, ops[0]) == Run(t, true);
    assert ExecOp(cfg, t, ops[1]) == Run(t, true);
    assert AccountKey("", k.token).address != k.address;
    assert ExecOp(cfg, t, ops[2]) == Run(t, true);
    assert ops[1..][0] == ops[1] && ops[1..][1..][0] == ops[2] && ops[1..][1..][1..][0] == ops[3];
    var t' := t.(accounts := map[k := 12]);
    assert ExecOp(cfg, t, ops[3]) == Run(t', true);
    assert ops[1..][1..][1..][1..] == [];
    assert Exec(cfg, t, ops) == Exec(cfg, t, ops[1..]) == Exec(cfg, t, ops[1..][1..]);
    assert Exec(cfg, t, ops[1..][1..]) == Exec(cfg, t, ops[1..][1..][1..]);
  }
}
