/** The database tables the ledger works on, and each repository call as a function of them. */
module Tables {
  import opened Float64
  import opened Model

  datatype AccountKey = AccountKey(address: string, token: string)

  datatype TransactionRow = TransactionRow(height: int, tx: Transaction)

  /** A stored transfer; an address is null when the event did not carry it. */
  datatype TransferRow = TransferRow(hash: string, func: string, from: Option<string>, to: Option<string>,
                                     token: string, amount: int, denom: string)

  datatype Tables = Tables(blocks: map<int, Block>, transactions: seq<TransactionRow>,
                           accounts: map<AccountKey, int>, transfers: seq<TransferRow>)

  const EMPTY := Tables(map[], [], map[], [])

  /** The generated schema keys accounts by address alone; the schema source means (address, token). */
  datatype Uniqueness = ByAddress | ByAddressAndToken

  datatype Arithmetic = Exact | Binary64

  datatype Config = Config(key: Uniqueness, arithmetic: Arithmetic)

  // ---------------------------------------------------------------- blocks and transactions

  datatype BlockOutcome = Inserted(tables: Tables) | Exists | Rejected

  /** The gate: a taken height is reported as existing, an empty hash is refused by the validator. */
  function AddBlock(t: Tables, b: Block): BlockOutcome {
    if b.hash == "" then Rejected
    else if b.height in t.blocks then Exists
    else Inserted(t.(blocks := t.blocks[b.height := b]))
  }

  function TransactionRows(height: int, txs: seq<Transaction>): seq<TransactionRow> {
    seq(|txs|, i requires 0 <= i < |txs| => TransactionRow(height, txs[i]))
  }

  // ---------------------------------------------------------------- accounts

  predicate HasAddress(accounts: map<AccountKey, int>, address: string) {
    exists k :: k in accounts && k.address == address
  }

  /** The rows a query selects; an empty argument drops its filter. */
  function Matching(accounts: map<AccountKey, int>, address: string, token: string): set<AccountKey> {
    set k | k in accounts && (address == "" || k.address == address) && (token == "" || k.token == token)
  }

  datatype Lookup = Found | Absent | Ambiguous

  function FindAccount(accounts: map<AccountKey, int>, address: string, token: string): Lookup {
    var ks := Matching(accounts, address, token);
    if ks == {} then Absent else if |ks| == 1 then Found else Ambiguous
  }

  predicate KeyTaken(key: Uniqueness, accounts: map<AccountKey, int>, k: AccountKey) {
    k in accounts || (key.ByAddress? && HasAddress(accounts, k.address))
  }

  function InsertAccount(key: Uniqueness, accounts: map<AccountKey, int>, k: AccountKey, amount: int)
    : Option<map<AccountKey, int>>
  {
    if k.address == "" || k.token == "" || KeyTaken(key, accounts, k) then None
    else Some(accounts[k := amount])
  }

  /** The addition of two columns. */
  function Plus(arithmetic: Arithmetic, x: int, y: int): int {
    match arithmetic case Exact => x + y case Binary64 => Float64.Add(x, y)
  }

  function AddAmounts(arithmetic: Arithmetic, balance: int, amount: int): int {
    match arithmetic
    case Exact => balance + amount
    case Binary64 => Float64.Add(balance, FromInt64(amount))
  }

  /** An UPDATE: changes the one row with this key, and silently nothing when there is none. */
  function IncrementBalance(arithmetic: Arithmetic, accounts: map<AccountKey, int>, k: AccountKey, amount: int)
    : map<AccountKey, int>
  {
    if k in accounts then accounts[k := AddAmounts(arithmetic, accounts[k], amount)] else accounts
  }

  /** The accounts after an amount was added to a balance in the column's type; a row that is not there counts as new,
      with 0. */
  function Credited(arithmetic: Arithmetic, accounts: map<AccountKey, int>, k: AccountKey, amount: int)
    : map<AccountKey, int>
  {
    var b := if k in accounts then accounts[k] else 0;
    accounts[k := if arithmetic.Binary64? then Round(b + Round(amount)) else b + amount]
  }

  function Balance(accounts: map<AccountKey, int>, k: AccountKey): int {
    if k in accounts then accounts[k] else 0
  }

  // ---------------------------------------------------------------- transfers

  function Nullable(s: string): Option<string> { if s == "" then None else Some(s) }

  function RowOf(hash: string, t: Transfer): TransferRow {
    TransferRow(hash, ToLower(t.func), Nullable(t.from), Nullable(t.to), t.token, t.amount, t.denom)
  }

  function RowsOf(hash: string, ts: seq<Transfer>): seq<TransferRow> {
    seq(|ts|, i requires 0 <= i < |ts| => RowOf(hash, ts[i]))
  }

  /** What the amount column holds: an int64 is converted to float64 when the transfer is made. */
  function ToColumn(arithmetic: Arithmetic, amount: int): int {
    match arithmetic case Exact => amount case Binary64 => FromInt64(amount)
  }

  function StoredRow(arithmetic: Arithmetic, r: TransferRow): TransferRow {
    r.(amount := ToColumn(arithmetic, r.amount))
  }

  /** The rows with their amounts as the column holds them. */
  function StoredRows(arithmetic: Arithmetic, rows: seq<TransferRow>): seq<TransferRow> {
    match arithmetic
    case Exact => rows
    case Binary64 => seq(|rows|, i requires 0 <= i < |rows| => StoredRow(Binary64, rows[i]))
  }

  /** The builder's validators, in the order they are run: the first field that fails. */
  function FirstInvalid(r: TransferRow): Option<string> {
    if r.hash == "" then Some("hash")
    else if r.func == "" then Some("func")
    else if r.token == "" then Some("token")
    else if r.amount <= 0 then Some("amount")
    else if r.denom == "" then Some("denom")
    else None
  }

  predicate RowsValid(rows: seq<TransferRow>) { forall r :: r in rows ==> FirstInvalid(r).None? }

  /** The foreign keys of a row: an address that is present belongs to some account. */
  predicate Refers(accounts: map<AccountKey, int>, r: TransferRow) {
    && (r.from.Some? ==> HasAddress(accounts, r.from.value))
    && (r.to.Some? ==> HasAddress(accounts, r.to.value))
  }

  predicate RowsRefer(accounts: map<AccountKey, int>, rows: seq<TransferRow>) {
    forall r :: r in rows ==> Refers(accounts, r)
  }

  /** Validators and foreign keys judge a row alike before and after the conversion of its amount. */
  lemma StoredAlike(arithmetic: Arithmetic, accounts: map<AccountKey, int>, rows: seq<TransferRow>)
    ensures RowsValid(StoredRows(arithmetic, rows)) <==> RowsValid(rows)
    ensures RowsRefer(accounts, StoredRows(arithmetic, rows)) <==> RowsRefer(accounts, rows)
  {
    var stored := StoredRows(arithmetic, rows);
    assert |stored| == |rows|;
    forall i | 0 <= i < |rows|
      ensures FirstInvalid(stored[i]).None? <==> FirstInvalid(rows[i]).None?
      ensures Refers(accounts, stored[i]) <==> Refers(accounts, rows[i])
    {
      RoundPositive(rows[i].amount);
    }
    ByPlace(rows, (r: TransferRow) => FirstInvalid(r).None?);
    ByPlace(stored, (r: TransferRow) => FirstInvalid(r).None?);
    ByPlace(rows, (r: TransferRow) => Refers(accounts, r));
    ByPlace(stored, (r: TransferRow) => Refers(accounts, r));
  }

  lemma ByPlace(rows: seq<TransferRow>, p: TransferRow -> bool)
    ensures (forall r :: r in rows ==> p(r)) <==> forall i :: 0 <= i < |rows| ==> p(rows[i])
  {
  }

  // ---------------------------------------------------------------- one call, and a program of calls

  datatype Outcome = Ok(tables: Tables) | NoAccount | Failed

  /** One repository call on the tables; a call that fails changes nothing. Transactions that violate the foreign key of
      their block are dropped without an error. */
  function Apply(cfg: Config, t: Tables, op: Op): Outcome {
    match op
    case AddTransactions(height, txs) =>
      if exists tx :: tx in txs && tx.hash == "" then Failed
      else if height !in t.blocks then Ok(t)
      else Ok(t.(transactions := t.transactions + TransactionRows(height, txs)))
    case GetAccount(address, token) =>
      (match FindAccount(t.accounts, address, token)
       case Found => Ok(t)
       case Absent => NoAccount
       case Ambiguous => Failed)
    case AddAccount(address, token) =>
      (match InsertAccount(cfg.key, t.accounts, AccountKey(address, token), 0)
       case None => Failed
       case Some(accounts) => Ok(t.(accounts := accounts)))
    case Increment(address, token, _, _) =>
      Ok(t.(accounts := IncrementBalance(cfg.arithmetic, t.accounts, AccountKey(address, token), Amount(op))))
    case AddTransfers(hash, transfers) =>
      var rows := StoredRows(cfg.arithmetic, RowsOf(hash, transfers));
      if RowsValid(rows) && RowsRefer(t.accounts, rows) then Ok(t.(transfers := t.transfers + rows)) else Failed
    case RejectValue => Failed
  }

  datatype Run = Run(tables: Tables, ok: bool)

  /** A call together with the AddAccount that follows a lookup that found nothing. */
  function ExecOp(cfg: Config, t: Tables, op: Op): Run {
    match Apply(cfg, t, op)
    case Ok(t') => Run(t', true)
    case Failed => Run(t, false)
    case NoAccount =>
      match Apply(cfg, t, AddAccount(op.address, op.token))
      case Ok(t') => Run(t', true)
      case _ => Run(t, false)
  }

  /** Calls in order, up to the first that fails. */
  function Exec(cfg: Config, t: Tables, ops: seq<Op>): Run
    decreases |ops|
  {
    if ops == [] then Run(t, true)
    else
      var r := ExecOp(cfg, t, ops[0]);
      if r.ok then Exec(cfg, r.tables, ops[1..]) else r
  }

  lemma {:induction false} ExecAppend(cfg: Config, t: Tables, a: seq<Op>, b: seq<Op>)
    ensures Exec(cfg, t, a + b) ==
            var r := Exec(cfg, t, a); if r.ok then Exec(cfg, r.tables, b) else r
    decreases |a|
  {
    if a == [] {
      assert a + b == b;
    } else {
      var r := ExecOp(cfg, t, a[0]);
      if r.ok {
        ExecAppend(cfg, r.tables, a[1..], b);
        assert (a + b)[1..] == a[1..] + b;
      }
    }
  }

  lemma ExecCons(cfg: Config, t: Tables, op: Op, rest: seq<Op>)
    ensures Exec(cfg, t, [op] + rest) ==
            var r := ExecOp(cfg, t, op); if r.ok then Exec(cfg, r.tables, rest) else r
  {
    assert ([op] + rest)[1..] == rest;
  }

  lemma ExecPair(cfg: Config, t: Tables, a: Op, b: Op)
    ensures Exec(cfg, t, [a, b]) == var r := ExecOp(cfg, t, a); if r.ok then ExecOp(cfg, r.tables, b) else r
  {
    assert [a, b] == [a] + ([b] + []);
    ExecCons(cfg, t, a, [b] + []);
    ExecCons(cfg, ExecOp(cfg, t, a).tables, b, []);
  }

  /** The effect of one delivered message on the tables, run without interference. */
  function Process(cfg: Config, t: Tables, m: BlockWithTransactions): Run {
    match AddBlock(t, m.block)
    case Rejected => Run(t, false)
    case Exists => Run(t, true)
    case Inserted(t') => Exec(cfg, t', Program(m))
  }

  // ---------------------------------------------------------------- sums over the account table

  ghost function SumKeys(accounts: map<AccountKey, int>, ks: set<AccountKey>): int
    requires ks <= accounts.Keys
  {
    if ks == {} then 0 else var k :| k in ks; accounts[k] + SumKeys(accounts, ks - {k})
  }

  /** The keys of one token. */
  function Group(ks: set<AccountKey>, token: string): set<AccountKey> { set k | k in ks && k.token == token }

  function TokensOf(ks: set<AccountKey>): set<string> { set k | k in ks :: k.token }

  /** The sum of all balances of a token. */
  ghost function Total(accounts: map<AccountKey, int>, token: string): int {
    SumKeys(accounts, Group(accounts.Keys, token))
  }

  lemma {:induction false} SumKeysPick(accounts: map<AccountKey, int>, ks: set<AccountKey>, k: AccountKey)
    requires ks <= accounts.Keys && k in ks
    ensures SumKeys(accounts, ks) == accounts[k] + SumKeys(accounts, ks - {k})
    decreases |ks|
  {
    var p :| p in ks && SumKeys(accounts, ks) == accounts[p] + SumKeys(accounts, ks - {p});
    if p != k {
      SumKeysPick(accounts, ks - {p}, k);
      SumKeysPick(accounts, ks - {k}, p);
      assert ks - {p} - {k} == ks - {k} - {p};
    }
  }

  lemma {:induction false} SumKeysSame(a: map<AccountKey, int>, b: map<AccountKey, int>, ks: set<AccountKey>)
    requires ks <= a.Keys && ks <= b.Keys
    requires forall k :: k in ks ==> a[k] == b[k]
    ensures SumKeys(a, ks) == SumKeys(b, ks)
    decreases |ks|
  {
    if ks != {} {
      var p :| p in ks;
      SumKeysPick(a, ks, p);
      SumKeysPick(b, ks, p);
      SumKeysSame(a, b, ks - {p});
    }
  }

  /** Writing one row moves the total of its token by the change of that row, and no other total. */
  lemma TotalWrite(accounts: map<AccountKey, int>, k: AccountKey, v: int, token: string)
    ensures Total(accounts[k := v], token) ==
            Total(accounts, token) + if k.token == token then v - Balance(accounts, k) else 0
  {
    var after := accounts[k := v];
    var ks, ks' := Group(accounts.Keys, token), Group(after.Keys, token);
    if k.token == token {
      assert ks' - {k} == ks - {k};
      SumKeysPick(after, ks', k);
      SumKeysSame(accounts, after, ks - {k});
      if k in accounts {
        SumKeysPick(accounts, ks, k);
      } else {
        assert ks - {k} == ks;
      }
    } else {
      assert ks' == ks;
      SumKeysSame(accounts, after, ks);
    }
  }
}
