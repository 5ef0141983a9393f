/** The repository over the tables: each method changes them in place, exactly as its specification in Tables says. */
module Repository {
  import Float64
  import opened Model
  import opened Sums
  import opened Tables
  import T = Tables

  datatype Account = Account(address: string, token: string, amount: int)

  class RepositoryEnt {
    const config: Config
    var blocks: map<int, Block>
    var transactions: seq<TransactionRow>
    var accounts: map<AccountKey, int>
    var transfers: seq<TransferRow>

    function State(): Tables
      reads this
    {
      Tables(blocks, transactions, accounts, transfers)
    }

    constructor (config: Config)
      ensures this.config == config && State() == EMPTY
    {
      this.config := config;
      blocks, transactions, accounts, transfers := map[], [], map[], [];
    }

    method AddBlock(block: Block) returns (existing: bool, ok: bool)
      modifies this`blocks
      ensures match T.AddBlock(old(State()), block)
              case Inserted(t) => ok && !existing && State() == t
              case Exists => ok && existing && State() == old(State())
              case Rejected => !ok && State() == old(State())
      ensures (ok <==> block.hash != "") && (existing <==> block.hash != "" && block.height in old(blocks))
      ensures blocks == if ok && !existing then old(blocks)[block.height := block] else old(blocks)
    {
      existing, ok := false, true;
      if block.hash == "" {
        ok := false;
      } else if block.height in blocks {
        existing := true;
      } else {
        blocks := blocks[block.height := block];
      }
    }

    /** All rows or none; a constraint violation, here a block that is not stored, is not reported. */
    method AddTransactions(blockNum: int, txs: seq<Transaction>) returns (ok: bool)
      modifies this`transactions
      ensures Run(State(), ok) == ExecOp(config, old(State()), Op.AddTransactions(blockNum, txs))
      ensures ok <==> forall tx :: tx in txs ==> tx.hash != ""
      ensures old(transactions) <= transactions
      ensures |transactions| == |old(transactions)| + if ok && blockNum in blocks then |txs| else 0
      ensures ok && blockNum in blocks ==>
                forall i :: 0 <= i < |txs| ==>
                  transactions[|old(transactions)| + i] == TransactionRow(blockNum, txs[i])
    {
      if |txs| == 0 {
        assert TransactionRows(blockNum, txs) == [];
        assert transactions + [] == transactions;
        return true;
      }
      var bulk: seq<TransactionRow> := [];
      ok := true;
      for i := 0 to |txs|
        invariant bulk == TransactionRows(blockNum, txs[..i])
        invariant ok <==> forall j :: 0 <= j < i ==> txs[j].hash != ""
      {
        bulk := bulk + [TransactionRow(blockNum, txs[i])];
        if txs[i].hash == "" { ok := false; }
      }
      assert txs[..|txs|] == txs;
      if ok && blockNum in blocks {
        transactions := transactions + bulk;
      }
    }

    method AddAccount(account: Account) returns (ok: bool)
      modifies this`accounts
      ensures var k := AccountKey(account.address, account.token);
              match InsertAccount(config.key, old(accounts), k, account.amount)
              case None => !ok && accounts == old(accounts)
              case Some(m) => ok && accounts == m
      ensures ok <==>
                && account.address != "" && account.token != ""
                && AccountKey(account.address, account.token) !in old(accounts)
                && (config.key.ByAddress? ==> forall k :: k in old(accounts) ==> k.address != account.address)
      ensures accounts == if ok then old(accounts)[AccountKey(account.address, account.token) := account.amount]
                          else old(accounts)
    {
      var k := AccountKey(account.address, account.token);
      ok := k.address != "" && k.token != "" && !KeyTaken(config.key, accounts, k);
      if ok {
        accounts := accounts[k := account.amount];
      }
    }

    /** The one row the non-empty arguments select; none is not an error, several are. */
    method GetAccount(address: string, token: string) returns (account: Option<Account>, ok: bool)
      ensures match FindAccount(accounts, address, token)
              case Absent => ok && account == None
              case Ambiguous => !ok
              case Found =>
                ok && account.Some? && account.value.address == address && account.value.token == token &&
                exists k :: Matching(accounts, address, token) == {k} && account.value.amount == accounts[k]
      ensures ok <==> |set k | k in accounts && (address == "" || k.address == address)
                               && (token == "" || k.token == token)| <= 1
      ensures ok ==> (account.None? <==>
                        forall k :: k in accounts ==>
                          !((address == "" || k.address == address) && (token == "" || k.token == token)))
    {
      var rows := map k | k in accounts :: accounts[k];
      if address != "" {
        rows := map k | k in rows && k.address == address :: rows[k];
      }
      if token != "" {
        rows := map k | k in rows && k.token == token :: rows[k];
      }
      assert rows.Keys == Matching(accounts, address, token);
      assert forall k :: k in accounts && (address == "" || k.address == address) && (token == "" || k.token == token)
                         ==> k in rows.Keys;
      if |rows.Keys| == 0 {
        return None, true;
      }
      if |rows.Keys| > 1 {
        return None, false;
      }
      var k :| k in rows.Keys;
      Singleton(rows.Keys, k);
      return Some(Account(address, token, rows[k])), true;
    }

    method IncrementAccountBalance(address: string, token: string, amount: int) returns (ok: bool)
      modifies this`accounts
      ensures ok
      ensures accounts == IncrementBalance(config.arithmetic, old(accounts), AccountKey(address, token), amount)
      ensures var k, before := AccountKey(address, token), old(accounts);
              accounts == if k !in before then before
                          else before[k := if config.arithmetic.Binary64?
                                           then Float64.Round(before[k] + Float64.Round(amount))
                                           else before[k] + amount]
    {
      var k := AccountKey(address, token);
      if k in accounts {
        accounts := accounts[k := AddAmounts(config.arithmetic, accounts[k], amount)];
      }
      ok := true;
    }

    /** All rows of a transaction at once, their amounts converted to the column's type: every builder is checked, and
        nothing is stored unless all pass. */
    method AddTransfers(hash: string, ts: seq<Transfer>) returns (ok: bool)
      modifies this`transfers
      ensures Run(State(), ok) == ExecOp(config, old(State()), Op.AddTransfers(hash, ts))
      ensures ok <==>
                forall t :: t in ts ==>
                  && hash != "" && t.func != "" && t.token != "" && t.amount > 0 && t.denom != ""
                  && (t.from != "" ==> exists k :: k in accounts && k.address == t.from)
                  && (t.to != "" ==> exists k :: k in accounts && k.address == t.to)
      ensures old(transfers) <= transfers && |transfers| == |old(transfers)| + if ok then |ts| else 0
      ensures ok ==>
                forall i :: 0 <= i < |ts| ==>
                  var t := ts[i];
                  transfers[|old(transfers)| + i] ==
                  TransferRow(hash, ToLower(t.func), if t.from == "" then None else Some(t.from),
                              if t.to == "" then None else Some(t.to), t.token,
                              if config.arithmetic.Binary64? then Float64.Round(t.amount) else t.amount, t.denom)
    {
      var bulk: seq<TransferRow> := [];
      ok := true;
      for i := 0 to |ts|
        invariant bulk == StoredRows(config.arithmetic, RowsOf(hash, ts[..i]))
        invariant ok <==> RowsValid(bulk) && RowsRefer(accounts, bulk)
      {
        var row := StoredRow(config.arithmetic, RowOf(hash, ts[i]));
        bulk := bulk + [row];
        if FirstInvalid(row).Some? || !Refers(accounts, row) { ok := false; }
      }
      assert ts[..|ts|] == ts;
      BulkRows(config.arithmetic, accounts, hash, ts);
      if ok {
        transfers := transfers + bulk;
      }
    }

    // -------------------------------------------------------------- queries

    /** Every row the non-empty arguments select. */
    method GetAccounts(address: string, token: string) returns (rows: map<AccountKey, int>)
      ensures rows.Keys == Matching(accounts, address, token)
      ensures forall k :: k in rows <==>
                k in accounts && (address == "" || k.address == address) && (token == "" || k.token == token)
      ensures forall k :: k in rows ==> rows[k] == accounts[k]
    {
      rows := map k | k in accounts :: accounts[k];
      if address != "" {
        rows := map k | k in rows && k.address == address :: rows[k];
      }
      if token != "" {
        rows := map k | k in rows && k.token == token :: rows[k];
      }
    }

    /** GROUP BY token, SUM(amount) over the selected rows, added up in some order. */
    method GetBalances(address: string) returns (balances: map<string, int>)
      ensures exists order :: Lists(order, Matching(accounts, address, "")) &&
                balances == SumsInOrder(config.arithmetic, accounts, order)
      ensures config.arithmetic.Exact? || SmallBalances(accounts, Matching(accounts, address, "")) ==>
                GroupSums(balances, accounts, Matching(accounts, address, ""))
    {
      balances := map[];
      ghost var order: seq<AccountKey> := [];
      var rows := Matching(accounts, address, "");
      while rows != {}
        invariant forall k :: k in Matching(accounts, address, "") <==> k in rows || k in order
        invariant Lists(order, Matching(accounts, address, "") - rows)
        invariant balances == SumsInOrder(config.arithmetic, accounts, order)
        decreases rows
      {
        var k :| k in rows;
        balances := AddToGroup(config.arithmetic, balances, k.token, accounts[k]);
        assert (order + [k])[..|order|] == order;
        order := order + [k];
        rows := rows - {k};
      }
      SumsGroup(accounts, order, Matching(accounts, address, ""));
      if config.arithmetic.Binary64? && SmallBalances(accounts, Matching(accounts, address, "")) {
        SumsWithin(accounts, order);
      }
    }
  }

  lemma StorableRow(arithmetic: Arithmetic, accounts: map<AccountKey, int>, hash: string, t: Transfer)
    ensures var row := StoredRow(arithmetic, RowOf(hash, t));
            FirstInvalid(row).None? && Refers(accounts, row) <==>
            && hash != "" && t.func != "" && t.token != "" && t.amount > 0 && t.denom != ""
            && (t.from != "" ==> exists k :: k in accounts && k.address == t.from)
            && (t.to != "" ==> exists k :: k in accounts && k.address == t.to)
  {
    assert |ToLower(t.func)| == |t.func|;
    Float64.RoundPositive(t.amount);
  }

  /** The rows of a bulk, one by one, and when all of them can be stored. */
  lemma BulkRows(arithmetic: Arithmetic, accounts: map<AccountKey, int>, hash: string, ts: seq<Transfer>)
    ensures var rows := StoredRows(arithmetic, RowsOf(hash, ts));
            && |rows| == |ts|
            && (forall i :: 0 <= i < |ts| ==>
                  rows[i] == TransferRow(hash, ToLower(ts[i].func), if ts[i].from == "" then None else Some(ts[i].from),
                                         if ts[i].to == "" then None else Some(ts[i].to), ts[i].token,
                                         if arithmetic.Binary64? then Float64.Round(ts[i].amount) else ts[i].amount,
                                         ts[i].denom))
            && (RowsValid(rows) && RowsRefer(accounts, rows) <==>
                forall t :: t in ts ==>
                  && hash != "" && t.func != "" && t.token != "" && t.amount > 0 && t.denom != ""
                  && (t.from != "" ==> exists k :: k in accounts && k.address == t.from)
                  && (t.to != "" ==> exists k :: k in accounts && k.address == t.to))
  {
    var rows := StoredRows(arithmetic, RowsOf(hash, ts));
    assert forall i :: 0 <= i < |ts| ==> rows[i] == StoredRow(arithmetic, RowOf(hash, ts[i]));
    forall t | t in ts
      ensures FirstInvalid(StoredRow(arithmetic, RowOf(hash, t))).None?
              && Refers(accounts, StoredRow(arithmetic, RowOf(hash, t))) <==>
              && hash != "" && t.func != "" && t.token != "" && t.amount > 0 && t.denom != ""
              && (t.from != "" ==> exists k :: k in accounts && k.address == t.from)
              && (t.to != "" ==> exists k :: k in accounts && k.address == t.to)
    {
      StorableRow(arithmetic, accounts, hash, t);
    }
    ByPlace(rows, (r: TransferRow) => FirstInvalid(r).None? && Refers(accounts, r));
    assert (forall i :: 0 <= i < |ts| ==> FirstInvalid(rows[i]).None? && Refers(accounts, rows[i])) <==>
           forall t :: t in ts ==> FirstInvalid(StoredRow(arithmetic, RowOf(hash, t))).None?
                                   && Refers(accounts, StoredRow(arithmetic, RowOf(hash, t)));
  }

  /** The keys, each once. */
  ghost predicate Lists(order: seq<AccountKey>, ks: set<AccountKey>) {
    (forall k :: k in order <==> k in ks) && forall i, j :: 0 <= i < j < |order| ==> order[i] != order[j]
  }

  function AddToGroup(arithmetic: Arithmetic, balances: map<string, int>, token: string, amount: int)
    : map<string, int>
  {
    balances[token := if token in balances then Plus(arithmetic, balances[token], amount) else amount]
  }

  /** The rows added up one by one, by token. */
  function SumsInOrder(arithmetic: Arithmetic, accounts: map<AccountKey, int>, order: seq<AccountKey>)
    : map<string, int>
    requires forall k :: k in order ==> k in accounts
  {
    if order == [] then map[]
    else
      var front, last := order[..|order| - 1], order[|order| - 1];
      AddToGroup(arithmetic, SumsInOrder(arithmetic, accounts, front), last.token, accounts[last])
  }

  /** The absolute value a row adds to its token's sum. */
  function AbsIn(accounts: map<AccountKey, int>, token: string): AccountKey -> int {
    (k: AccountKey) => if k.token == token && k in accounts then Float64.Abs(accounts[k]) else 0
  }

  /** No token's absolute balances sum to more than 2^53, in whatever order. */
  ghost predicate SmallTotals(accounts: map<AccountKey, int>, order: seq<AccountKey>) {
    forall token :: SumBy(order, AbsIn(accounts, token)) <= Float64.TWO_53
  }

  ghost predicate SmallBalances(accounts: map<AccountKey, int>, ks: set<AccountKey>) {
    forall order :: Lists(order, ks) ==> SmallTotals(accounts, order)
  }

  /** Without rounding the order does not matter: the sums are those of the groups. */
  lemma {:induction false} SumsGroup(accounts: map<AccountKey, int>, order: seq<AccountKey>, ks: set<AccountKey>)
    requires Lists(order, ks) && ks <= accounts.Keys
    ensures GroupSums(SumsInOrder(Exact, accounts, order), accounts, ks)
  {
    if order != [] {
      var n := |order| - 1;
      var front, last := order[..n], order[n];
      assert Lists(front, ks - {last});
      SumsGroup(accounts, front, ks - {last});
      GroupSumsNext(SumsInOrder(Exact, accounts, front), accounts, ks - {last}, last);
      assert ks - {last} + {last} == ks;
    }
  }

  lemma {:induction false} SumsBounded(accounts: map<AccountKey, int>, order: seq<AccountKey>, token: string)
    requires forall k :: k in order ==> k in accounts
    ensures var sums := SumsInOrder(Exact, accounts, order);
            token in sums ==> Float64.Abs(sums[token]) <= SumBy(order, AbsIn(accounts, token))
  {
    if order != [] {
      var front := order[..|order| - 1];
      SumsBounded(accounts, front, token);
      SumNonNegative(front, AbsIn(accounts, token));
    }
  }

  /** With float64 columns the sums are exact, in whatever order they are made, if the absolute balances are small. */
  lemma {:induction false} SumsWithin(accounts: map<AccountKey, int>, order: seq<AccountKey>)
    requires (forall k :: k in order ==> k in accounts) && SmallTotals(accounts, order)
    ensures SumsInOrder(Binary64, accounts, order) == SumsInOrder(Exact, accounts, order)
  {
    if order != [] {
      var front, last := order[..|order| - 1], order[|order| - 1];
      forall token ensures SumBy(front, AbsIn(accounts, token)) <= Float64.TWO_53 {
        assert SumBy(order, AbsIn(accounts, token)) <= Float64.TWO_53;
      }
      SumsWithin(accounts, front);
      SumsBounded(accounts, front, last.token);
      assert SumBy(order, AbsIn(accounts, last.token)) <= Float64.TWO_53;
      var sums := SumsInOrder(Exact, accounts, front);
      if last.token in sums { Float64.RoundExact(sums[last.token] + accounts[last]); }
    }
  }

  /** One entry per token among the keys, holding the sum of that token's rows. */
  ghost predicate GroupSums(balances: map<string, int>, accounts: map<AccountKey, int>, ks: set<AccountKey>) {
    && ks <= accounts.Keys
    && balances.Keys == TokensOf(ks)
    && forall token :: token in balances ==> balances[token] == SumKeys(accounts, Group(ks, token))
  }

  lemma GroupSumsNext(balances: map<string, int>, accounts: map<AccountKey, int>, ks: set<AccountKey>, k: AccountKey)
    requires GroupSums(balances, accounts, ks) && k in accounts && k !in ks
    ensures GroupSums(AddToGroup(Exact, balances, k.token, accounts[k]), accounts, ks + {k})
  {
    var next := AddToGroup(Exact, balances, k.token, accounts[k]);
    assert TokensOf(ks + {k}) == TokensOf(ks) + {k.token};
    forall token | token in next ensures next[token] == SumKeys(accounts, Group(ks + {k}, token)) {
      if token == k.token {
        SumKeysPick(accounts, Group(ks + {k}, token), k);
        assert Group(ks + {k}, token) - {k} == Group(ks, token);
        if token !in balances { assert Group(ks, token) == {}; }
      } else {
        assert Group(ks + {k}, token) == Group(ks, token);
      }
    }
  }

  lemma Singleton<T>(s: set<T>, x: T)
    requires |s| == 1 && x in s
    ensures s == {x}
  {
    assert |s - {x}| == 0;
  }

  /** The two REST queries agree: the balance GetBalances reports for a token is the sum over all its accounts. */
  lemma SupplyQuery(balances: map<string, int>, accounts: map<AccountKey, int>, token: string)
    requires GroupSums(balances, accounts, Matching(accounts, "", "")) && token != ""
    ensures token in balances <==> Matching(accounts, "", token) != {}
    ensures token in balances ==>
              balances[token] == SumKeys(accounts, Matching(accounts, "", token)) == Total(accounts, token)
  {
    assert Matching(accounts, "", "") == accounts.Keys;
    assert Matching(accounts, "", token) == Group(accounts.Keys, token);
    if token in balances {
      var k :| k in accounts && k.token == token;
      assert k in Matching(accounts, "", token);
    }
    if k :| k in Matching(accounts, "", token) {
      assert k.token in TokensOf(accounts.Keys);
    }
  }
}
