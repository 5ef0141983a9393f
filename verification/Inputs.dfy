/** Messages that make the ledger miss what one might expect of it. */
module Inputs {
  import opened Conservation
  import opened Core
  import opened Deliveries
  import opened Float64
  import opened Model
  import opened Programs
  import opened Success
  import opened Tables

  // ---------------------------------------------------------------- a message with one mint, or with one transfer

  function MintEvent(token: string, to: string, value: string): Event {
    Event("Transfer", "Mint", token, [Attr("to", to), Attr("value", value)])
  }

  function MintMessage(height: int, token: string, to: string, value: string): BlockWithTransactions {
    BlockWithTransactions(Block("block", height), [Transaction(0, "tx", height, [MintEvent(token, to, value)])])
  }

  lemma MintEventCalls(token: string, to: string, value: string)
    requires ParseInt64(value).Some? && to != ""
    ensures var e, v := MintEvent(token, to, value), ParseInt64(value).value;
            && IsTransfer(e) && FuncOf(e.func).Mint? && ReadAttrs(e.attrs, NO_FIELDS) == Some(Fields("", to, v))
  {
    var e, v := MintEvent(token, to, value), ParseInt64(value).value;
    assert ToLower("Transfer") == "transfer" && ToLower("Mint") == "mint";
    assert e.attrs[1..] == [Attr("value", value)] && e.attrs[1..][1..] == [];
    assert ReadAttrs(e.attrs[1..][1..], Fields("", to, v)) == Some(Fields("", to, v));
    assert ReadAttrs(e.attrs[1..], Fields("", to, 0)) == Some(Fields("", to, v));
  }

  lemma MintMessageCalls(height: int, token: string, to: string, value: string)
    requires ParseInt64(value).Some? && to != ""
    ensures var m := MintMessage(height, token, to, value);
            var v := ParseInt64(value).value;
            Program(m) == [AddTransactions(height, m.transactions), GetAccount(to, token),
                           Increment(to, token, v, Minting),
                           AddTransfers("tx", [Transfer("Mint", "", to, token, v, UNIT_NAME)])]
  {
    var m := MintMessage(height, token, to, value);
    var v := ParseInt64(value).value;
    var tx, e := m.transactions[0], MintEvent(token, to, value);
    MintEventCalls(token, to, value);
    assert EventOps(e) == MintOps(token, to, v);
    assert tx.events[1..] == [] && m.transactions[1..] == [];
    assert EventsOps(tx.events) == EventOps(e);
    assert EventsTransfers(tx.events) == EventTransfers(e);
    assert TxsOps(m.transactions) == TxOps(tx);
  }

  /** A transfer event that names a receiver and no sender. */
  function GiftEvent(token: string, to: string, value: string): Event {
    Event("Transfer", "Transfer", token, [Attr("to", to), Attr("value", value)])
  }

  function GiftMessage(height: int, token: string, to: string, value: string): BlockWithTransactions {
    BlockWithTransactions(Block("block", height), [Transaction(0, "tx", height, [GiftEvent(token, to, value)])])
  }

  lemma GiftEventCalls(token: string, to: string, value: string)
    requires ParseInt64(value).Some?
    ensures var e, v := GiftEvent(token, to, value), ParseInt64(value).value;
            && IsTransfer(e) && FuncOf(e.func).Move? && ReadAttrs(e.attrs, NO_FIELDS) == Some(Fields("", to, v))
  {
    var e, v := GiftEvent(token, to, value), ParseInt64(value).value;
    assert ToLower("Transfer") == "transfer";
    assert e.attrs[1..] == [Attr("value", value)] && e.attrs[1..][1..] == [];
    assert ReadAttrs(e.attrs[1..][1..], Fields("", to, v)) == Some(Fields("", to, v));
    assert ReadAttrs(e.attrs[1..], Fields("", to, 0)) == Some(Fields("", to, v));
  }

  lemma GiftMessageCalls(height: int, token: string, to: string, value: string)
    requires ParseInt64(value).Some?
    ensures var m := GiftMessage(height, token, to, value);
            var v := ParseInt64(value).value;
            Program(m) == [AddTransactions(height, m.transactions)] + MoveOps(token, "", to, v)
                          + [AddTransfers("tx", [Transfer("Transfer", "", to, token, v, UNIT_NAME)])]
  {
    var m := GiftMessage(height, token, to, value);
    var v := ParseInt64(value).value;
    var tx, e := m.transactions[0], GiftEvent(token, to, value);
    GiftEventCalls(token, to, value);
    assert EventOps(e) == MoveOps(token, "", to, v);
    assert tx.events[1..] == [] && m.transactions[1..] == [];
    assert EventsOps(tx.events) == EventOps(e);
    assert EventsTransfers(tx.events) == EventTransfers(e);
    assert TxsOps(m.transactions) == TxOps(tx);
  }

  lemma OneDigit(d: string)
    requires |d| == 1 && IsDigit(d[0])
    ensures ParseInt64(d) == Some((d[0] - '0') as int)
  {
    assert d[..0] == "" && DigitsValue("") == 0;
  }

  lemma MinusFive()
    ensures ParseInt64("-5") == Some(-5)
  {
    assert "-5"[1..] == "5" && "5"[..0] == "" && DigitsValue("") == 0;
  }

  // ---------------------------------------------------------------- what a mint does

  /** The tables after the first three calls of a mint to a new account. */
  function Minted(cfg: Config, t: Tables, first: Op, k: AccountKey, v: int): Tables
    requires first.AddTransactions?
  {
    t.(transactions := t.transactions + TransactionRows(first.height, first.txs),
       accounts := t.accounts[k := AddAmounts(cfg.arithmetic, 0, v)])
  }

  /** The first three calls of a mint to an account that is not there and that the key has room for. */
  lemma MintBegins(cfg: Config, t: Tables, first: Op, k: AccountKey, v: int)
    requires first.AddTransactions? && (forall tx :: tx in first.txs ==> tx.hash != "") && first.height in t.blocks
    requires ProperKey(k) && !KeyTaken(cfg.key, t.accounts, k)
    ensures Exec(cfg, t, [first, GetAccount(k.address, k.token), Increment(k.address, k.token, v, Minting)]) ==
            Run(Minted(cfg, t, first, k, v), true)
  {
    var look, add := GetAccount(k.address, k.token), Increment(k.address, k.token, v, Minting);
    var t1 := t.(transactions := t.transactions + TransactionRows(first.height, first.txs));
    var t2 := t1.(accounts := t.accounts[k := 0]);
    assert Matching(t.accounts, k.address, k.token) == {};
    assert ExecOp(cfg, t, first) == Run(t1, true) && ExecOp(cfg, t1, look) == Run(t2, true);
    ExecPair(cfg, t, first, look);
    ExecSnoc(cfg, t, [first, look], add);
    assert t2.accounts[k := AddAmounts(cfg.arithmetic, 0, v)] == t.accounts[k := AddAmounts(cfg.arithmetic, 0, v)];
    assert [first, look] + [add] == [first, look, add];
  }

  /** A mint to a new account, on tables without rows: it fails at its row exactly if the value is not positive, and the
      balance has changed either way. */
  lemma MintFromEmpty(cfg: Config, height: int, k: AccountKey, value: string)
    requires ProperKey(k) && ParseInt64(value).Some?
    ensures var m, v := MintMessage(height, k.token, k.address, value), ParseInt64(value).value;
            var r := Process(cfg, EMPTY, m);
            && (r.ok <==> v > 0) && r.tables.accounts == map[k := AddAmounts(cfg.arithmetic, 0, v)]
            && r.tables.transfers ==
               if v > 0
               then [StoredRow(cfg.arithmetic, RowOf("tx", Transfer("Mint", "", k.address, k.token, v, UNIT_NAME)))]
               else []
  {
    var m, v := MintMessage(height, k.token, k.address, value), ParseInt64(value).value;
    var gated := AddBlock(EMPTY, m.block).tables;
    MintMessageCalls(height, k.token, k.address, value);
    var p := Program(m);
    MintBegins(cfg, gated, p[0], k, v);
    var t := Minted(cfg, gated, p[0], k, v);
    MintSaves(cfg, t, p[3], k, v);
    ExecSnoc(cfg, gated, [p[0], p[1], p[2]], p[3]);
    assert p == [p[0], p[1], p[2]] + [p[3]];
  }

  lemma MintSaves(cfg: Config, t: Tables, save: Op, k: AccountKey, v: int)
    requires save == AddTransfers("tx", [Transfer("Mint", "", k.address, k.token, v, UNIT_NAME)])
    requires ProperKey(k) && k in t.accounts
    ensures var row := RowOf("tx", Transfer("Mint", "", k.address, k.token, v, UNIT_NAME));
            ExecOp(cfg, t, save) ==
            if v > 0 then Run(t.(transfers := t.transfers + [StoredRow(cfg.arithmetic, row)]), true) else Run(t, false)
  {
    var row := RowOf("tx", Transfer("Mint", "", k.address, k.token, v, UNIT_NAME));
    SaveOutcome(cfg, t, save);
    assert OpRows(save) == [row];
    assert row in OpRows(save);
    assert |ToLower("Mint")| == 4;
    assert HasAddress(t.accounts, k.address);
    assert OpStored(cfg.arithmetic, save) == [StoredRow(cfg.arithmetic, row)];
  }

  // ---------------------------------------------------------------- the inputs

  const FOO := AccountKey("g1a", "gno.land/r/demo/foo")

  /** A mint of -5 is refused by the validator of its row after the balance has changed, and the redelivered message is
      reported as processed without repairing anything. */
  lemma HalfFailedMint(cfg: Config)
    ensures var m := MintMessage(1, FOO.token, FOO.address, "-5");
            var r := Process(cfg, EMPTY, m);
            && !r.ok && r.tables.accounts == map[FOO := -5] && r.tables.transfers == []
            && Process(cfg, r.tables, m) == Run(r.tables, true)
  {
    var m := MintMessage(1, FOO.token, FOO.address, "-5");
    MinusFive();
    MintFromEmpty(cfg, 1, FOO, "-5");
    RoundExact(-5);
    RedeliveryIsNoOp(cfg, EMPTY, m, m);
  }

  /** A mint of 2^53 + 1 is processed without an error. With integer columns balance and stored amount are that number;
      with float64 columns both are 2^53. */
  lemma InexactMint(key: Uniqueness)
    ensures var m := MintMessage(1, FOO.token, FOO.address, Decimal(TWO_53 + 1));
            var exact, float := Process(Config(key, Exact), EMPTY, m), Process(Config(key, Binary64), EMPTY, m);
            && exact.ok && exact.tables.accounts == map[FOO := TWO_53 + 1]
            && |exact.tables.transfers| == 1 && exact.tables.transfers[0].amount == TWO_53 + 1
            && float.ok && float.tables.accounts == map[FOO := TWO_53]
            && |float.tables.transfers| == 1 && float.tables.transfers[0].amount == TWO_53
  {
    ParseDecimal(TWO_53 + 1);
    MintFromEmpty(Config(key, Exact), 1, FOO, Decimal(TWO_53 + 1));
    MintFromEmpty(Config(key, Binary64), 1, FOO, Decimal(TWO_53 + 1));
    FirstInexact();
    RoundExact(TWO_53);
  }

  /** A transfer to the only account of its token, on tables that hold nothing else, without a sender. */
  lemma GiftOnlyCredits(cfg: Config, t: Tables, k: AccountKey, b: int, v: int)
    requires ProperKey(k) && t.accounts == map[k := b] && v != MIN_INT64
    ensures Exec(cfg, t, MoveOps(k.token, "", k.address, v)) ==
            Run(t.(accounts := map[k := AddAmounts(cfg.arithmetic, b, v)]), true)
  {
    var ops := MoveOps(k.token, "", k.address, v);
    var t' := t.(accounts := map[k := AddAmounts(cfg.arithmetic, b, v)]);
    assert Matching(t.accounts, "", k.token) == {k} && Matching(t.accounts, k.address, k.token) == {k};
    assert AccountKey("", k.token) != k;
    assert ExecOp(cfg, t, ops[0]) == Run(t, true) && ExecOp(cfg, t, ops[1]) == Run(t, true);
    assert ExecOp(cfg, t, ops[2]) == Run(t, true) && ExecOp(cfg, t, ops[3]) == Run(t', true);
    ExecPair(cfg, t, ops[0], ops[1]);
    ExecSnoc(cfg, t, [ops[0], ops[1]], ops[2]);
    ExecSnoc(cfg, t, [ops[0], ops[1], ops[2]], ops[3]);
    assert [ops[0], ops[1]] + [ops[2]] == [ops[0], ops[1], ops[2]];
    assert ops == [ops[0], ops[1], ops[2]] + [ops[3]];
  }

  lemma GiftSaves(cfg: Config, t: Tables, save: Op, k: AccountKey, v: int)
    requires save == AddTransfers("tx", [Transfer("Transfer", "", k.address, k.token, v, UNIT_NAME)])
    requires ProperKey(k) && k in t.accounts && v > 0
    ensures ExecOp(cfg, t, save).ok && ExecOp(cfg, t, save).tables.accounts == t.accounts
  {
    var row := RowOf("tx", Transfer("Transfer", "", k.address, k.token, v, UNIT_NAME));
    SaveOutcome(cfg, t, save);
    assert OpRows(save) == [row];
    assert |ToLower("Transfer")| == 8;
    assert HasAddress(t.accounts, k.address);
  }

  /** The message of such a transfer. */
  lemma GiftMessageCredits(cfg: Config, t: Tables, k: AccountKey, b: int, value: string)
    requires ProperKey(k) && t.accounts == map[k := b] && 2 !in t.blocks
    requires ParseInt64(value).Some? && ParseInt64(value).value > 0
    ensures var r := Process(cfg, t, GiftMessage(2, k.token, k.address, value));
            r.ok && r.tables.accounts == map[k := AddAmounts(cfg.arithmetic, b, ParseInt64(value).value)]
  {
    var m, v := GiftMessage(2, k.token, k.address, value), ParseInt64(value).value;
    var gated := AddBlock(t, m.block).tables;
    GiftMessageCalls(2, k.token, k.address, value);
    var first, move := AddTransactions(2, m.transactions), MoveOps(k.token, "", k.address, v);
    var save := AddTransfers("tx", [Transfer("Transfer", "", k.address, k.token, v, UNIT_NAME)]);
    var t1 := ExecOp(cfg, gated, first).tables;
    GiftOnlyCredits(cfg, t1, k, b, v);
    var t2 := Exec(cfg, t1, move).tables;
    GiftSaves(cfg, t2, save, k, v);
    ExecCons(cfg, gated, first, move);
    ExecSnoc(cfg, gated, [first] + move, save);
  }

  /** A mint of 7 and then a transfer of 5 without a sender, processed from empty tables without an error: the token's
      only balance is 12, although only 7 were minted. */
  lemma EmptySenderMessages(cfg: Config)
    ensures var mint, gift := MintMessage(1, FOO.token, FOO.address, "7"), GiftMessage(2, FOO.token, FOO.address, "5");
            var first := Process(cfg, EMPTY, mint);
            var second := Process(cfg, first.tables, gift);
            && first.ok && first.tables.accounts == map[FOO := 7]
            && second.ok && second.tables.accounts == map[FOO := 12]
  {
    var mint := MintMessage(1, FOO.token, FOO.address, "7");
    OneDigit("7");
    OneDigit("5");
    RoundExact(7);
    RoundExact(5);
    RoundExact(12);
    MintFromEmpty(cfg, 1, FOO, "7");
    ExecKeepsBlocks(cfg, AddBlock(EMPTY, mint.block).tables, Program(mint));
    GiftMessageCredits(cfg, Process(cfg, EMPTY, mint).tables, FOO, 7, "5");
  }

  // ---------------------------------------------------------------- a burn, and an event of another type

  function BurnEvent(token: string, from: string, value: string): Event {
    Event("Transfer", "Burn", token, [Attr("from", from), Attr("value", value)])
  }

  function BurnMessage(height: int, token: string, from: string, value: string): BlockWithTransactions {
    BlockWithTransactions(Block("block", height), [Transaction(0, "tx", height, [BurnEvent(token, from, value)])])
  }

  lemma BurnEventCalls(token: string, from: string, value: string)
    requires ParseInt64(value).Some?
    ensures var e, v := BurnEvent(token, from, value), ParseInt64(value).value;
            && IsTransfer(e) && FuncOf(e.func).Burn? && ReadAttrs(e.attrs, NO_FIELDS) == Some(Fields(from, "", v))
  {
    var e, v := BurnEvent(token, from, value), ParseInt64(value).value;
    assert ToLower("Transfer") == "transfer" && ToLower("Burn") == "burn";
    assert e.attrs[1..] == [Attr("value", value)] && e.attrs[1..][1..] == [];
    assert ReadAttrs(e.attrs[1..][1..], Fields(from, "", v)) == Some(Fields(from, "", v));
    assert ReadAttrs(e.attrs[1..], Fields(from, "", 0)) == Some(Fields(from, "", v));
  }

  lemma BurnMessageCalls(height: int, token: string, from: string, value: string)
    requires ParseInt64(value).Some?
    ensures var m := BurnMessage(height, token, from, value);
            var v := ParseInt64(value).value;
            Program(m) == [AddTransactions(height, m.transactions)] + BurnOps(token, from, v)
                          + [AddTransfers("tx", [Transfer("Burn", from, "", token, v, UNIT_NAME)])]
  {
    var m := BurnMessage(height, token, from, value);
    var v := ParseInt64(value).value;
    var tx, e := m.transactions[0], BurnEvent(token, from, value);
    BurnEventCalls(token, from, value);
    assert EventOps(e) == BurnOps(token, from, v);
    assert tx.events[1..] == [] && m.transactions[1..] == [];
    assert EventsOps(tx.events) == EventOps(e);
    assert EventsTransfers(tx.events) == EventTransfers(e);
    assert TxsOps(m.transactions) == TxOps(tx);
  }

  /** The row of a burn or mint: the function in lower case, and an address that is not there as null. */
  lemma BurnSaves(cfg: Config, t: Tables, save: Op, k: AccountKey, v: int)
    requires save == AddTransfers("tx", [Transfer("Burn", k.address, "", k.token, v, UNIT_NAME)])
    requires ProperKey(k) && k in t.accounts && v > 0
    ensures var row := TransferRow("tx", "burn", Some(k.address), None, k.token, v, "ugnot");
            ExecOp(cfg, t, save) == Run(t.(transfers := t.transfers + [StoredRow(cfg.arithmetic, row)]), true)
  {
    var row := RowOf("tx", Transfer("Burn", k.address, "", k.token, v, UNIT_NAME));
    SaveOutcome(cfg, t, save);
    assert OpRows(save) == [row];
    assert ToLower("Burn") == "burn";
    assert HasAddress(t.accounts, k.address);
    assert OpStored(cfg.arithmetic, save) == [StoredRow(cfg.arithmetic, row)];
  }

  /** The calls of a burn from an account that is there. */
  lemma BurnDebits(cfg: Config, t: Tables, k: AccountKey, b: int, v: int)
    requires ProperKey(k) && t.accounts == map[k := b] && v > 0
    ensures Exec(cfg, t, BurnOps(k.token, k.address, v)) ==
            Run(t.(accounts := map[k := AddAmounts(cfg.arithmetic, b, -v)]), true)
  {
    assert Matching(t.accounts, k.address, k.token) == {k};
    ExecPair(cfg, t, GetAccount(k.address, k.token), Increment(k.address, k.token, v, Burning));
  }

  lemma BurnMessageDebits(cfg: Config, t: Tables, k: AccountKey, b: int, value: string)
    requires ProperKey(k) && t.accounts == map[k := b] && 2 !in t.blocks
    requires ParseInt64(value).Some? && ParseInt64(value).value > 0
    ensures var v := ParseInt64(value).value;
            var row := TransferRow("tx", "burn", Some(k.address), None, k.token, v, "ugnot");
            var r := Process(cfg, t, BurnMessage(2, k.token, k.address, value));
            && r.ok && r.tables.accounts == map[k := AddAmounts(cfg.arithmetic, b, -v)]
            && r.tables.transfers == t.transfers + [StoredRow(cfg.arithmetic, row)]
  {
    var m, v := BurnMessage(2, k.token, k.address, value), ParseInt64(value).value;
    var gated := AddBlock(t, m.block).tables;
    BurnMessageCalls(2, k.token, k.address, value);
    var first, burn := AddTransactions(2, m.transactions), BurnOps(k.token, k.address, v);
    var save := AddTransfers("tx", [Transfer("Burn", k.address, "", k.token, v, UNIT_NAME)]);
    var t1 := ExecOp(cfg, gated, first).tables;
    BurnDebits(cfg, t1, k, b, v);
    BurnSaves(cfg, Exec(cfg, t1, burn).tables, save, k, v);
    ExecCons(cfg, gated, first, burn);
    ExecSnoc(cfg, gated, [first] + burn, save);
  }

  /** A mint of 7 and then a burn of 5, processed from empty tables: the balance is 2, and two rows are stored. */
  lemma MintThenBurn(cfg: Config)
    ensures var mint, burn := MintMessage(1, FOO.token, FOO.address, "7"), BurnMessage(2, FOO.token, FOO.address, "5");
            var first := Process(cfg, EMPTY, mint);
            var second := Process(cfg, first.tables, burn);
            && first.ok && first.tables.accounts == map[FOO := 7]
            && second.ok && second.tables.accounts == map[FOO := 2]
            && second.tables.transfers ==
               [TransferRow("tx", "mint", None, Some("g1a"), "gno.land/r/demo/foo", 7, "ugnot"),
                TransferRow("tx", "burn", Some("g1a"), None, "gno.land/r/demo/foo", 5, "ugnot")]
  {
    var mint := MintMessage(1, FOO.token, FOO.address, "7");
    OneDigit("7");
    OneDigit("5");
    RoundExact(7);
    RoundExact(5);
    RoundExact(-5);
    RoundExact(2);
    MintFromEmpty(cfg, 1, FOO, "7");
    assert ToLower("Mint") == "mint";
    ExecKeepsBlocks(cfg, AddBlock(EMPTY, mint.block).tables, Program(mint));
    BurnMessageDebits(cfg, Process(cfg, EMPTY, mint).tables, FOO, 7, "5");
  }

  /** An event that looks like a transfer but is of another type. */
  function ApprovalMessage(height: int, token: string, value: string): BlockWithTransactions {
    var e := Event("Approval", "Transfer", token, [Attr("from", "g1a"), Attr("to", "g1b"), Attr("value", value)]);
    BlockWithTransactions(Block("block", height), [Transaction(0, "tx", height, [e])])
  }

  /** It makes no call and stores no row, whatever it carries: not even its value is read. */
  lemma OtherTypeIgnored(cfg: Config, height: int, token: string, value: string)
    ensures var m := ApprovalMessage(height, token, value);
            Process(cfg, EMPTY, m) ==
            Run(Tables(map[height := m.block], [TransactionRow(height, m.transactions[0])], map[], []), true)
  {
    var m := ApprovalMessage(height, token, value);
    var tx := m.transactions[0];
    var e := tx.events[0];
    var gated := AddBlock(EMPTY, m.block).tables;
    var first, save := AddTransactions(height, m.transactions), AddTransfers("tx", []);
    assert |ToLower(e.kind)| == 8 && ToLower(e.kind)[0] == 'a';
    assert tx.events[1..] == [] && m.transactions[1..] == [];
    assert EventsOps(tx.events) == [] && EventsTransfers(tx.events) == [];
    assert EventOps(e) == [] && EventsOps([]) == [] && TxOps(tx) == [save];
    assert TxsOps(m.transactions) == TxOps(tx) + [];
    assert Program(m) == [first, save];
    assert TransactionRows(height, m.transactions) == [TransactionRow(height, tx)];
    var t1 := ExecOp(cfg, gated, first).tables;
    assert StoredRows(cfg.arithmetic, RowsOf("tx", [])) == [];
    assert t1.transfers + [] == t1.transfers;
    ExecPair(cfg, gated, first, save);
  }
}
