/** The event processor's service: nested loops over transactions, events and attributes, and three handlers, changing
    the stored tables call by call. Proved to do exactly what Tables.Process says. */
module EventProcessor {
  import opened Deliveries
  import opened Float64
  import opened Handlers
  import opened Model
  import opened Programs
  import opened Repository
  import opened Tables

  lemma EventStep(cfg: Config, t: Tables, es: seq<Event>, j: nat, save: seq<Op>)
    requires j < |es|
    ensures Exec(cfg, t, EventsOps(es[j..]) + save) ==
            var r := Exec(cfg, t, EventOps(es[j]));
            if r.ok then Exec(cfg, r.tables, EventsOps(es[j + 1..]) + save) else r
  {
    var rest := EventsOps(es[j + 1..]);
    assert es[j..][0] == es[j] && es[j..][1..] == es[j + 1..];
    assert EventsOps(es[j..]) + save == EventOps(es[j]) + (rest + save);
    ExecAppend(cfg, t, EventOps(es[j]), rest + save);
  }

  class Service {
    const repo: RepositoryEnt

    constructor (repo: RepositoryEnt)
      ensures this.repo == repo
    {
      this.repo := repo;
    }

    /** The first half of every handler: the account is looked up, and created with 0 if it is not there. */
    method EnsureAccount(address: string, pkg: string) returns (ok: bool)
      modifies repo
      ensures Run(repo.State(), ok) == ExecOp(repo.config, old(repo.State()), Op.GetAccount(address, pkg))
    {
      var account, found := repo.GetAccount(address, pkg);
      if !found {
        return false;
      }
      ok := true;
      if account.None? {
        ok := repo.AddAccount(Account(address, pkg, 0));
      }
    }

    method HandleMintEvent(pkg: string, toAddress: string, value: int) returns (ok: bool)
      modifies repo
      ensures Run(repo.State(), ok) == Exec(repo.config, old(repo.State()), MintOps(pkg, toAddress, value))
      ensures var k := AccountKey(toAddress, pkg);
              if !ok || toAddress == "" || (pkg == "" && k !in old(repo.accounts))
              then repo.State() == old(repo.State())
              else repo.State() ==
                   old(repo.State()).(accounts := Credited(repo.config.arithmetic, old(repo.accounts), k, value))
    {
      MintLeaves(repo.config, repo.State(), pkg, toAddress, value);
      if toAddress == "" {
        return true;
      }
      ghost var get, inc := Op.GetAccount(toAddress, pkg), Increment(toAddress, pkg, value, Minting);
      ExecPair(repo.config, repo.State(), get, inc);
      var ensured := EnsureAccount(toAddress, pkg);
      if !ensured {
        return false;
      }
      ok := repo.IncrementAccountBalance(toAddress, pkg, value);
    }

    method HandleBurnEvent(pkg: string, fromAddress: string, value: int) returns (ok: bool)
      modifies repo
      ensures Run(repo.State(), ok) == Exec(repo.config, old(repo.State()), BurnOps(pkg, fromAddress, value))
      ensures var k := AccountKey(fromAddress, pkg);
              if !ok || fromAddress == "" || (pkg == "" && k !in old(repo.accounts))
              then repo.State() == old(repo.State())
              else repo.State() ==
                   old(repo.State()).(accounts := Credited(repo.config.arithmetic, old(repo.accounts), k,
                                                           if value == MIN_INT64 then value else -value))
    {
      BurnLeaves(repo.config, repo.State(), pkg, fromAddress, value);
      if fromAddress == "" {
        return true;
      }
      ghost var get, inc := Op.GetAccount(fromAddress, pkg), Increment(fromAddress, pkg, value, Burning);
      ExecPair(repo.config, repo.State(), get, inc);
      var ensured := EnsureAccount(fromAddress, pkg);
      if !ensured {
        return false;
      }
      ok := repo.IncrementAccountBalance(fromAddress, pkg, Negate64(value));
    }

    method HandleTransferEvent(pkg: string, fromAddress: string, toAddress: string, value: int) returns (ok: bool)
      modifies repo
      ensures Run(repo.State(), ok) == Exec(repo.config, old(repo.State()), MoveOps(pkg, fromAddress, toAddress, value))
      ensures repo.State() == old(repo.State()).(accounts := repo.accounts)
      ensures ok && fromAddress != "" && toAddress != "" && pkg != "" ==>
                var a, back := repo.config.arithmetic, if value == MIN_INT64 then value else -value;
                repo.accounts ==
                Credited(a, Credited(a, old(repo.accounts), AccountKey(fromAddress, pkg), back),
                         AccountKey(toAddress, pkg), value)
      ensures !ok ==> forall k :: k in old(repo.accounts) ==>
                k in repo.accounts && repo.accounts[k] == old(repo.accounts)[k]
    {
      MoveLeaves(repo.config, repo.State(), pkg, fromAddress, toAddress, value);
      ghost var ops := MoveOps(pkg, fromAddress, toAddress, value);
      ghost var t0 := repo.State();
      assert ops == [ops[0]] + ([ops[1]] + ops[2..]) && ops[2..] == [ops[2], ops[3]];
      ExecCons(repo.config, t0, ops[0], [ops[1]] + ops[2..]);
      var ensured := EnsureAccount(fromAddress, pkg);
      if !ensured {
        return false;
      }
      ghost var t1 := repo.State();
      ExecCons(repo.config, t1, ops[1], ops[2..]);
      ensured := EnsureAccount(toAddress, pkg);
      if !ensured {
        return false;
      }
      ghost var t2 := repo.State();
      ExecPair(repo.config, t2, ops[2], ops[3]);
      ok := repo.IncrementAccountBalance(fromAddress, pkg, Negate64(value));
      ok := repo.IncrementAccountBalance(toAddress, pkg, value);
    }

    /** The attribute loop: last value of each key, or failure at the first value that is not an int64. */
    method ReadFields(attrs: seq<Attr>) returns (f: Fields, ok: bool)
      ensures if ok then ReadAttrs(attrs, NO_FIELDS) == Some(f) else ReadAttrs(attrs, NO_FIELDS) == None
      ensures ok <==> forall i :: 0 <= i < |attrs| && attrs[i].key == "value" ==> ParseInt64(attrs[i].value).Some?
      ensures ok ==>
                && f.from == TextOr(LastValue(attrs, "from"), "") && f.to == TextOr(LastValue(attrs, "to"), "")
                && match LastValue(attrs, "value")
                   case None => f.value == 0
                   case Some(s) => ParseInt64(s) == Some(f.value)
    {
      ReadAttrsMeaning(attrs, NO_FIELDS);
      var fromAddress, toAddress, numValue := "", "", 0;
      for k := 0 to |attrs|
        invariant ReadAttrs(attrs, NO_FIELDS) == ReadAttrs(attrs[k..], Fields(fromAddress, toAddress, numValue))
      {
        var attr := attrs[k];
        assert attrs[k..][0] == attr && attrs[k..][1..] == attrs[k + 1..];
        if attr.key == "from" {
          fromAddress := attr.value;
        } else if attr.key == "to" {
          toAddress := attr.value;
        } else if attr.key == "value" {
          var parsed := ParseInt64(attr.value);
          if parsed.None? {
            return NO_FIELDS, false;
          }
          numValue := parsed.value;
        }
      }
      return Fields(fromAddress, toAddress, numValue), true;
    }

    /** The dispatch on the event's function. */
    method HandleEvent(event: Event, f: Fields) returns (ok: bool)
      modifies repo
      ensures Run(repo.State(), ok) == Exec(repo.config, old(repo.State()), FuncOps(event, f))
    {
      var func := ToLower(event.func);
      if func == "mint" {
        ok := HandleMintEvent(event.pkgPath, f.to, f.value);
      } else if func == "burn" {
        ok := HandleBurnEvent(event.pkgPath, f.from, f.value);
      } else if func == "transfer" {
        ok := HandleTransferEvent(event.pkgPath, f.from, f.to, f.value);
      } else {
        ok := true;
      }
    }

    /** One event: its fields, its handler, its transfer. Events that are not transfers do nothing. */
    method ProcessEvent(event: Event, transfers: seq<Transfer>) returns (transfers': seq<Transfer>, ok: bool)
      modifies repo
      ensures Run(repo.State(), ok) == Exec(repo.config, old(repo.State()), EventOps(event))
      ensures ok ==> transfers' == transfers + EventTransfers(event)
    {
      transfers', ok := transfers, true;
      if ToLower(event.kind) == "transfer" {
        var f, parsed := ReadFields(event.attrs);
        if !parsed {
          ExecCons(repo.config, repo.State(), RejectValue, []);
          assert EventOps(event) == [RejectValue] + [];
          return transfers, false;
        }
        ok := HandleEvent(event, f);
        transfers' := transfers + [Transfer(event.func, f.from, f.to, event.pkgPath, f.value, UNIT_NAME)];
      }
    }

    /** The event loop of one transaction, and the bulk insert that ends it. */
    method ProcessTransaction(tx: Transaction) returns (ok: bool)
      modifies repo
      ensures Run(repo.State(), ok) == Exec(repo.config, old(repo.State()), TxOps(tx))
    {
      ghost var t0 := repo.State();
      ghost var save := Op.AddTransfers(tx.hash, EventsTransfers(tx.events));
      var transfers: seq<Transfer> := [];
      assert tx.events[0..] == tx.events;
      for j := 0 to |tx.events|
        invariant transfers == EventsTransfers(tx.events[..j])
        invariant Exec(repo.config, t0, TxOps(tx)) ==
                  Exec(repo.config, repo.State(), EventsOps(tx.events[j..]) + [save])
      {
        EventStep(repo.config, repo.State(), tx.events, j, [save]);
        assert tx.events[..j + 1] == tx.events[..j] + [tx.events[j]];
        TransfersSnoc(tx.events[..j], tx.events[j]);
        transfers, ok := ProcessEvent(tx.events[j], transfers);
        if !ok {
          return;
        }
      }
      assert tx.events[..|tx.events|] == tx.events && tx.events[|tx.events|..] == [];
      assert [] + [save] == [save] + [];
      ExecCons(repo.config, repo.State(), save, []);
      ok := repo.AddTransfers(tx.hash, transfers);
    }

    method ParseAndProcessTransactions(transactions: seq<Transaction>) returns (ok: bool)
      modifies repo
      ensures Run(repo.State(), ok) == Exec(repo.config, old(repo.State()), TxsOps(transactions))
    {
      ghost var t0 := repo.State();
      for i := 0 to |transactions|
        invariant Exec(repo.config, t0, TxsOps(transactions)) ==
                  Exec(repo.config, repo.State(), TxsOps(transactions[i..]))
      {
        var tx := transactions[i];
        assert transactions[i..][0] == tx && transactions[i..][1..] == transactions[i + 1..];
        ExecAppend(repo.config, repo.State(), TxOps(tx), TxsOps(transactions[i + 1..]));
        var done := ProcessTransaction(tx);
        if !done {
          return false;
        }
      }
      return true;
    }

    /** The gate, then the transactions, then the ledger. */
    method ProcessBlockWithTransactions(m: BlockWithTransactions) returns (ok: bool)
      modifies repo
      ensures Run(repo.State(), ok) == Process(repo.config, old(repo.State()), m)
      ensures m.block.hash == "" ==> !ok && repo.State() == old(repo.State())
      ensures m.block.hash != "" && m.block.height in old(repo.blocks) ==> ok && repo.State() == old(repo.State())
      ensures m.block.hash != "" && m.block.height !in old(repo.blocks) ==>
                repo.blocks == old(repo.blocks)[m.block.height := m.block]
    {
      var existing, added := repo.AddBlock(m.block);
      if !added {
        return false;
      }
      if existing {
        return true;
      }
      ExecCons(repo.config, repo.State(), Op.AddTransactions(m.block.height, m.transactions), TxsOps(m.transactions));
      ExecKeepsBlocks(repo.config, repo.State(), Program(m));
      var stored := repo.AddTransactions(m.block.height, m.transactions);
      if !stored {
        return false;
      }
      ok := ParseAndProcessTransactions(m.transactions);
    }
  }
}
