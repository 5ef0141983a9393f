/** When handlers succeed, and what they leave behind when they do not. */
module Handlers {
  import opened Amounts
  import opened Core
  import Float64
  import opened Model
  import opened Programs
  import opened Tables

  // ---------------------------------------------------------------- transfers that fail before the debit

  /** Existing balances are untouched, new rows are empty. */
  predicate MovesNothing(a: map<AccountKey, int>, b: map<AccountKey, int>) {
    && (forall k :: k in a ==> k in b && b[k] == a[k])
    && (forall k :: k in b && k !in a ==> b[k] == 0)
  }

  /** This work item's next four calls are those of a transfer event. */
  predicate AtMove(t: Task, token: string, from: string, to: string, value: int) {
    t.pc + 4 <= |Program(t.msg)| && Program(t.msg)[t.pc..t.pc + 4] == MoveOps(token, from, to, value)
  }

  predicate ActsOn(a: Action, i: nat) { a == Work(i) || a == Outage(i) }

  lemma {:induction false} ProgressOnly(cfg: Config, run: seq<Core>, acts: seq<Action>, i: nat, p: nat, q: nat)
    requires IsRun(cfg, run, acts) && p <= q <= |acts| && i < |run[p].tasks|
    ensures i < |run[q].tasks| && run[q].tasks[i].msg == run[p].tasks[i].msg
    ensures run[p].tasks[i].pc <= run[q].tasks[i].pc
    decreases q - p
  {
    if p < q {
      var c, a, c' := run[q - 1], acts[q - 1], run[q - 1 + 1];
      ProgressOnly(cfg, run, acts, i, p, q - 1);
      assert TasksOk(c) by { RunStructured(cfg, run, acts, q - 1); }
      assert Step(cfg, c, a, c');
      StepShape(cfg, c, a, c');
    }
  }

  lemma LookupMovesNothing(cfg: Config, t: Tables, op: Op, t': Tables, token: string)
    requires Effect(cfg, t, op, t') && op.GetAccount?
    ensures MovesNothing(t.accounts, t'.accounts) && Total(t'.accounts, token) == Total(t.accounts, token)
  {
    EffectOnAccounts(cfg, t, op, t');
    if t'.accounts != t.accounts {
      TotalWrite(t.accounts, AccountKey(op.address, op.token), 0, token);
    }
  }

  /** A transfer that starts at step p and has failed by step q in a lookup or an account creation (a lost creation
      race included) moved nothing in any of its own steps, whatever other tasks did in between. */
  lemma FailedTransferMovesNothing(cfg: Config, run: seq<Core>, acts: seq<Action>, i: nat, p: nat, n: nat, q: nat,
                                   token: string, from: string, to: string, value: int, any: string)
    requires IsRun(cfg, run, acts) && p <= n < q <= |acts| && i < |run[p].tasks| && i < |run[q].tasks|
    requires AtMove(run[p].tasks[i], token, from, to, value)
    requires run[q].tasks[i].failed && run[q].tasks[i].pc < run[p].tasks[i].pc + 2
    requires ActsOn(acts[n], i)
    ensures MovesNothing(run[n].tables.accounts, run[n + 1].tables.accounts)
    ensures Total(run[n + 1].tables.accounts, any) == Total(run[n].tables.accounts, any)
  {
    ProgressOnly(cfg, run, acts, i, p, n);
    ProgressOnly(cfg, run, acts, i, n, q);
    RunStructured(cfg, run, acts, n);
    StepShape(cfg, run[n], acts[n], run[n + 1]);
    if acts[n].Work? && !Quiet(run[n], i, run[n + 1]) {
      var s := run[p].tasks[i].pc;
      var prog := Program(run[p].tasks[i].msg);
      var op := prog[run[n].tasks[i].pc];
      assert op == prog[s..s + 4][run[n].tasks[i].pc - s];
      LookupMovesNothing(cfg, run[n].tables, op, run[n + 1].tables, any);
    }
  }

  predicate SingleRow(accounts: map<AccountKey, int>, address: string) {
    |Matching(accounts, address, "")| == 1
  }

  /** Under the generated key an account can hold one token only. Minting a token to an address succeeds exactly when
      the address is absent from the event, already holds that token, or may take a new row: always under the intended
      key, under the generated one only if it holds no token at all. Without a token the lookup is by address alone
      and must find a single row. */
  lemma MintSucceedsIff(cfg: Config, t: Tables, token: string, to: string, value: int)
    ensures Exec(cfg, t, MintOps(token, to, value)).ok <==>
            || to == ""
            || (token == "" && SingleRow(t.accounts, to))
            || (token != "" && (AccountKey(to, token) in t.accounts
                                || cfg.key.ByAddressAndToken? || !HasAddress(t.accounts, to)))
  {
    if to != "" {
      var ops := MintOps(token, to, value);
      var k := AccountKey(to, token);
      var ks := Matching(t.accounts, to, token);
      if token != "" {
        if k in t.accounts { assert ks == {k}; } else { assert ks == {}; }
      }
      ExecPair(cfg, t, ops[0], ops[1]);
    }
  }

  /** An input: under the generated key an address that holds one token cannot be minted another. */
  lemma SecondTokenRefused(cfg: Config, value: int)
    requires cfg.key.ByAddress?
    ensures var t := EMPTY.(accounts := map[AccountKey("g1a", "gno.land/r/demo/foo") := 7]);
            Exec(cfg, t, MintOps("gno.land/r/demo/bar", "g1a", value)) == Run(t, false)
  {
    var k := AccountKey("g1a", "gno.land/r/demo/foo");
    var t := EMPTY.(accounts := map[k := 7]);
    var ops := MintOps("gno.land/r/demo/bar", "g1a", value);
    assert "gno.land/r/demo/bar"[16] != "gno.land/r/demo/foo"[16];
    assert AccountKey("g1a", "gno.land/r/demo/bar") !in t.accounts;
    assert k in t.accounts && k.address == "g1a";
    MintSucceedsIff(cfg, t, "gno.land/r/demo/bar", "g1a", value);
    ExecPair(cfg, t, ops[0], ops[1]);
  }

  // ---------------------------------------------------------------- what the handlers leave

  /** One lookup and one increment. */
  lemma PairLeaves(cfg: Config, t: Tables, address: string, token: string, v: int, role: Role)
    requires address != ""
    ensures var k, amount := AccountKey(address, token), Amount(Increment(address, token, v, role));
            var r := Exec(cfg, t, [GetAccount(address, token), Increment(address, token, v, role)]);
            if !r.ok || (token == "" && k !in t.accounts) then r.tables == t
            else r.tables == t.(accounts := Credited(cfg.arithmetic, t.accounts, k, amount))
  {
    var get, inc := GetAccount(address, token), Increment(address, token, v, role);
    LookupLeaves(cfg, t, address, token);
    ExecPair(cfg, t, get, inc);
    var mid, k := ExecOp(cfg, t, get).tables, AccountKey(address, token);
    assert ExecOp(cfg, mid, inc) ==
           Run(mid.(accounts := IncrementBalance(cfg.arithmetic, mid.accounts, k, Amount(inc))), true);
  }

  /** A lookup changes nothing, or adds the row with 0. */
  lemma LookupLeaves(cfg: Config, t: Tables, address: string, token: string)
    ensures var k, r := AccountKey(address, token), ExecOp(cfg, t, GetAccount(address, token));
            && (!r.ok || address == "" || token == "" || k in t.accounts ==> r.tables == t)
            && (r.ok && address != "" && token != "" && k !in t.accounts ==>
                  r.tables == t.(accounts := t.accounts[k := 0]))
  {
    var k, ks := AccountKey(address, token), Matching(t.accounts, address, token);
    if k in t.accounts { assert k in ks; }
    if address != "" && token != "" && k !in t.accounts { assert ks == {}; }
  }

  lemma MintLeaves(cfg: Config, t: Tables, token: string, to: string, value: int)
    ensures var k, r := AccountKey(to, token), Exec(cfg, t, MintOps(token, to, value));
            if !r.ok || to == "" || (token == "" && k !in t.accounts) then r.tables == t
            else r.tables == t.(accounts := Credited(cfg.arithmetic, t.accounts, k, value))
  {
    if to != "" { PairLeaves(cfg, t, to, token, value, Minting); }
  }

  lemma BurnLeaves(cfg: Config, t: Tables, token: string, from: string, value: int)
    ensures var k, r := AccountKey(from, token), Exec(cfg, t, BurnOps(token, from, value));
            if !r.ok || from == "" || (token == "" && k !in t.accounts) then r.tables == t
            else r.tables == t.(accounts := Credited(cfg.arithmetic, t.accounts, k,
                                                     if value == Float64.MIN_INT64 then value else -value))
  {
    if from != "" { PairLeaves(cfg, t, from, token, value, Burning); }
  }

  /** Two increments of rows that are there, or count as there. */
  lemma TwoIncrements(cfg: Config, t: Tables, token: string, from: string, to: string, value: int)
    ensures Exec(cfg, t, [Increment(from, token, value, Debit), Increment(to, token, value, Credit)]).ok
    ensures var r := Exec(cfg, t, [Increment(from, token, value, Debit), Increment(to, token, value, Credit)]).tables;
            && r == t.(accounts := r.accounts)
            && (AccountKey(from, token) in t.accounts && AccountKey(to, token) in t.accounts ==>
                  var a, back := cfg.arithmetic, if value == Float64.MIN_INT64 then value else -value;
                  r.accounts == Credited(a, Credited(a, t.accounts, AccountKey(from, token), back),
                                         AccountKey(to, token), value))
  {
    ExecPair(cfg, t, Increment(from, token, value, Debit), Increment(to, token, value, Credit));
    IncrementLeaves(cfg, t, from, token, value, Debit);
    var mid := ExecOp(cfg, t, Increment(from, token, value, Debit)).tables;
    IncrementLeaves(cfg, mid, to, token, value, Credit);
  }

  lemma IncrementLeaves(cfg: Config, t: Tables, address: string, token: string, v: int, role: Role)
    ensures var k, op := AccountKey(address, token), Increment(address, token, v, role);
            var r := ExecOp(cfg, t, op);
            && r.ok && r.tables == t.(accounts := r.tables.accounts) && r.tables.accounts.Keys == t.accounts.Keys
            && (k in t.accounts ==> r.tables.accounts == Credited(cfg.arithmetic, t.accounts, k, Amount(op)))
  {
  }

  /** What two lookups leave: the rows of both accounts, new ones with 0. */
  lemma TwoLookups(cfg: Config, t: Tables, token: string, from: string, to: string)
    ensures var r := Exec(cfg, t, [GetAccount(from, token), GetAccount(to, token)]);
            && r.tables == t.(accounts := r.tables.accounts)
            && (forall k :: k in t.accounts ==> k in r.tables.accounts && r.tables.accounts[k] == t.accounts[k])
            && (forall k :: k in r.tables.accounts && k !in t.accounts ==>
                  r.tables.accounts[k] == 0 && (k == AccountKey(from, token) || k == AccountKey(to, token)))
            && (r.ok && from != "" && to != "" && token != "" ==>
                  AccountKey(from, token) in r.tables.accounts && AccountKey(to, token) in r.tables.accounts)
  {
    ExecPair(cfg, t, GetAccount(from, token), GetAccount(to, token));
    LookupLeaves(cfg, t, from, token);
    LookupLeaves(cfg, ExecOp(cfg, t, GetAccount(from, token)).tables, to, token);
  }

  /** Rows added with 0 do not show after a credit to each of them. */
  lemma CreditedAlike(a: Arithmetic, x: map<AccountKey, int>, y: map<AccountKey, int>, k: AccountKey, l: AccountKey,
                      v: int, w: int)
    requires k in y && l in y && forall i :: i in x ==> i in y && y[i] == x[i]
    requires forall i :: i in y && i !in x ==> y[i] == 0 && (i == k || i == l)
    ensures Credited(a, Credited(a, y, k, v), l, w) == Credited(a, Credited(a, x, k, v), l, w)
  {
    var p, q := Credited(a, Credited(a, y, k, v), l, w), Credited(a, Credited(a, x, k, v), l, w);
    assert p.Keys == q.Keys;
    assert forall i :: i in p ==> p[i] == q[i];
  }

  lemma MoveLeaves(cfg: Config, t: Tables, token: string, from: string, to: string, value: int)
    ensures var r := Exec(cfg, t, MoveOps(token, from, to, value));
            && r.tables == t.(accounts := r.tables.accounts)
            && (r.ok && from != "" && to != "" && token != "" ==>
                  var a, back := cfg.arithmetic, if value == Float64.MIN_INT64 then value else -value;
                  r.tables.accounts == Credited(a, Credited(a, t.accounts, AccountKey(from, token), back),
                                                AccountKey(to, token), value))
            && (!r.ok ==> forall k :: k in t.accounts ==>
                  k in r.tables.accounts && r.tables.accounts[k] == t.accounts[k])
  {
    var first := [GetAccount(from, token), GetAccount(to, token)];
    var last := [Increment(from, token, value, Debit), Increment(to, token, value, Credit)];
    assert MoveOps(token, from, to, value) == first + last;
    ExecAppend(cfg, t, first, last);
    TwoLookups(cfg, t, token, from, to);
    var mid := Exec(cfg, t, first).tables;
    TwoIncrements(cfg, mid, token, from, to, value);
    if Exec(cfg, t, first).ok && from != "" && to != "" && token != "" {
      CreditedAlike(cfg.arithmetic, t.accounts, mid.accounts, AccountKey(from, token), AccountKey(to, token),
                    if value == Float64.MIN_INT64 then value else -value, value);
    }
  }

  // ---------------------------------------------------------------- when burns and transfers succeed

  /** A burn succeeds exactly when the event has no sender, or the like of what holds for a mint. */
  lemma BurnSucceedsIff(cfg: Config, t: Tables, token: string, from: string, value: int)
    ensures Exec(cfg, t, BurnOps(token, from, value)).ok <==>
            || from == ""
            || (token == "" && SingleRow(t.accounts, from))
            || (token != "" && (AccountKey(from, token) in t.accounts
                                || cfg.key.ByAddressAndToken? || !HasAddress(t.accounts, from)))
  {
    MintSucceedsIff(cfg, t, token, from, value);
    if from != "" {
      ExecPair(cfg, t, GetAccount(from, token), Increment(from, token, value, Burning));
      ExecPair(cfg, t, GetAccount(from, token), Increment(from, token, value, Minting));
    }
  }
}
