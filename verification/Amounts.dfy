/** Binary64 columns against integer columns: a run with rounding is a run without, but for the amounts of stored
    transfers that float64 cannot represent. */
module Amounts {
  import opened Conservation
  import opened Core
  import opened Float64
  import opened Model
  import opened Programs
  import opened Sums
  import opened Tables

  /** The absolute value a call applies to the balance of k. */
  function AbsDelta(k: AccountKey): Op -> int { (op: Op) => Abs(Delta(k)(op)) }

  function TaskAbsDelta(k: AccountKey): Task -> int { (t: Task) => SumBy(Done(t), AbsDelta(k)) }

  /** The absolute values applied to every account so far sum to at most 2^53. */
  ghost predicate Within53(c: Core) {
    forall k :: ProperKey(k) ==> SumBy(c.tasks, TaskAbsDelta(k)) <= TWO_53
  }

  function ExactOf(cfg: Config): Config { cfg.(arithmetic := Exact) }

  lemma AbsGrows(cfg: Config, c: Core, a: Action, c': Core, k: AccountKey)
    requires TasksOk(c) && Step(cfg, c, a, c')
    ensures SumBy(c.tasks, TaskAbsDelta(k)) <= SumBy(c'.tasks, TaskAbsDelta(k))
  {
    StepShape(cfg, c, a, c');
    if a.Work? && !Quiet(c, a.task, c') {
      var op := Program(c.tasks[a.task].msg)[c.tasks[a.task].pc];
      SumCompleted(cfg, c, a.task, op, c', AbsDelta(k), TaskAbsDelta(k));
      assert AbsDelta(k)(op) == Abs(Delta(k)(op));
    } else {
      SumIdle(cfg, c, a, c', AbsDelta(k), TaskAbsDelta(k));
    }
  }

  lemma StaysWithin(cfg: Config, c: Core, a: Action, c': Core)
    requires TasksOk(c) && Step(cfg, c, a, c') && Within53(c')
    ensures Within53(c)
  {
    forall k | ProperKey(k) ensures SumBy(c.tasks, TaskAbsDelta(k)) <= TWO_53 { AbsGrows(cfg, c, a, c', k); }
  }

  /** A balance never exceeds what was applied to it in absolute value. */
  lemma BalanceBounded(c: Core, k: AccountKey)
    requires Balanced(c) && ProperKey(k)
    ensures Abs(Balance(c.tables.accounts, k)) <= SumBy(c.tasks, TaskAbsDelta(k))
  {
    forall t | t in c.tasks
      ensures -TaskAbsDelta(k)(t) <= TaskDelta(k)(t) <= TaskAbsDelta(k)(t)
    {
      SumAbs(Done(t), Delta(k), AbsDelta(k));
    }
    SumAbs(c.tasks, TaskDelta(k), TaskAbsDelta(k));
  }

  // ---------------------------------------------------------------- one call, with and without rounding

  /** The call changes balances alike with and without rounding. */
  predicate IncrementsAlike(accounts: map<AccountKey, int>, op: Op) {
    op.Increment? ==>
      var k := AccountKey(op.address, op.token);
      IncrementBalance(Binary64, accounts, k, Amount(op)) == IncrementBalance(Exact, accounts, k, Amount(op))
  }

  /** A call on tables with binary64 columns does what it does on the same tables with integer columns, except that it
      stores converted amounts. */
  lemma ApplyAlike(cfg: Config, t: Tables, op: Op)
    requires cfg.arithmetic.Binary64? && IncrementsAlike(t.accounts, op)
    ensures Apply(cfg, t, op) ==
            match Apply(ExactOf(cfg), t, op)
            case Ok(t') => Ok(t'.(transfers := t.transfers + OpStored(Binary64, op)))
            case NoAccount => NoAccount
            case Failed => Failed
  {
    if op.AddTransfers? {
      SaveOutcome(cfg, t, op);
      SaveOutcome(ExactOf(cfg), t, op);
    } else {
      assert t.transfers + [] == t.transfers;
    }
  }

  /** What is in the transfers table does not matter to any call. */
  lemma ApplyFrame(cfg: Config, t: Tables, rows: seq<TransferRow>, op: Op)
    ensures Apply(cfg, t.(transfers := rows), op) ==
            match Apply(cfg, t, op)
            case Ok(t') => Ok(t'.(transfers := rows + OpStored(cfg.arithmetic, op)))
            case NoAccount => NoAccount
            case Failed => Failed
  {
    if op.AddTransfers? {
      SaveOutcome(cfg, t, op);
      SaveOutcome(cfg, t.(transfers := rows), op);
    } else {
      assert rows + [] == rows;
    }
  }

  function RoundedTables(t: Tables): Tables { t.(transfers := StoredRows(Binary64, t.transfers)) }

  /** The same state with the amounts of the stored transfers converted to float64. */
  function Rounded(c: Core): Core { c.(tables := RoundedTables(c.tables)) }

  /** So rounding what a call leaves is the same as making the call on rounded tables. */
  lemma ApplyRounded(cfg: Config, t: Tables, op: Op)
    requires cfg.arithmetic.Binary64? && IncrementsAlike(t.accounts, op)
    ensures Apply(cfg, RoundedTables(t), op) ==
            match Apply(ExactOf(cfg), t, op)
            case Ok(t') => Ok(RoundedTables(t'))
            case NoAccount => NoAccount
            case Failed => Failed
  {
    ApplyAlike(cfg, t, op);
    ApplyFrame(cfg, t, StoredRows(Binary64, t.transfers), op);
    TransfersAppend(ExactOf(cfg), t, op);
    assert StoredRows(Binary64, t.transfers + OpRows(op)) == StoredRows(Binary64, t.transfers) + OpStored(Binary64, op);
  }

  lemma TransfersAppend(cfg: Config, t: Tables, op: Op)
    ensures Apply(cfg, t, op).Ok? ==>
              Apply(cfg, t, op).tables.transfers == t.transfers + OpStored(cfg.arithmetic, op)
  {
    ApplyFrame(cfg, t, t.transfers, op);
    assert t.(transfers := t.transfers) == t;
  }

  // ---------------------------------------------------------------- within 2^53

  lemma IncrementExact(accounts: map<AccountKey, int>, k: AccountKey, amount: int)
    requires k in accounts ==> Abs(accounts[k]) + Abs(amount) <= TWO_53
    ensures IncrementBalance(Binary64, accounts, k, amount) == IncrementBalance(Exact, accounts, k, amount)
  {
    if k in accounts {
      RoundExact(amount);
      RoundExact(accounts[k] + amount);
    }
  }

  /** Before an increment that stays within the bound, the balance and the amount together are within it. */
  lemma IncrementWithin(cfg: Config, c: Core, i: nat, d: Core, c': Core, k: AccountKey)
    requires TasksOk(d) && Balanced(c) && c.tasks == d.tasks && ProperKey(k)
    requires Step(cfg, d, Work(i), c') && Within53(c') && NextOp(c.tasks[i]).Increment?
    requires k == AccountKey(NextOp(c.tasks[i]).address, NextOp(c.tasks[i]).token)
    ensures Abs(Balance(c.tables.accounts, k)) + Abs(Amount(NextOp(c.tasks[i]))) <= TWO_53
  {
    var op := NextOp(d.tasks[i]);
    StepShape(cfg, d, Work(i), c');
    SumCompleted(cfg, d, i, op, c', AbsDelta(k), TaskAbsDelta(k));
    assert AbsDelta(k)(op) == Abs(Amount(op));
    BalanceBounded(c, k);
  }

  /** When the amounts applied so far are within the bound after a call, the call changes balances without rounding. */
  lemma WorkAlike(cfg: Config, c: Core, i: nat, d: Core, c': Core)
    requires TasksOk(d) && Balanced(c) && Sourced(c) && c.tasks == d.tasks && c.tables.accounts == d.tables.accounts
    requires Step(cfg, d, Work(i), c') && Within53(c')
    ensures IncrementsAlike(c.tables.accounts, NextOp(c.tasks[i]))
  {
    var op := NextOp(d.tasks[i]);
    if op.Increment? {
      var k := AccountKey(op.address, op.token);
      if k in c.tables.accounts { IncrementWithin(cfg, c, i, d, c', k); }
      IncrementExact(c.tables.accounts, k, Amount(op));
    }
  }

  /** The step stores only amounts that float64 represents. */
  predicate StoresRepresentable(cfg: Config, c: Core, a: Action) {
    a.Work? && a.task < |c.tasks| && Running(c.tasks[a.task]) && NextOp(c.tasks[a.task]).AddTransfers? &&
    Apply(cfg, c.tables, NextOp(c.tasks[a.task])).Ok? ==>
      forall r :: r in OpRows(NextOp(c.tasks[a.task])) ==> Representable(r.amount)
  }

  lemma StoredSame(rows: seq<TransferRow>)
    ensures StoredRows(Binary64, rows) == rows <==> forall r :: r in rows ==> Representable(r.amount)
  {
    var stored := StoredRows(Binary64, rows);
    forall i | 0 <= i < |rows| ensures stored[i] == rows[i] <==> Representable(rows[i].amount) {
      RoundsToItself(rows[i].amount);
    }
    ByPlace(rows, (r: TransferRow) => Representable(r.amount));
  }

  lemma AppendsSame<T>(a: seq<T>, b: seq<T>, c: seq<T>)
    ensures a + b == a + c <==> b == c
  {
    if a + b == a + c { assert b == (a + b)[|a|..] == (a + c)[|a|..] == c; }
  }

  /** Within the bound, a step with binary64 columns is a step with integer columns if and only if the amounts it stores
      are representable. */
  lemma StepIsExact(cfg: Config, c: Core, a: Action, c': Core)
    requires cfg.arithmetic.Binary64? && Inv(ExactOf(cfg), c) && Step(cfg, c, a, c') && Within53(c')
    ensures Step(ExactOf(cfg), c, a, c') <==> StoresRepresentable(cfg, c, a)
  {
    if a.Work? {
      var op := NextOp(c.tasks[a.task]);
      WorkAlike(cfg, c, a.task, c, c');
      ApplyAlike(cfg, c.tables, op);
      TransfersAppend(ExactOf(cfg), c.tables, op);
      AppendsSame(c.tables.transfers, OpStored(Binary64, op), OpRows(op));
      StoredSame(OpRows(op));
    }
  }

  /** Within the bound, every step with binary64 columns is the rounding of a step with integer columns. */
  lemma StepSimulated(cfg: Config, c: Core, a: Action, d': Core) returns (c': Core)
    requires cfg.arithmetic.Binary64? && Inv(ExactOf(cfg), c) && Step(cfg, Rounded(c), a, d') && Within53(d')
    ensures Step(ExactOf(cfg), c, a, c') && d' == Rounded(c') && Inv(ExactOf(cfg), c')
  {
    match a {
      case Open(m) => c' := Core(AddBlock(c.tables, m.block).tables, c.tasks + [Task(m, 0, false, false)]);
      case Outage(i) => c' := c.(tasks := c.tasks[i := c.tasks[i].(failed := true)]);
      case Work(i) =>
        WorkAlike(cfg, c, i, Rounded(c), d');
        ApplyRounded(cfg, c.tables, NextOp(c.tasks[i]));
        c' := Advance(ExactOf(cfg), c, i);
    }
    StepInv(ExactOf(cfg), c, a, c');
  }

  lemma {:induction false} EarlierWithin53(cfg: Config, run: seq<Core>, acts: seq<Action>, n: nat)
    requires IsRun(cfg, run, acts) && n <= |acts| && Within53(run[|acts|])
    ensures Within53(run[n])
    decreases |acts| - n
  {
    if n < |acts| {
      EarlierWithin53(cfg, run, acts, n + 1);
      RunStructured(cfg, run, acts, n);
      StaysWithin(cfg, run[n], acts[n], run[n + 1]);
    }
  }

  /** State for state, run is the rounding of exact. */
  predicate Rounds(run: seq<Core>, exact: seq<Core>) {
    |exact| <= |run| && forall i :: 0 <= i < |exact| ==> run[i] == Rounded(exact[i])
  }

  lemma RoundsNext(run: seq<Core>, exact: seq<Core>, c: Core)
    requires Rounds(run, exact) && |exact| < |run| && run[|exact|] == Rounded(c)
    ensures Rounds(run, exact + [c])
  {
  }

  /** The integer run behind the first n steps of a binary64 run. */
  lemma {:induction false} PrefixSimulated(cfg: Config, run: seq<Core>, acts: seq<Action>, n: nat)
    returns (exact: seq<Core>)
    requires cfg.arithmetic.Binary64? && IsRun(cfg, run, acts) && n <= |acts| && Within53(run[|acts|])
    ensures IsRun(ExactOf(cfg), exact, acts[..n]) && Rounds(run, exact)
  {
    if n == 0 {
      exact := [START];
      assert Rounded(START) == START;
    } else {
      var before := PrefixSimulated(cfg, run, acts, n - 1);
      assert Step(cfg, run[n - 1], acts[n - 1], run[n - 1 + 1]);
      EarlierWithin53(cfg, run, acts, n);
      RunInv(ExactOf(cfg), before, acts[..n - 1], n - 1);
      var c' := StepSimulated(cfg, before[n - 1], acts[n - 1], run[n]);
      exact := before + [c'];
      RoundsNext(run, before, c');
      ExtendRun(ExactOf(cfg), before, acts[..n - 1], acts[n - 1], c');
      assert acts[..n - 1] + [acts[n - 1]] == acts[..n];
    }
  }

  /** Rows once stored stay, in their places. */
  lemma {:induction false} TransfersStay(cfg: Config, run: seq<Core>, acts: seq<Action>, n: nat)
    requires IsRun(cfg, run, acts) && n <= |acts|
    ensures run[n].tables.transfers <= run[|acts|].tables.transfers
    decreases |acts| - n
  {
    if n < |acts| {
      TransfersStay(cfg, run, acts, n + 1);
      if acts[n].Work? { TransfersAppend(cfg, run[n].tables, NextOp(run[n].tasks[acts[n].task])); }
    }
  }

  predicate AmountsRepresentable(c: Core) {
    forall r :: r in c.tables.transfers ==> Representable(r.amount)
  }

  /** Within the bound, a run with binary64 columns is, state for state, the rounding of a run with integer columns:
      only stored transfer amounts can differ. Both runs are the same if and only if float64 represents every amount
      stored. The reported int64 balances are the exact sums in any case. */
  lemma Binary64IsExact(cfg: Config, run: seq<Core>, acts: seq<Action>) returns (exact: seq<Core>)
    requires cfg.arithmetic.Binary64? && IsRun(cfg, run, acts) && Within53(run[|acts|])
    ensures IsRun(ExactOf(cfg), exact, acts) && Rounds(run, exact)
    ensures run == exact <==> AmountsRepresentable(exact[|acts|])
    ensures forall k :: ProperKey(k) ==>
              ToInt64(Balance(run[|acts|].tables.accounts, k)) == SumBy(run[|acts|].tasks, TaskDelta(k))
  {
    exact := PrefixSimulated(cfg, run, acts, |acts|);
    assert acts[..|acts|] == acts;
    SameIff(cfg, run, exact, acts);
    RunInv(ExactOf(cfg), exact, acts, |acts|);
    forall k | ProperKey(k)
      ensures ToInt64(Balance(run[|acts|].tables.accounts, k)) == SumBy(run[|acts|].tasks, TaskDelta(k))
    {
      BalanceBounded(exact[|acts|], k);
    }
  }

  lemma SameIff(cfg: Config, run: seq<Core>, exact: seq<Core>, acts: seq<Action>)
    requires IsRun(ExactOf(cfg), exact, acts) && |run| == |exact| && Rounds(run, exact)
    ensures run == exact <==> AmountsRepresentable(exact[|acts|])
  {
    StoredSame(exact[|acts|].tables.transfers);
    if AmountsRepresentable(exact[|acts|]) {
      forall i | 0 <= i <= |acts| ensures run[i] == exact[i] {
        TransfersStay(ExactOf(cfg), exact, acts, i);
        StoredSame(exact[i].tables.transfers);
      }
    }
  }

  // ---------------------------------------------------------------- exactly when rounding makes no difference

  /** The step leaves a representable balance where it changes one, and stores representable amounts. */
  predicate StepRepresentable(cfg: Config, c: Core, a: Action, c': Core) {
    && StoresRepresentable(cfg, c, a)
    && (a.Work? && a.task < |c.tasks| && Running(c.tasks[a.task]) && NextOp(c.tasks[a.task]).Increment? ==>
          var k := AccountKey(NextOp(c.tasks[a.task]).address, NextOp(c.tasks[a.task]).token);
          k in c.tables.accounts && k in c'.tables.accounts ==> Representable(c'.tables.accounts[k]))
  }

  /** The amounts that the step applies are representable. */
  predicate AppliesRepresentable(c: Core, a: Action) {
    a.Work? && a.task < |c.tasks| && Running(c.tasks[a.task]) && NextOp(c.tasks[a.task]).Increment? ==>
      Representable(Amount(NextOp(c.tasks[a.task])))
  }

  lemma StepBothIff(cfg: Config, c: Core, a: Action, c': Core)
    requires cfg.arithmetic.Binary64? && Step(ExactOf(cfg), c, a, c') && AppliesRepresentable(c, a)
    ensures Step(cfg, c, a, c') <==> StepRepresentable(ExactOf(cfg), c, a, c')
  {
    if a.Work? {
      var op := NextOp(c.tasks[a.task]);
      if op.Increment? {
        var k := AccountKey(op.address, op.token);
        RoundsToItself(Amount(op));
        if k in c.tables.accounts { RoundsToItself(c.tables.accounts[k] + Amount(op)); }
      } else {
        ApplyAlike(cfg, c.tables, op);
        TransfersAppend(ExactOf(cfg), c.tables, op);
        AppendsSame(c.tables.transfers, OpStored(Binary64, op), OpRows(op));
        StoredSame(OpRows(op));
      }
    }
  }

  predicate BalancesRepresentable(c: Core) {
    forall k :: k in c.tables.accounts ==> Representable(c.tables.accounts[k])
  }

  lemma BalancesNext(cfg: Config, c: Core, a: Action, c': Core)
    requires cfg.arithmetic.Exact? && TasksOk(c) && Step(cfg, c, a, c') && StepRepresentable(cfg, c, a, c')
    requires BalancesRepresentable(c)
    ensures BalancesRepresentable(c')
  {
    StepShape(cfg, c, a, c');
    if a.Work? && !Quiet(c, a.task, c') {
      var t := c.tasks[a.task];
      ProgramShape(t.msg);
      assert Program(t.msg)[t.pc] in Program(t.msg);
      EffectOnAccounts(cfg, c.tables, Program(t.msg)[t.pc], c'.tables);
    }
  }

  /** All balances and amounts are representable after a step if they were before and the step is of that kind, ... */
  lemma RepresentableNext(cfg: Config, c: Core, a: Action, c': Core)
    requires cfg.arithmetic.Exact? && Structured(cfg, c) && Step(cfg, c, a, c') && StepRepresentable(cfg, c, a, c')
    requires BalancesRepresentable(c) && AmountsRepresentable(c)
    ensures BalancesRepresentable(c') && AmountsRepresentable(c')
  {
    BalancesNext(cfg, c, a, c');
    if a.Work? { TransfersAppend(cfg, c.tables, NextOp(c.tasks[a.task])); }
  }

  /** ... and only then. */
  lemma RepresentableBefore(cfg: Config, c: Core, a: Action, c': Core)
    requires cfg.arithmetic.Exact? && Step(cfg, c, a, c') && BalancesRepresentable(c') && AmountsRepresentable(c')
    ensures StepRepresentable(cfg, c, a, c')
  {
    if a.Work? { TransfersAppend(cfg, c.tables, NextOp(c.tasks[a.task])); }
  }

  lemma {:induction false} RunRepresentable(cfg: Config, run: seq<Core>, acts: seq<Action>, n: nat)
    requires cfg.arithmetic.Exact? && IsRun(cfg, run, acts) && n <= |acts|
    requires forall i :: 0 <= i < n ==> StepRepresentable(cfg, run[i], acts[i], run[i + 1])
    ensures BalancesRepresentable(run[n]) && AmountsRepresentable(run[n])
  {
    if n > 0 {
      var c, a, c' := run[n - 1], acts[n - 1], run[n - 1 + 1];
      RunRepresentable(cfg, run, acts, n - 1);
      assert Structured(cfg, c) by { RunStructured(cfg, run, acts, n - 1); }
      assert Step(cfg, c, a, c') && StepRepresentable(cfg, c, a, c');
      RepresentableNext(cfg, c, a, c');
    }
  }

  /** Every amount the completed calls applied to a balance is representable. */
  predicate AppliedRepresentable(c: Core) {
    forall i, op :: 0 <= i < |c.tasks| && op in Done(c.tasks[i]) && op.Increment? ==> Representable(Amount(op))
  }

  lemma AppliedBefore(cfg: Config, c: Core, a: Action, c': Core)
    requires TasksOk(c) && Step(cfg, c, a, c') && AppliedRepresentable(c')
    ensures AppliedRepresentable(c) && AppliesRepresentable(c, a)
  {
    forall i, op | 0 <= i < |c.tasks| && op in Done(c.tasks[i]) && op.Increment? ensures Representable(Amount(op)) {
      StepShape(cfg, c, a, c');
      DoneStep(cfg, c, a, c', i, op);
    }
    if a.Work? && NextOp(c.tasks[a.task]).Increment? {
      assert c'.tasks[a.task] == Task(c.tasks[a.task].msg, c.tasks[a.task].pc + 1, false, false);
      DoneGrows(c.tasks[a.task]);
      assert NextOp(c.tasks[a.task]) in Done(c'.tasks[a.task]);
    }
  }

  lemma {:induction false} RunApplies(cfg: Config, run: seq<Core>, acts: seq<Action>, n: nat)
    requires IsRun(cfg, run, acts) && n <= |acts| && AppliedRepresentable(run[|acts|])
    ensures AppliedRepresentable(run[n]) && (n < |acts| ==> AppliesRepresentable(run[n], acts[n]))
    decreases |acts| - n
  {
    if n < |acts| {
      RunApplies(cfg, run, acts, n + 1);
      RunStructured(cfg, run, acts, n);
      AppliedBefore(cfg, run[n], acts[n], run[n + 1]);
    }
  }

  /** Exactly when rounding makes no difference, with no bound: a run with integer columns whose applied amounts are all
      representable is a run with binary64 columns if and only if every balance at every step and every stored amount is
      representable. */
  lemma ExactIffRepresentable(cfg: Config, run: seq<Core>, acts: seq<Action>)
    requires cfg.arithmetic.Binary64? && IsRun(ExactOf(cfg), run, acts) && AppliedRepresentable(run[|acts|])
    ensures IsRun(cfg, run, acts) <==>
            (forall n :: 0 <= n <= |acts| ==> BalancesRepresentable(run[n])) && AmountsRepresentable(run[|acts|])
  {
    var e := ExactOf(cfg);
    forall n | 0 <= n < |acts|
      ensures Step(cfg, run[n], acts[n], run[n + 1]) <==> StepRepresentable(e, run[n], acts[n], run[n + 1])
    {
      RunApplies(e, run, acts, n);
      StepBothIff(cfg, run[n], acts[n], run[n + 1]);
    }
    if IsRun(cfg, run, acts) {
      forall n | 0 <= n <= |acts| ensures BalancesRepresentable(run[n]) && AmountsRepresentable(run[n]) {
        RunRepresentable(e, run, acts, n);
      }
    }
    if (forall n :: 0 <= n <= |acts| ==> BalancesRepresentable(run[n])) && AmountsRepresentable(run[|acts|]) {
      forall n | 0 <= n < |acts| ensures StepRepresentable(e, run[n], acts[n], run[n + 1]) {
        TransfersStay(e, run, acts, n + 1);
        RepresentableBefore(e, run[n], acts[n], run[n + 1]);
      }
    }
  }
}
