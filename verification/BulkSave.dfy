/** Bulk creation of transfers: a chain of mutators, each checking its builder before calling the next, the last of
    which makes the one batch insert. */
module BulkSave {
  import opened Model
  import opened Tables

  /** The fields set on a builder so far. What is set is also what the insert stores. */
  datatype Mutation = Mutation(hash: Option<string>, func: Option<string>, from: Option<string>, to: Option<string>,
                               token: Option<string>, amount: Option<int>, denom: Option<string>,
                               createdAt: Option<int>)

  predicate Unset(o: Option<string>) { o.None? || o.value == "" }

  predicate Filled(o: Option<string>) { o.Some? && |o.value| > 0 }

  /** The first required field that is missing or does not pass its validator, in the generated order. */
  function FirstProblem(m: Mutation): Option<string> {
    if Unset(m.hash) then Some("hash")
    else if Unset(m.func) then Some("func")
    else if Unset(m.token) then Some("token")
    else if m.amount.None? || m.amount.value <= 0 then Some("amount")
    else if Unset(m.denom) then Some("denom")
    else if m.createdAt.None? then Some("created_at")
    else None
  }

  /** The only default is the time of creation; what is set stays. */
  function WithDefaults(m: Mutation, now: int): (r: Mutation)
    ensures r.hash == m.hash && r.func == m.func && r.from == m.from && r.to == m.to && r.token == m.token
    ensures r.amount == m.amount && r.denom == m.denom
    ensures r.createdAt == if m.createdAt.Some? then m.createdAt else Some(now)
  {
    if m.createdAt.None? then m.(createdAt := Some(now)) else m
  }

  /** Why a bulk save fails: the first builder whose check fails, with the field, or the insert itself. */
  datatype SaveError = InvalidField(builder: nat, field: string) | Constraint

  class TransferCreate {
    var mutation: Mutation
    var done: bool
    var id: int

    constructor (mutation: Mutation)
      ensures this.mutation == mutation && !done
    {
      this.mutation := mutation;
      done, id := false, 0;
    }

    method Defaults(now: int)
      modifies this`mutation
      ensures var was := old(mutation);
              mutation == was.(createdAt := if was.createdAt.Some? then was.createdAt else Some(now))
    {
      if mutation.createdAt.None? {
        mutation := mutation.(createdAt := Some(now));
      }
    }

    /** Field by field: is it there, and does it pass its validator. */
    method Check() returns (err: Option<string>)
      ensures err == FirstProblem(mutation)
      ensures err ==
              if !Filled(mutation.hash) then Some("hash")
              else if !Filled(mutation.func) then Some("func")
              else if !Filled(mutation.token) then Some("token")
              else if mutation.amount.None? || mutation.amount.value < 1 then Some("amount")
              else if !Filled(mutation.denom) then Some("denom")
              else if mutation.createdAt.None? then Some("created_at") else None
    {
      if mutation.hash.None? { return Some("hash"); }
      if mutation.hash.value == "" { return Some("hash"); }
      if mutation.func.None? { return Some("func"); }
      if mutation.func.value == "" { return Some("func"); }
      if mutation.token.None? { return Some("token"); }
      if mutation.token.value == "" { return Some("token"); }
      if mutation.amount.None? { return Some("amount"); }
      if mutation.amount.value <= 0 { return Some("amount"); }
      if mutation.denom.None? { return Some("denom"); }
      if mutation.denom.value == "" { return Some("denom"); }
      if mutation.createdAt.None? { return Some("created_at"); }
      return None;
    }
  }

  /** The database driver: one statement per batch, all rows or none; ids are what the database assigns. */
  class Driver {
    var batches: seq<seq<Mutation>>
    var stored: seq<Mutation>

    constructor ()
      ensures batches == [] && stored == []
    {
      batches, stored := [], [];
    }

    method BatchCreate(specs: seq<Mutation>, accepts: bool) returns (ok: bool)
      modifies this
      ensures ok == accepts && batches == old(batches) + [specs]
      ensures stored == if accepts then old(stored) + specs else old(stored)
    {
      batches := batches + [specs];
      if accepts { stored := stored + specs; }
      return accepts;
    }
  }

  /** The first builder from position i on that fails its check. */
  function FirstBad(ms: seq<Mutation>, i: nat): Option<SaveError>
    requires i <= |ms|
    decreases |ms| - i
  {
    if i == |ms| then None
    else if FirstProblem(ms[i]).Some? then Some(InvalidField(i, FirstProblem(ms[i]).value))
    else FirstBad(ms, i + 1)
  }

  lemma {:induction false} FirstBadMeaning(ms: seq<Mutation>, i: nat)
    requires i <= |ms|
    ensures FirstBad(ms, i).None? <==> forall j :: i <= j < |ms| ==> FirstProblem(ms[j]).None?
    ensures FirstBad(ms, i).Some? ==>
              var e := FirstBad(ms, i).value;
              && e.InvalidField? && i <= e.builder < |ms| && FirstProblem(ms[e.builder]) == Some(e.field)
              && forall j :: i <= j < e.builder ==> FirstProblem(ms[j]).None?
    decreases |ms| - i
  {
    if i < |ms| && FirstProblem(ms[i]).None? {
      FirstBadMeaning(ms, i + 1);
    }
  }

  /** The outcome of a bulk save of these mutations. */
  function SaveResult(ms: seq<Mutation>, accepts: bool): Option<SaveError> {
    if FirstBad(ms, 0).Some? then FirstBad(ms, 0)
    else if ms != [] && !accepts then Some(Constraint) else None
  }

  function Mutations(builders: seq<TransferCreate>): seq<Mutation>
    reads builders
  {
    seq(|builders|, i requires 0 <= i < |builders| reads builders => builders[i].mutation)
  }

  function AllDefaulted(ms: seq<Mutation>, now: int): seq<Mutation> {
    seq(|ms|, i requires 0 <= i < |ms| => WithDefaults(ms[i], now))
  }

  class TransferCreateBulk {
    const builders: seq<TransferCreate>
    const driver: Driver

    constructor (builders: seq<TransferCreate>, driver: Driver)
      ensures this.builders == builders && this.driver == driver
    {
      this.builders := builders;
      this.driver := driver;
    }

    /** The builder at j is not listed before, from position i on. */
    predicate FirstListed(i: nat, j: nat)
      requires j < |builders|
    {
      forall k :: i <= k < j ==> builders[k] != builders[j]
    }

    /** Mutator i: check, spec, the rest of the chain (or the insert), and only then the builder's own completion. A
        builder that is listed twice ends with the id of its first place. ms are the mutations of all builders. */
    method Mutate(i: nat, specs: array<Mutation>, ids: seq<int>, accepts: bool, ghost ms: seq<Mutation>)
      returns (err: Option<SaveError>)
      requires i < |builders| == |ms| == specs.Length == |ids|
      requires forall j :: i <= j < |builders| ==> builders[j].mutation == ms[j]
      requires specs[..i] == ms[..i]
      modifies specs, driver
      modifies (set j | i <= j < |builders| :: builders[j])`done
      modifies (set j | i <= j < |builders| :: builders[j])`id
      ensures err == if FirstBad(ms, i).Some? then FirstBad(ms, i) else if accepts then None else Some(Constraint)
      ensures driver.batches == old(driver.batches) + if FirstBad(ms, i).None? then [ms] else []
      ensures driver.stored == old(driver.stored) + if err.None? then ms else []
      ensures forall j :: i <= j < |builders| ==> builders[j].done == (err.None? || old(builders[j].done))
      ensures err.None? ==> forall j :: i <= j < |builders| && FirstListed(i, j) ==> builders[j].id == ids[j]
      ensures err.Some? ==> forall j :: i <= j < |builders| ==> builders[j].id == old(builders[j].id)
      decreases |builders| - i
    {
      var invalid := builders[i].Check();
      if invalid.Some? {
        return Some(InvalidField(i, invalid.value));
      }
      specs[i] := builders[i].mutation;
      assert specs[..i + 1] == ms[..i + 1];
      if i < |builders| - 1 {
        err := Mutate(i + 1, specs, ids, accepts, ms);
      } else {
        assert specs[..] == ms;
        var ok := driver.BatchCreate(specs[..], accepts);
        err := if ok then None else Some(Constraint);
      }
      if err.Some? {
        return;
      }
      assert forall j :: i < j < |builders| && FirstListed(i, j) ==> FirstListed(i + 1, j);
      assert forall j :: i < j < |builders| && FirstListed(i, j) ==> builders[j] != builders[i];
      builders[i].id := ids[i];
      builders[i].done := true;
    }

    /** All or nothing: after the defaults are set, the insert is made at most once, with every mutation in builder
        order, exactly when every builder passes its check; and either every builder becomes done, with its id, or
        none. */
    method Save(ids: seq<int>, now: int, accepts: bool) returns (err: Option<SaveError>)
      requires |ids| == |builders|
      modifies driver, set b | b in builders
      ensures Mutations(builders) == AllDefaulted(old(Mutations(builders)), now)
      ensures forall j :: 0 <= j < |builders| ==>
                var was := old(builders[j].mutation);
                builders[j].mutation == was.(createdAt := if was.createdAt.Some? then was.createdAt else Some(now))
      ensures err == SaveResult(Mutations(builders), accepts)
      ensures driver.batches ==
              old(driver.batches) +
              if builders != [] && FirstBad(Mutations(builders), 0).None? then [Mutations(builders)] else []
      ensures driver.stored == old(driver.stored) + if err.None? then Mutations(builders) else []
      ensures forall j :: 0 <= j < |builders| ==> builders[j].done == (err.None? || old(builders[j].done))
      ensures err.None? ==> forall j :: 0 <= j < |builders| && FirstListed(0, j) ==> builders[j].id == ids[j]
      ensures err.Some? ==> forall j :: 0 <= j < |builders| ==> builders[j].id == old(builders[j].id)
    {
      SetDefaults(now);
      if |builders| == 0 {
        return None;
      }
      var first := builders[0].mutation;
      var specs := new Mutation[|builders|](_ => first);
      ghost var ms := Mutations(builders);
      assert specs[..0] == ms[..0];
      err := Mutate(0, specs, ids, accepts, ms);
      assert Mutations(builders) == ms;
    }

    method SetDefaults(now: int)
      modifies set b | b in builders
      ensures Mutations(builders) == AllDefaulted(old(Mutations(builders)), now)
      ensures forall b :: b in builders ==> b.done == old(b.done) && b.id == old(b.id)
    {
      for i := 0 to |builders|
        invariant forall b :: b in builders ==> b.done == old(b.done) && b.id == old(b.id)
        invariant forall b :: b in builders ==>
                    b.mutation == if b in builders[..i] then WithDefaults(old(b.mutation), now) else old(b.mutation)
      {
        builders[i].Defaults(now);
        assert builders[..i + 1] == builders[..i] + [builders[i]];
      }
      assert builders[..|builders|] == builders;
    }
  }

  /** The mutation of a builder on which the repository has set all fields of a row. */
  function MutationOf(r: TransferRow, now: int): Mutation {
    Mutation(Some(r.hash), Some(r.func), r.from, r.to, Some(r.token), Some(r.amount), Some(r.denom), Some(now))
  }

  function MutationsOf(rows: seq<TransferRow>, now: int): seq<Mutation> {
    seq(|rows|, i requires 0 <= i < |rows| => MutationOf(rows[i], now))
  }

  /** The repository's AddTransfers is this bulk save, with the foreign keys deciding the insert. */
  lemma AddTransfersIsBulkSave(cfg: Config, t: Tables, hash: string, ts: seq<Transfer>, now: int)
    ensures var rows := StoredRows(cfg.arithmetic, RowsOf(hash, ts));
            Apply(cfg, t, AddTransfers(hash, ts)) ==
            if SaveResult(MutationsOf(rows, now), RowsRefer(t.accounts, rows)).None?
            then Ok(t.(transfers := t.transfers + rows)) else Failed
  {
    var rows := StoredRows(cfg.arithmetic, RowsOf(hash, ts));
    var ms := MutationsOf(rows, now);
    FirstBadMeaning(ms, 0);
    assert forall j :: 0 <= j < |rows| ==> FirstProblem(ms[j]) == FirstInvalid(rows[j]);
    assert RowsValid(rows) <==> forall j :: 0 <= j < |rows| ==> FirstInvalid(rows[j]).None?;
  }
}
