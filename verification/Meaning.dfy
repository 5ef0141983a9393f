/** What a message says, read off its text: which letters make a transfer event, a mint, a burn, a transfer; which
    calls an event makes and which row it stores, field by field. */
module Meaning {
  import opened Float64
  import opened Model
  import opened Programs
  import opened Sums
  import opened Tables

  // ---------------------------------------------------------------- letters

  /** Each lower-case letter, and what counts as it: itself, its upper case, and two letters outside ASCII. */
  predicate CountsAs(c: char, letter: char) {
    || c == letter
    || ('a' <= letter <= 'z' && c as int + 32 == letter as int)
    || (letter == 'i' && c == '\U{0130}')
    || (letter == 'k' && c == '\U{212A}')
  }

  /** The text is the word, letter by letter, up to case. */
  predicate Reads(s: string, word: string) {
    |s| == |word| && forall i :: 0 <= i < |s| ==> CountsAs(s[i], word[i])
  }

  predicate LowerWord(word: string) { forall i :: 0 <= i < |word| ==> 'a' <= word[i] <= 'z' }

  lemma LowerCharIs(c: char, letter: char)
    requires 'a' <= letter <= 'z'
    ensures LowerChar(c) == letter <==> CountsAs(c, letter)
  {
  }

  lemma LowerReads(s: string, word: string)
    requires LowerWord(word)
    ensures ToLower(s) == word <==> Reads(s, word)
  {
    if |s| == |word| {
      forall i | 0 <= i < |s| ensures ToLower(s)[i] == word[i] <==> CountsAs(s[i], word[i]) {
        LowerCharIs(s[i], word[i]);
      }
      if Reads(s, word) { assert ToLower(s) == word; }
    }
  }

  /** The lower case of an ASCII text: the letters A to Z move by 32, all else stays. */
  lemma LowerOfAscii(s: string)
    requires forall i :: 0 <= i < |s| ==> s[i] as int < 128
    ensures |ToLower(s)| == |s|
    ensures forall i :: 0 <= i < |s| ==>
              ToLower(s)[i] as int == s[i] as int + if 65 <= s[i] as int <= 90 then 32 else 0
  {
  }

  /** Which events are transfer events, and which functions are handled: exactly those whose text reads so. */
  lemma KindsAndFuncs(e: Event)
    ensures IsTransfer(e) <==> Reads(e.kind, "transfer")
    ensures FuncOf(e.func).Mint? <==> Reads(e.func, "mint")
    ensures FuncOf(e.func).Burn? <==> Reads(e.func, "burn")
    ensures FuncOf(e.func).Move? <==> Reads(e.func, "transfer")
  {
    LowerReads(e.kind, "transfer");
    LowerReads(e.func, "mint");
    LowerReads(e.func, "burn");
    LowerReads(e.func, "transfer");
    WordsDiffer(e.func);
  }

  /** The three words exclude each other. */
  lemma WordsDiffer(s: string)
    ensures !(Reads(s, "mint") && Reads(s, "burn"))
    ensures !(Reads(s, "transfer") && (Reads(s, "mint") || Reads(s, "burn")))
  {
    assert |s| == 4 ==> !(CountsAs(s[0], 'm') && CountsAs(s[0], 'b'));
  }

  // ---------------------------------------------------------------- fields

  /** The last value given for a key, or nothing. */
  function Field(e: Event, key: string): string { TextOr(LastValue(e.attrs, key), "") }

  /** Some value of the event is not an int64. */
  predicate BadValue(e: Event) {
    exists i :: 0 <= i < |e.attrs| && e.attrs[i].key == "value" && ParseInt64(e.attrs[i].value).None?
  }

  /** The value is v: the last one given, and 0 if none is. */
  predicate HasValue(e: Event, v: int) {
    match LastValue(e.attrs, "value")
    case None => v == 0
    case Some(s) => ParseInt64(s) == Some(v)
  }

  /** A transfer event's values are int64s; those of other events are not looked at. */
  predicate Readable(e: Event) { Reads(e.kind, "transfer") ==> !BadValue(e) }

  /** The fields of an event, from its text alone. */
  lemma FieldsOf(e: Event)
    ensures ReadAttrs(e.attrs, NO_FIELDS).None? <==> BadValue(e)
    ensures ReadAttrs(e.attrs, NO_FIELDS).Some? ==>
              var f := ReadAttrs(e.attrs, NO_FIELDS).value;
              f.from == Field(e, "from") && f.to == Field(e, "to") && HasValue(e, f.value)
  {
    ReadAttrsMeaning(e.attrs, NO_FIELDS);
  }

  // ---------------------------------------------------------------- calls and rows

  /** What an event makes the ledger do: nothing if it is not a transfer event; a failure if a value is no int64; else
      a lookup and an increment for a mint with a receiver and for a burn with a sender, two lookups and two increments
      for a transfer, and no call for any other function. */
  lemma CallsOfEvent(e: Event, v: int)
    ensures !Reads(e.kind, "transfer") ==> EventOps(e) == []
    ensures Reads(e.kind, "transfer") && BadValue(e) ==> EventOps(e) == [RejectValue]
    ensures Reads(e.kind, "transfer") && !BadValue(e) && HasValue(e, v) ==>
              var from, to, token := Field(e, "from"), Field(e, "to"), e.pkgPath;
              EventOps(e) ==
              if Reads(e.func, "mint") then
                if to == "" then [] else [GetAccount(to, token), Increment(to, token, v, Minting)]
              else if Reads(e.func, "burn") then
                if from == "" then [] else [GetAccount(from, token), Increment(from, token, v, Burning)]
              else if Reads(e.func, "transfer") then
                [GetAccount(from, token), GetAccount(to, token),
                 Increment(from, token, v, Debit), Increment(to, token, v, Credit)]
              else []
  {
    KindsAndFuncs(e);
    FieldsOf(e);
  }

  /** Where the calls of an event stand: the transactions of the block first, then transaction by transaction the calls
      of its events in their order and one insert of its transfers; nothing in between, nothing left out. */
  lemma CallsInOrder(m: BlockWithTransactions, i: nat, j: nat)
    requires i < |m.transactions| && j < |m.transactions[i].events|
    ensures var txs, tx := m.transactions, m.transactions[i];
            Program(m) ==
            [AddTransactions(m.block.height, txs)] + TxsOps(txs[..i])
            + (EventsOps(tx.events[..j]) + EventOps(tx.events[j]) + EventsOps(tx.events[j + 1..]))
            + [AddTransfers(tx.hash, EventsTransfers(tx.events))] + TxsOps(txs[i + 1..])
    ensures TxsOps([]) == [] && EventsOps([]) == []
  {
    ProgramAround(m, i);
    CallsAround(m.transactions[i].events, j);
  }

  lemma CallsAround(es: seq<Event>, j: nat)
    requires j < |es|
    ensures EventsOps(es) == EventsOps(es[..j]) + EventOps(es[j]) + EventsOps(es[j + 1..])
  {
    EventsOpsSplit(es, j);
    assert es[j..][0] == es[j] && es[j..][1..] == es[j + 1..];
    Regroup(EventsOps(es[..j]), EventOps(es[j]), EventsOps(es[j + 1..]));
  }

  /** Increments add the value for a mint and a credit, and subtract it for a burn and a debit, in 64 bits. */
  lemma SignOfIncrement(address: string, token: string, v: int)
    ensures Amount(Increment(address, token, v, Minting)) == v == Amount(Increment(address, token, v, Credit))
    ensures Amount(Increment(address, token, v, Burning)) == Amount(Increment(address, token, v, Debit))
    ensures -0x8000_0000_0000_0000 < v ==> Amount(Increment(address, token, v, Burning)) == -v
    ensures v == -0x8000_0000_0000_0000 ==> Amount(Increment(address, token, v, Burning)) == v
  {
  }

  /** A row as the table holds it, field by field. */
  ghost predicate RowSays(arithmetic: Arithmetic, r: TransferRow, hash: string, e: Event) {
    && r.hash == hash && r.func == ToLower(e.func) && r.token == e.pkgPath && r.denom == "ugnot"
    && r.from == (if Field(e, "from") == "" then None else Some(Field(e, "from")))
    && r.to == (if Field(e, "to") == "" then None else Some(Field(e, "to")))
    && exists v :: HasValue(e, v) && r.amount == if arithmetic.Binary64? then Round(v) else v
  }

  /** A transfer event stores one row, whatever its function; any other event stores none. */
  lemma RowOfEvent(arithmetic: Arithmetic, hash: string, e: Event)
    requires Readable(e)
    ensures var rows := StoredRows(arithmetic, RowsOf(hash, EventTransfers(e)));
            if Reads(e.kind, "transfer") then |rows| == 1 && RowSays(arithmetic, rows[0], hash, e) else rows == []
  {
    KindsAndFuncs(e);
    FieldsOf(e);
    if Reads(e.kind, "transfer") {
      var f := ReadAttrs(e.attrs, NO_FIELDS).value;
      assert RowsOf(hash, EventTransfers(e)) == [RowOf(hash, TransferOf(e, f))];
    }
  }

  /** The positions of the transfer events, in order. */
  ghost predicate TransferPositions(es: seq<Event>, positions: seq<nat>) {
    && (forall i, j :: 0 <= i < j < |positions| ==> positions[i] < positions[j])
    && (forall i :: 0 <= i < |positions| ==> positions[i] < |es|)
    && (forall p: nat :: p < |es| ==> (p in positions <==> Reads(es[p].kind, "transfer")))
  }

  /** Row i says what the event at position i says. */
  ghost predicate RowsSay(arithmetic: Arithmetic, rows: seq<TransferRow>, hash: string, es: seq<Event>,
                          positions: seq<nat>)
  {
    && |rows| == |positions|
    && forall i :: 0 <= i < |rows| ==> positions[i] < |es| && RowSays(arithmetic, rows[i], hash, es[positions[i]])
  }

  lemma RowsSayMore(arithmetic: Arithmetic, rows: seq<TransferRow>, hash: string, es: seq<Event>,
                    positions: seq<nat>, e: Event)
    requires RowsSay(arithmetic, rows, hash, es, positions)
    ensures RowsSay(arithmetic, rows, hash, es + [e], positions)
  {
    forall i | 0 <= i < |rows| ensures (es + [e])[positions[i]] == es[positions[i]] {}
  }

  lemma RowsSayNext(arithmetic: Arithmetic, rows: seq<TransferRow>, hash: string, es: seq<Event>,
                    positions: seq<nat>, row: TransferRow, e: Event)
    requires RowsSay(arithmetic, rows, hash, es, positions) && RowSays(arithmetic, row, hash, e)
    ensures RowsSay(arithmetic, rows + [row], hash, es + [e], positions + [|es|])
  {
    RowsSayMore(arithmetic, rows, hash, es, positions, e);
    var rows', positions' := rows + [row], positions + [|es|];
    forall i | 0 <= i < |rows'|
      ensures positions'[i] < |es| + 1 && RowSays(arithmetic, rows'[i], hash, (es + [e])[positions'[i]])
    {
      if i < |rows| { assert rows'[i] == rows[i] && positions'[i] == positions[i]; }
    }
  }

  /** The rows stored for a transaction with these events. */
  function RowsFor(arithmetic: Arithmetic, hash: string, es: seq<Event>): seq<TransferRow> {
    StoredRows(arithmetic, RowsOf(hash, EventsTransfers(es)))
  }

  /** The rows of a transaction: one for each of its transfer events, in their order. */
  lemma {:induction false} RowsOfEvents(arithmetic: Arithmetic, hash: string, es: seq<Event>)
    returns (positions: seq<nat>)
    requires forall e :: e in es ==> Readable(e)
    ensures TransferPositions(es, positions)
    ensures RowsSay(arithmetic, RowsFor(arithmetic, hash, es), hash, es, positions)
  {
    positions := [];
    if es != [] {
      var n := |es| - 1;
      var front, e := es[..n], es[n];
      var before := RowsOfEvents(arithmetic, hash, front);
      assert es == front + [e] && e in es;
      positions := if Reads(e.kind, "transfer") then before + [n] else before;
      PositionsNext(es, before, positions);
      RowsSayAfter(arithmetic, hash, front, before, e);
    }
  }

  /** What one more event adds to the rows. */
  lemma RowsForSnoc(arithmetic: Arithmetic, hash: string, es: seq<Event>, e: Event)
    ensures RowsFor(arithmetic, hash, es + [e]) ==
            RowsFor(arithmetic, hash, es) + StoredRows(arithmetic, RowsOf(hash, EventTransfers(e)))
  {
    TransfersSnoc(es, e);
    RowsOfAppend(hash, EventsTransfers(es), EventTransfers(e));
    StoredAppend(arithmetic, RowsOf(hash, EventsTransfers(es)), RowsOf(hash, EventTransfers(e)));
  }

  lemma RowsSayAfter(arithmetic: Arithmetic, hash: string, es: seq<Event>, positions: seq<nat>, e: Event)
    requires Readable(e) && RowsSay(arithmetic, RowsFor(arithmetic, hash, es), hash, es, positions)
    ensures RowsSay(arithmetic, RowsFor(arithmetic, hash, es + [e]), hash, es + [e],
                    if Reads(e.kind, "transfer") then positions + [|es|] else positions)
  {
    var rows, more := RowsFor(arithmetic, hash, es), StoredRows(arithmetic, RowsOf(hash, EventTransfers(e)));
    RowsForSnoc(arithmetic, hash, es, e);
    RowOfEvent(arithmetic, hash, e);
    if Reads(e.kind, "transfer") {
      assert more == [more[0]];
      RowsSayNext(arithmetic, rows, hash, es, positions, more[0], e);
    } else {
      assert rows + more == rows;
      RowsSayMore(arithmetic, rows, hash, es, positions, e);
    }
  }

  lemma StoredAppend(arithmetic: Arithmetic, a: seq<TransferRow>, b: seq<TransferRow>)
    ensures StoredRows(arithmetic, a + b) == StoredRows(arithmetic, a) + StoredRows(arithmetic, b)
    ensures |StoredRows(arithmetic, a)| == |a|
  {
  }

  lemma {:induction false} PositionsNext(es: seq<Event>, before: seq<nat>, positions: seq<nat>)
    requires es != [] && TransferPositions(es[..|es| - 1], before)
    requires positions == if Reads(es[|es| - 1].kind, "transfer") then before + [|es| - 1] else before
    ensures TransferPositions(es, positions)
  {
    var n := |es| - 1;
    assert forall p :: 0 <= p < n ==> es[..n][p] == es[p];
    assert forall p: nat :: p in positions ==> p in before || (p == n && Reads(es[n].kind, "transfer"));
  }

  // ---------------------------------------------------------------- what an event means for a balance

  /** The plain ledger rule, from the text: a mint credits its receiver, a burn debits its sender, a transfer does both,
      and no other event does anything. */
  lemma EffectOfEvent(e: Event, k: AccountKey, v: int)
    ensures !Reads(e.kind, "transfer") || BadValue(e) || e.pkgPath != k.token ==> EventEffect(k)(e) == 0
    ensures Reads(e.kind, "transfer") && !BadValue(e) && e.pkgPath == k.token && HasValue(e, v) ==>
              var isFrom, isTo := Field(e, "from") == k.address, Field(e, "to") == k.address;
              EventEffect(k)(e) ==
              if Reads(e.func, "mint") then if isTo then v else 0
              else if Reads(e.func, "burn") then if isFrom then -v else 0
              else if Reads(e.func, "transfer") then
                if isFrom && isTo then 0 else if isTo then v else if isFrom then -v else 0
              else 0
  {
    KindsAndFuncs(e);
    FieldsOf(e);
  }
}
