/** Blocks, transactions and GnoEvents as they arrive in a message, and the repository calls their processing makes. */
module Model {
  import opened Float64

  datatype Option<+T> = None | Some(value: T)

  datatype Attr = Attr(key: string, value: string)

  datatype Event = Event(kind: string, func: string, pkgPath: string, attrs: seq<Attr>)

  datatype Transaction = Transaction(index: int, hash: string, blockHeight: int, events: seq<Event>)

  datatype Block = Block(hash: string, height: int)

  datatype BlockWithTransactions = BlockWithTransactions(block: Block, transactions: seq<Transaction>)

  /** A parsed transfer event, before it becomes a table row; amount is the parsed int64. */
  datatype Transfer = Transfer(func: string, from: string, to: string, token: string, amount: int, denom: string)

  const UNIT_NAME: string := "ugnot"

  // ---------------------------------------------------------------- text

  /** Simple lower-casing of the ASCII letters and of the two other code points whose lower case is ASCII. */
  function LowerChar(c: char): char {
    if 'A' <= c <= 'Z' then c - 'A' + 'a'
    else if c == '\U{0130}' then 'i'
    else if c == '\U{212A}' then 'k'
    else c
  }

  function ToLower(s: string): string {
    seq(|s|, i requires 0 <= i < |s| => LowerChar(s[i]))
  }

  predicate IsDigit(c: char) { '0' <= c <= '9' }

  predicate AllDigits(s: string) { forall i :: 0 <= i < |s| ==> IsDigit(s[i]) }

  function DigitsValue(s: string): nat
    requires AllDigits(s)
  {
    if s == "" then 0 else 10 * DigitsValue(s[..|s| - 1]) + (s[|s| - 1] - '0') as nat
  }

  /** The digits of a numeral, without its sign. */
  function Unsigned(s: string): string { if s != "" && (s[0] == '+' || s[0] == '-') then s[1..] else s }

  /** Base-10 parse with an optional sign; fails on no digits, a stray character, or a value outside int64. */
  function ParseInt64(s: string): (r: Option<int>)
    ensures r.Some? ==> MIN_INT64 <= r.value <= MAX_INT64
  {
    var digits := Unsigned(s);
    if digits == "" || !AllDigits(digits) then None
    else
      var v: int := if s[0] == '-' then 0 - DigitsValue(digits) else DigitsValue(digits);
      if MIN_INT64 <= v <= MAX_INT64 then Some(v) else None
  }

  predicate IsNumeral(s: string) { Unsigned(s) != "" && AllDigits(Unsigned(s)) }

  function DigitOf(n: nat): char
    requires n < 10
  {
    '0' + n as char
  }

  /** Decimal notation: no sign for what is not negative, no leading zeros. */
  function Decimal(n: nat): string {
    if n < 10 then [DigitOf(n)] else Decimal(n / 10) + [DigitOf(n % 10)]
  }

  function Print(v: int): string { if v < 0 then "-" + Decimal(-v) else Decimal(v) }

  function StripZeros(s: string): string {
    if |s| > 1 && s[0] == '0' then StripZeros(s[1..]) else s
  }

  /** A numeral without a plus sign, without leading zeros, and without a minus sign before zero. */
  function Canonical(s: string): string {
    var d := StripZeros(Unsigned(s));
    if s != "" && s[0] == '-' && d != "0" then "-" + d else d
  }

  lemma {:induction false} DecimalValue(n: nat)
    ensures Decimal(n) != "" && AllDigits(Decimal(n)) && DigitsValue(Decimal(n)) == n
  {
    if n < 10 {
      assert Decimal(n)[..0] == "";
      assert DigitsValue(Decimal(n)) == 10 * DigitsValue("") + n;
    } else {
      DecimalValue(n / 10);
      assert Decimal(n)[..|Decimal(n)| - 1] == Decimal(n / 10);
    }
  }

  lemma {:induction false} StripZerosSnoc(s: string, c: char)
    requires s != ""
    ensures StripZeros(s + [c]) == if StripZeros(s) == "0" then [c] else StripZeros(s) + [c]
  {
    if s[0] == '0' {
      assert (s + [c])[1..] == s[1..] + [c];
      if |s| == 1 {
        assert s == "0" && s[1..] + [c] == [c];
      } else {
        StripZerosSnoc(s[1..], c);
      }
    }
  }

  lemma DecimalInjective(m: nat, n: nat)
    requires Decimal(m) == Decimal(n)
    ensures m == n
  {
    DecimalValue(m);
    DecimalValue(n);
  }

  lemma DecimalZero(n: nat)
    ensures Decimal(n) == "0" <==> n == 0
  {
    if Decimal(n) == "0" { DecimalInjective(n, 0); }
  }

  lemma DecimalStep(a: nat, b: nat)
    requires b < 10
    ensures Decimal(10 * a + b) == if a == 0 then [DigitOf(b)] else Decimal(a) + [DigitOf(b)]
  {
  }

  /** Printing the value of digits gives them back without leading zeros. */
  lemma {:induction false} PrintDigits(d: string)
    requires d != "" && AllDigits(d)
    ensures Decimal(DigitsValue(d)) == StripZeros(d)
  {
    var n := |d| - 1;
    var front, b := d[..n], (d[n] - '0') as nat;
    assert IsDigit(d[n]) && DigitOf(b) == d[n] && d == front + [d[n]];
    DecimalStep(DigitsValue(front), b);
    if front != "" {
      PrintDigits(front);
      StripZerosSnoc(front, d[n]);
      DecimalZero(DigitsValue(front));
    }
  }

  /** The value of a numeral, of any width. */
  function NumeralValue(s: string): int
    requires IsNumeral(s)
  {
    if s[0] == '-' then 0 - DigitsValue(Unsigned(s)) else DigitsValue(Unsigned(s))
  }

  /** The canonical form of a numeral is its value, printed. */
  lemma CanonicalPrints(s: string)
    requires IsNumeral(s)
    ensures Canonical(s) == Print(NumeralValue(s))
  {
    PrintDigits(Unsigned(s));
    DecimalZero(DigitsValue(Unsigned(s)));
  }

  lemma PrintInjective(v: int, w: int)
    requires Print(v) == Print(w)
    ensures v == w
  {
    var a, b := if v < 0 then -v else v, if w < 0 then -w else w;
    DecimalValue(a);
    DecimalValue(b);
    assert IsDigit(Decimal(a)[0]) && IsDigit(Decimal(b)[0]);
    assert v < 0 ==> Print(v)[1..] == Decimal(a);
    assert w < 0 ==> Print(w)[1..] == Decimal(b);
  }

  /** A string parses to v exactly when it is a numeral that, put into canonical form, is how v is printed. */
  lemma ParseIff(s: string, v: int)
    requires MIN_INT64 <= v <= MAX_INT64
    ensures ParseInt64(s) == Some(v) <==> IsNumeral(s) && Canonical(s) == Print(v)
  {
    if IsNumeral(s) {
      CanonicalPrints(s);
      if Canonical(s) == Print(v) { PrintInjective(NumeralValue(s), v); }
    }
  }

  /** Decimal notation parses to the number it denotes. */
  lemma ParseDecimal(n: nat)
    requires n <= MAX_INT64
    ensures ParseInt64(Decimal(n)) == Some(n as int)
  {
    DecimalValue(n);
    PrintDigits(Decimal(n));
    assert IsDigit(Decimal(n)[0]);
    ParseIff(Decimal(n), n);
  }

  /** int64 negation: the least value is its own negation. */
  function Negate64(v: int): int { if v == MIN_INT64 then MIN_INT64 else -v }

  // ---------------------------------------------------------------- event fields

  datatype Fields = Fields(from: string, to: string, value: int)

  const NO_FIELDS := Fields("", "", 0)

  function ReadAttr(f: Fields, a: Attr): Option<Fields> {
    if a.key == "from" then Some(f.(from := a.value))
    else if a.key == "to" then Some(f.(to := a.value))
    else if a.key == "value" then
      match ParseInt64(a.value) case None => None case Some(v) => Some(f.(value := v))
    else Some(f)
  }

  /** Left-to-right scan of the attributes; the first "value" that does not parse stops it. */
  function ReadAttrs(attrs: seq<Attr>, f: Fields): Option<Fields> {
    if attrs == [] then Some(f)
    else match ReadAttr(f, attrs[0]) case None => None case Some(g) => ReadAttrs(attrs[1..], g)
  }

  /** The value of the last attribute with the given key, if any. */
  function LastValue(attrs: seq<Attr>, key: string): Option<string> {
    if attrs == [] then None
    else if attrs[|attrs| - 1].key == key then Some(attrs[|attrs| - 1].value)
    else LastValue(attrs[..|attrs| - 1], key)
  }

  lemma {:induction false} LastValueCons(attrs: seq<Attr>, key: string)
    requires attrs != []
    ensures LastValue(attrs, key) ==
            if LastValue(attrs[1..], key).Some? then LastValue(attrs[1..], key)
            else if attrs[0].key == key then Some(attrs[0].value) else None
  {
    if |attrs| == 1 {
      assert attrs[1..] == [] && attrs[..0] == [];
    } else {
      LastValueCons(attrs[..|attrs| - 1], key);
      assert attrs[..|attrs| - 1][1..] == attrs[1..][..|attrs| - 2];
      assert attrs[1..][|attrs| - 2] == attrs[|attrs| - 1];
    }
  }

  function TextOr(o: Option<string>, d: string): string { if o.Some? then o.value else d }

  /** Reading fails exactly when some "value" attribute is not an int64; otherwise the last occurrence of each key
      wins. */
  lemma {:induction false} ReadAttrsMeaning(attrs: seq<Attr>, f: Fields)
    ensures ReadAttrs(attrs, f).None? <==>
            exists i :: 0 <= i < |attrs| && attrs[i].key == "value" && ParseInt64(attrs[i].value).None?
    ensures ReadAttrs(attrs, f).Some? ==>
              var g := ReadAttrs(attrs, f).value;
              && g.from == TextOr(LastValue(attrs, "from"), f.from)
              && g.to == TextOr(LastValue(attrs, "to"), f.to)
              && (match LastValue(attrs, "value")
                  case None => g.value == f.value
                  case Some(s) => ParseInt64(s) == Some(g.value))
  {
    if attrs != [] {
      var rest := attrs[1..];
      assert forall i :: 0 <= i < |rest| ==> rest[i] == attrs[i + 1];
      LastValueCons(attrs, "from");
      LastValueCons(attrs, "to");
      LastValueCons(attrs, "value");
      match ReadAttr(f, attrs[0]) {
        case None =>
        case Some(g) =>
          ReadAttrsMeaning(rest, g);
          if ReadAttrs(rest, g).None? {
            var i :| 0 <= i < |rest| && rest[i].key == "value" && ParseInt64(rest[i].value).None?;
            assert attrs[i + 1].key == "value";
          } else {
            LastParses(rest);
          }
      }
    }
  }

  lemma {:induction false} LastParses(attrs: seq<Attr>)
    ensures LastValue(attrs, "value").Some? ==>
              exists i :: 0 <= i < |attrs| && attrs[i].key == "value"
                          && attrs[i].value == LastValue(attrs, "value").value
  {
    if attrs != [] && attrs[|attrs| - 1].key != "value" {
      LastParses(attrs[..|attrs| - 1]);
    }
  }

  lemma {:induction false} ReadAttrsInRange(attrs: seq<Attr>, f: Fields)
    requires MIN_INT64 <= f.value <= MAX_INT64
    ensures ReadAttrs(attrs, f).Some? ==> MIN_INT64 <= ReadAttrs(attrs, f).value.value <= MAX_INT64
  {
    if attrs != [] && ReadAttr(f, attrs[0]).Some? {
      ReadAttrsInRange(attrs[1..], ReadAttr(f, attrs[0]).value);
    }
  }

  // ---------------------------------------------------------------- repository calls made for an event

  datatype TokenFunc = Mint | Burn | Move | Other

  function FuncOf(func: string): TokenFunc {
    var f := ToLower(func);
    if f == "mint" then Mint else if f == "burn" then Burn else if f == "transfer" then Move else Other
  }

  predicate IsTransfer(e: Event) { ToLower(e.kind) == "transfer" }

  /** Why a balance is changed. */
  datatype Role = Minting | Burning | Debit | Credit

  /** One repository call. AddAccount is never part of a program: it follows a GetAccount that found nothing. */
  datatype Op =
    | AddTransactions(height: int, txs: seq<Transaction>)
    | GetAccount(address: string, token: string)
    | AddAccount(address: string, token: string)
    | Increment(address: string, token: string, value: int, role: Role)
    | AddTransfers(hash: string, transfers: seq<Transfer>)
    | RejectValue

  /** The signed amount handed to IncrementAccountBalance. */
  function Amount(op: Op): int
    requires op.Increment?
  {
    if op.role.Burning? || op.role.Debit? then Negate64(op.value) else op.value
  }

  function MintOps(token: string, to: string, value: int): seq<Op> {
    if to == "" then [] else [GetAccount(to, token), Increment(to, token, value, Minting)]
  }

  function BurnOps(token: string, from: string, value: int): seq<Op> {
    if from == "" then [] else [GetAccount(from, token), Increment(from, token, value, Burning)]
  }

  function MoveOps(token: string, from: string, to: string, value: int): seq<Op> {
    [GetAccount(from, token), GetAccount(to, token),
     Increment(from, token, value, Debit), Increment(to, token, value, Credit)]
  }

  function FuncOps(e: Event, f: Fields): seq<Op> {
    match FuncOf(e.func)
    case Mint => MintOps(e.pkgPath, f.to, f.value)
    case Burn => BurnOps(e.pkgPath, f.from, f.value)
    case Move => MoveOps(e.pkgPath, f.from, f.to, f.value)
    case Other => []
  }

  function EventOps(e: Event): seq<Op> {
    if !IsTransfer(e) then []
    else match ReadAttrs(e.attrs, NO_FIELDS) case None => [RejectValue] case Some(f) => FuncOps(e, f)
  }

  function TransferOf(e: Event, f: Fields): Transfer {
    Transfer(e.func, f.from, f.to, e.pkgPath, f.value, UNIT_NAME)
  }

  function EventTransfers(e: Event): seq<Transfer> {
    if !IsTransfer(e) then []
    else match ReadAttrs(e.attrs, NO_FIELDS) case None => [] case Some(f) => [TransferOf(e, f)]
  }

  function EventsOps(es: seq<Event>): seq<Op> {
    if es == [] then [] else EventOps(es[0]) + EventsOps(es[1..])
  }

  function EventsTransfers(es: seq<Event>): seq<Transfer> {
    if es == [] then [] else EventTransfers(es[0]) + EventsTransfers(es[1..])
  }

  function TxOps(tx: Transaction): seq<Op> {
    EventsOps(tx.events) + [AddTransfers(tx.hash, EventsTransfers(tx.events))]
  }

  function TxsOps(txs: seq<Transaction>): seq<Op> {
    if txs == [] then [] else TxOps(txs[0]) + TxsOps(txs[1..])
  }

  /** Every call made for a message once its block row has been inserted, in order. */
  function Program(m: BlockWithTransactions): seq<Op> {
    [AddTransactions(m.block.height, m.transactions)] + TxsOps(m.transactions)
  }
}
