/**
 Normalization of bank statement rows and ledger rows into movements (`bank-reconciliation/normalize.ts`).
 */
module BankNormalize {
  import opened Wrappers
  import opened JsText
  import opened BankCompare
  import opened BankTheorems
  import FiscalScope

  datatype Row = Row(ruc: Text, date: Text, reference: Text, amount: Text, side: Text, sourceKey: Text)

  datatype RejectionCode = NormalizationRejected | CrossRucAccess | NegativeAmount | FractionalCents

  datatype Rejection = Rejection(sourceKey: Text, code: RejectionCode)

  // ------------------------------------------------------------ references

  /** Every run of white space becomes one space; `inRun` when the unit before was white space. */
  function Collapse(t: Text, inRun: bool): Text {
    if t == [] then []
    else if !IsSpace(t[0]) then [t[0]] + Collapse(t[1..], false)
    else if inRun then Collapse(t[1..], true)
    else [SPACE] + Collapse(t[1..], true)
  }

  function Squeeze(t: Text): Text {
    Collapse(Trim(t), false)
  }

  /** No white space at the ends, and inside only single spaces. */
  ghost predicate Squeezed(t: Text) {
    Trimmed(t) && SingleSpaced(t)
  }

  lemma {:induction false} CollapseFirst(t: Text, inRun: bool)
    ensures inRun && Collapse(t, inRun) != [] ==> !IsSpace(Collapse(t, inRun)[0])
    ensures t != [] && !IsSpace(t[0]) ==> Collapse(t, inRun) != [] && Collapse(t, inRun)[0] == t[0]
  {
    if t != [] && IsSpace(t[0]) && inRun { CollapseFirst(t[1..], true); }
  }

  lemma {:induction false} CollapseLast(t: Text, inRun: bool)
    requires t != [] && !IsSpace(t[|t| - 1])
    ensures var r := Collapse(t, inRun); r != [] && r[|r| - 1] == t[|t| - 1]
  {
    if |t| > 1 {
      assert t[|t| - 1] == t[1..][|t[1..]| - 1];
      CollapseLast(t[1..], IsSpace(t[0]));
    }
  }

  /** White space occurs only as single spaces. */
  ghost predicate SingleSpaced(t: Text) {
    && (forall i :: 0 <= i < |t| && IsSpace(t[i]) ==> t[i] == SPACE)
    && (forall i :: 0 < i < |t| && IsSpace(t[i]) ==> !IsSpace(t[i - 1]))
  }

  lemma SingleSpacedPrepend(c: CodeUnit, t: Text)
    requires SingleSpaced(t) && (IsSpace(c) ==> c == SPACE)
    requires IsSpace(c) && t != [] ==> !IsSpace(t[0])
    ensures SingleSpaced([c] + t)
  {
    var r := [c] + t;
    forall i | 0 <= i < |r| && IsSpace(r[i]) ensures r[i] == SPACE && (i > 0 ==> !IsSpace(r[i - 1])) {
      if i > 0 { assert r[i] == t[i - 1]; }
      if i > 1 { assert r[i - 1] == t[i - 2]; }
    }
  }

  lemma {:induction false} CollapseSpaces(t: Text, inRun: bool)
    ensures SingleSpaced(Collapse(t, inRun))
  {
    if t != [] {
      CollapseSpaces(t[1..], IsSpace(t[0]));
      CollapseFirst(t[1..], IsSpace(t[0]));
      SingleSpacedPrepend(if IsSpace(t[0]) then SPACE else t[0], Collapse(t[1..], IsSpace(t[0])));
    }
  }

  lemma {:induction false} CollapseFixed(t: Text)
    requires SingleSpaced(t)
    ensures Collapse(t, false) == t
    ensures t != [] && !IsSpace(t[0]) ==> Collapse(t, true) == t
  {
    if t != [] {
      assert t == [t[0]] + t[1..];
      CollapseFixed(t[1..]);
      assert |t| > 1 ==> t[1] == t[1..][0];
      assert t[1..] == [] ==> Collapse(t[1..], true) == [];
    }
  }

  lemma TrimEmpty(t: Text)
    ensures Trim(t) == [] <==> forall i :: 0 <= i < |t| ==> IsSpace(t[i])
  {
    var u := TrimStart(t);
    assert u != [] ==> !IsSpace(u[0]) && u[0] == t[|t| - |u|];
  }

  lemma CollapseTrimmed(t: Text)
    requires Trimmed(t)
    ensures Squeezed(Collapse(t, false)) && (Collapse(t, false) == [] <==> t == [])
  {
    CollapseSpaces(t, false);
    CollapseFirst(t, false);
    if t != [] { CollapseLast(t, false); }
  }

  /** Squeezing a reference gives its canonical spacing, and canonical references are left alone. */
  lemma SqueezeIsCanonical(t: Text)
    ensures Squeezed(Squeeze(t)) && (Squeezed(t) ==> Squeeze(t) == t)
    ensures Squeeze(t) == [] <==> forall i :: 0 <= i < |t| ==> IsSpace(t[i])
  {
    TrimFixpoint(t);
    CollapseTrimmed(Trim(t));
    TrimEmpty(t);
    if Squeezed(t) { CollapseFixed(t); }
  }

  // --------------------------------------------------------------- amounts

  datatype AmountParse = Cents(cents: int) | BadAmount(code: RejectionCode)

  /** Digits, optionally a point and more digits. */
  predicate IsDecimalBody(t: Text, point: nat)
    requires point <= |t|
  {
    && AllDigits(t[..point]) && point > 0
    && (point == |t| || (t[point] == DOT && AllDigits(t[point + 1..]) && point + 1 < |t|))
  }

  /** Position of the first point, or the length when there is none. */
  function PointOf(t: Text): (p: nat)
    ensures p <= |t| && (p < |t| ==> t[p] == DOT) && forall i :: 0 <= i < p ==> t[i] != DOT
  {
    if t == [] || t[0] == DOT then 0 else 1 + PointOf(t[1..])
  }

  predicate AllZeros(t: Text) {
    forall c | c in t :: c == ZERO
  }

  function ParseTrimmed(amount: Text): AmountParse {
    var negative := amount != [] && amount[0] == MINUS;
    var body := if negative then amount[1..] else amount;
    var point := PointOf(body);
    if !IsDecimalBody(body, point) then BadAmount(NormalizationRejected)
    else if negative then BadAmount(NegativeAmount)
    else if point < |body| && !AllZeros(body[point + 1..]) then BadAmount(FractionalCents)
    else if Value(body[..point]) <= 0 then BadAmount(NormalizationRejected)
    else Cents(Value(body[..point]))
  }

  function ParseAmountCents(raw: Text): AmountParse {
    ParseTrimmed(Trim(raw))
  }

  /** Whole cents as they may be written: digits, perhaps a point and zeros. */
  function WrittenCents(digits: Text, zeros: Text): Text {
    if zeros == [] then digits else digits + [DOT] + zeros
  }

  lemma {:induction false} PointAfterDigits(digits: Text, rest: Text)
    requires AllDigits(digits) && (rest == [] || rest[0] == DOT)
    ensures PointOf(digits + rest) == |digits|
  {
    if digits == [] {
      assert digits + rest == rest;
    } else {
      assert digits[0] in digits;
      assert (digits + rest)[1..] == digits[1..] + rest;
      PointAfterDigits(digits[1..], rest);
    }
  }

  lemma WrittenParts(digits: Text, zeros: Text)
    requires AllDigits(digits) && digits != [] && AllZeros(zeros)
    ensures var body := WrittenCents(digits, zeros); var point := PointOf(body);
      && point == |digits| && body[..point] == digits && IsDecimalBody(body, point) && body[0] == digits[0]
      && (point < |body| ==> body[point + 1..] == zeros)
  {
    var rest := if zeros == [] then [] else [DOT] + zeros;
    var body := WrittenCents(digits, zeros);
    assert body == digits + rest;
    PointAfterDigits(digits, rest);
    assert body[..|digits|] == digits;
    assert zeros != [] ==> body[|digits| + 1..] == zeros;
  }

  /**
   Any way of writing a whole amount reads back: any digits, leading zeros included, perhaps a point and
   zeros, and white space around it.  Zero is refused, and a sign in front is refused as such.
   */
  lemma WrittenCentsParse(before: Text, digits: Text, zeros: Text, after: Text)
    requires Blank(before) && Blank(after) && AllDigits(digits) && digits != [] && AllZeros(zeros)
    ensures ParseAmountCents(before + WrittenCents(digits, zeros) + after) ==
            if Value(digits) > 0 then Cents(Value(digits)) else BadAmount(NormalizationRejected)
    ensures ParseAmountCents(before + ([MINUS] + WrittenCents(digits, zeros)) + after) == BadAmount(NegativeAmount)
  {
    var written := WrittenCents(digits, zeros);
    TrimmedCentsParse(digits, zeros);
    WrittenIsTrimmed(digits, zeros);
    TrimPadded(before, written, after);
    TrimPadded(before, [MINUS] + written, after);
  }

  lemma TrimmedCentsParse(digits: Text, zeros: Text)
    requires AllDigits(digits) && digits != [] && AllZeros(zeros)
    ensures var written := WrittenCents(digits, zeros);
      && ParseTrimmed(written) == (if Value(digits) > 0 then Cents(Value(digits)) else BadAmount(NormalizationRejected))
      && ParseTrimmed([MINUS] + written) == BadAmount(NegativeAmount)
  {
    WrittenParts(digits, zeros);
    assert ([MINUS] + WrittenCents(digits, zeros))[1..] == WrittenCents(digits, zeros);
    assert digits[0] in digits;
  }

  lemma WrittenIsTrimmed(digits: Text, zeros: Text)
    requires AllDigits(digits) && digits != [] && AllZeros(zeros)
    ensures var written := WrittenCents(digits, zeros);
      written != [] && Trimmed(written) && Trimmed([MINUS] + written)
  {
    var written := WrittenCents(digits, zeros);
    assert digits[0] in digits && digits[|digits| - 1] in digits;
    assert zeros != [] ==> zeros[|zeros| - 1] in zeros && written[|written| - 1] == zeros[|zeros| - 1];
    assert written[0] == digits[0];
  }

  /** An accepted amount is a positive whole number of cents, written without a sign. */
  lemma AcceptedAmountIsWhole(amount: Text) returns (whole: Text, zeros: Text)
    requires ParseTrimmed(amount).Cents?
    ensures ParseTrimmed(amount).cents > 0
    ensures AllDigits(whole) && AllZeros(zeros) && Value(whole) == ParseTrimmed(amount).cents
    ensures amount == WrittenCents(whole, zeros)
  {
    var point := PointOf(amount);
    whole, zeros := amount[..point], if point < |amount| then amount[point + 1..] else [];
    assert point < |amount| ==> amount == amount[..point] + [amount[point]] + amount[point + 1..];
  }

  // ----------------------------------------------------------------- dates

  function DaysInMonth(year: int, month: int): int {
    if month in {4, 6, 9, 11} then 30
    else if month != 2 then 31
    else if year % 4 == 0 && (year % 100 != 0 || year % 400 == 0) then 29
    else 28
  }

  /** YYYY-MM-DD and a real calendar date; years below 100 are refused, since `Date.UTC` shifts them to the 1900s. */
  predicate ValidDate(t: Text) {
    && |t| == 10 && t[4] == MINUS && t[7] == MINUS
    && AllDigits(t[..4]) && AllDigits(t[5..7]) && AllDigits(t[8..])
    && var year, month, day := Value(t[..4]), Value(t[5..7]), Value(t[8..]);
       && 100 <= year && 1 <= month <= 12 && 1 <= day <= DaysInMonth(year, month)
  }

  // ------------------------------------------------------------------ rows

  /** The operation's scope, the side tokens of the dialect, its source, and `toLowerCase`. */
  datatype Dialect = Dialect(ruc: Text, source: Source, sides: map<Text, Side>, lowerCase: Text -> Text)

  function NormalizeReference(dialect: Dialect, reference: Text): Text {
    dialect.lowerCase(Squeeze(reference))
  }

  /** When folding case keeps the spacing of squeezed texts and is idempotent on them, so is normalization. */
  lemma NormalizedReferenceIsFixed(dialect: Dialect, reference: Text)
    requires forall t :: Squeezed(t) ==> Squeezed(dialect.lowerCase(t))
    requires forall t :: Squeezed(t) ==> dialect.lowerCase(dialect.lowerCase(t)) == dialect.lowerCase(t)
    ensures Squeezed(NormalizeReference(dialect, reference))
    ensures NormalizeReference(dialect, NormalizeReference(dialect, reference))
            == NormalizeReference(dialect, reference)
  {
    SqueezeIsCanonical(reference);
    SqueezeIsCanonical(NormalizeReference(dialect, reference));
  }

  /** A row on its own account: its movement, or why it is refused; the checks in the order they are made. */
  function CheckParts(dialect: Dialect, row: Row, realDate: bool, reference: Text, amount: AmountParse)
    : Result<Movement, RejectionCode>
  {
    if row.ruc != dialect.ruc then Err(CrossRucAccess)
    else if !realDate then Err(NormalizationRejected)
    else if reference == [] then Err(NormalizationRejected)
    else if amount.BadAmount? then Err(amount.code)
    else if row.side !in dialect.sides then Err(NormalizationRejected)
    else if row.sourceKey == [] then Err(NormalizationRejected)
    else Ok(Movement(row.date, reference, amount.cents, dialect.sides[row.side], dialect.source, row.sourceKey))
  }

  function CheckRow(dialect: Dialect, row: Row): Result<Movement, RejectionCode> {
    CheckParts(dialect, row, ValidDate(row.date), NormalizeReference(dialect, row.reference),
               ParseAmountCents(row.amount))
  }

  /** Exactly when a row passes, and what a refusal for its RUC or its amount says about the rest of it. */
  lemma RowVerdict(dialect: Dialect, row: Row)
    ensures var verdict, amount := CheckRow(dialect, row), ParseAmountCents(row.amount);
      && (verdict == Err(CrossRucAccess) <==> row.ruc != dialect.ruc)
      && (verdict.Ok? <==>
          row.ruc == dialect.ruc && ValidDate(row.date) && NormalizeReference(dialect, row.reference) != []
                           && amount.Cents? && row.side in dialect.sides && row.sourceKey != [])
      && (verdict == Err(NegativeAmount) || verdict == Err(FractionalCents) ==>
            row.ruc == dialect.ruc && ValidDate(row.date) && amount == BadAmount(verdict.error))
  {
    AmountCodes(row.amount);
    VerdictOfParts(dialect, row, ValidDate(row.date), NormalizeReference(dialect, row.reference),
                   ParseAmountCents(row.amount));
  }

  lemma VerdictOfParts(dialect: Dialect, row: Row, realDate: bool, reference: Text, amount: AmountParse)
    requires amount.BadAmount? ==> amount.code != CrossRucAccess
    ensures var verdict := CheckParts(dialect, row, realDate, reference, amount);
      && (verdict == Err(CrossRucAccess) <==> row.ruc != dialect.ruc)
      && (verdict.Ok? <==> row.ruc == dialect.ruc && realDate && reference != []
                           && amount.Cents? && row.side in dialect.sides && row.sourceKey != [])
      && (verdict == Err(NegativeAmount) || verdict == Err(FractionalCents) ==>
            row.ruc == dialect.ruc && realDate && amount == BadAmount(verdict.error))
  {
  }

  lemma AmountCodes(raw: Text)
    ensures ParseAmountCents(raw).BadAmount? ==> ParseAmountCents(raw).code != CrossRucAccess
  {
  }

  type Check = Row -> Result<Movement, RejectionCode>

  function RowCheck(dialect: Dialect): Check {
    (row: Row) => CheckRow(dialect, row)
  }

  /** Row `i` passes its checks and no earlier row that does has its source key. */
  predicate Accepted(check: Check, rows: seq<Row>, i: nat)
    requires i < |rows|
  {
    check(rows[i]).Ok? && forall j :: 0 <= j < i && check(rows[j]).Ok? ==> rows[j].sourceKey != rows[i].sourceKey
  }

  function Movements(check: Check, rows: seq<Row>, n: nat): seq<Movement>
    requires n <= |rows|
  {
    if n == 0 then []
    else Movements(check, rows, n - 1) + (if Accepted(check, rows, n - 1) then [check(rows[n - 1]).value] else [])
  }

  function Rejections(check: Check, rows: seq<Row>, n: nat): seq<Rejection>
    requires n <= |rows|
  {
    if n == 0 then []
    else
      var verdict := check(rows[n - 1]);
      Rejections(check, rows, n - 1)
      + (if Accepted(check, rows, n - 1) then []
         else [Rejection(rows[n - 1].sourceKey, if verdict.Err? then verdict.error else NormalizationRejected)])
  }

  method NormalizeRows(check: Check, rows: seq<Row>) returns (movements: seq<Movement>, rejected: seq<Rejection>)
    ensures movements == Movements(check, rows, |rows|)
    ensures rejected == Rejections(check, rows, |rows|)
  {
    movements, rejected := [], [];
    var seenSourceKeys: set<Text> := {};
    for i := 0 to |rows|
      invariant movements == Movements(check, rows, i)
      invariant rejected == Rejections(check, rows, i)
      invariant forall j :: 0 <= j < i && check(rows[j]).Ok? ==> rows[j].sourceKey in seenSourceKeys
      invariant forall k :: k in seenSourceKeys ==>
                exists j :: 0 <= j < i && check(rows[j]).Ok? && rows[j].sourceKey == k
    {
      var row := rows[i];
      var verdict := check(row);
      if verdict.Err? {
        rejected := rejected + [Rejection(row.sourceKey, verdict.error)];
      } else if row.sourceKey in seenSourceKeys {
        rejected := rejected + [Rejection(row.sourceKey, NormalizationRejected)];
      } else {
        seenSourceKeys := seenSourceKeys + {row.sourceKey};
        movements := movements + [verdict.value];
      }
    }
  }

  /** What every accepted movement of a dialect is. */
  ghost predicate Sound(dialect: Dialect, m: Movement) {
    m.amountCents > 0 && m.reference != [] && m.sourceKey != [] && ValidDate(m.date) && m.source == dialect.source
  }

  lemma CheckedRowIsSound(dialect: Dialect, row: Row)
    requires RowCheck(dialect)(row).Ok?
    ensures Sound(dialect, RowCheck(dialect)(row).value) && RowCheck(dialect)(row).value.sourceKey == row.sourceKey
  {
    PartsAreSound(dialect, row, ValidDate(row.date), NormalizeReference(dialect, row.reference),
                  ParseAmountCents(row.amount));
    PositiveAmount(row.amount);
  }

  lemma PositiveAmount(raw: Text)
    ensures ParseAmountCents(raw).Cents? ==> ParseAmountCents(raw).cents > 0
  {
  }

  lemma PartsAreSound(dialect: Dialect, row: Row, realDate: bool, reference: Text, amount: AmountParse)
    requires CheckParts(dialect, row, realDate, reference, amount).Ok?
    ensures var m := CheckParts(dialect, row, realDate, reference, amount).value;
      && m.sourceKey == row.sourceKey != [] && m.reference == reference != [] && m.source == dialect.source
      && m.date == row.date && realDate && amount == Cents(m.amountCents)
  {
  }

  lemma {:induction false} OneOrTheOther(check: Check, rows: seq<Row>, n: nat)
    requires n <= |rows|
    ensures |Movements(check, rows, n)| + |Rejections(check, rows, n)| == n
  {
    if n > 0 { OneOrTheOther(check, rows, n - 1); }
  }

  ghost predicate FromRow(check: Check, rows: seq<Row>, n: nat, m: Movement)
    requires n <= |rows|
  {
    exists i :: 0 <= i < n && Accepted(check, rows, i) && m == check(rows[i]).value
  }

  lemma {:induction false} MovementsFromRows(check: Check, rows: seq<Row>, n: nat, m: Movement)
    requires n <= |rows|
    ensures m in Movements(check, rows, n) <==> FromRow(check, rows, n, m)
  {
    if n > 0 {
      MovementsFromRows(check, rows, n - 1, m);
      FromOneMore(check, rows, n, m);
    }
  }

  lemma FromOneMore(check: Check, rows: seq<Row>, n: nat, m: Movement)
    requires 0 < n <= |rows|
    ensures FromRow(check, rows, n, m) <==>
            FromRow(check, rows, n - 1, m) || (Accepted(check, rows, n - 1) && m == check(rows[n - 1]).value)
  {
    if i :| 0 <= i < n && Accepted(check, rows, i) && m == check(rows[i]).value {
      assert i == n - 1 || FromRow(check, rows, n - 1, m);
    }
  }

  /** Every row yields exactly one movement or one rejection, and accepted source keys are distinct. */
  lemma {:induction false} EveryRowAccountedFor(check: Check, rows: seq<Row>, n: nat)
    requires n <= |rows|
    requires forall row :: row in rows && check(row).Ok? ==> check(row).value.sourceKey == row.sourceKey
    ensures |Movements(check, rows, n)| + |Rejections(check, rows, n)| == n
    ensures DistinctKeys(Movements(check, rows, n))
  {
    OneOrTheOther(check, rows, n);
    if n > 0 {
      EveryRowAccountedFor(check, rows, n - 1);
      if Accepted(check, rows, n - 1) {
        assert rows[n - 1] in rows;
        forall m | m in Movements(check, rows, n - 1) ensures m.sourceKey != rows[n - 1].sourceKey {
          MovementsFromRows(check, rows, n - 1, m);
          var i :| 0 <= i < n - 1 && Accepted(check, rows, i) && m == check(rows[i]).value;
          assert rows[i] in rows;
        }
      }
    }
  }

  function DialectMovements(dialect: Dialect, rows: seq<Row>): seq<Movement> {
    Movements(RowCheck(dialect), rows, |rows|)
  }

  lemma NormalizedMovements(dialect: Dialect, rows: seq<Row>)
    ensures var ms := DialectMovements(dialect, rows);
      && DistinctKeys(ms) && (forall m :: m in ms ==> Sound(dialect, m))
      && |ms| + |Rejections(RowCheck(dialect), rows, |rows|)| == |rows|
  {
    var check := RowCheck(dialect);
    forall row | row in rows && check(row).Ok?
      ensures check(row).value.sourceKey == row.sourceKey && Sound(dialect, check(row).value) {
      CheckedRowIsSound(dialect, row);
    }
    EveryRowAccountedFor(check, rows, |rows|);
    forall m | m in DialectMovements(dialect, rows) ensures Sound(dialect, m) {
      MovementsFromRows(check, rows, |rows|, m);
      var i :| 0 <= i < |rows| && Accepted(check, rows, i) && m == check(rows[i]).value;
      assert rows[i] in rows;
    }
  }

  /** Deposits and ledger debits raise the Bancos balance; withdrawals and ledger credits lower it. */
  function BankDialect(scope: FiscalScope.Scope, lowerCase: Text -> Text): Dialect {
    Dialect(scope.ruc, FromBank, map[Ascii("deposit") := Inflow, Ascii("withdrawal") := Outflow], lowerCase)
  }

  function LedgerDialect(scope: FiscalScope.Scope, lowerCase: Text -> Text): Dialect {
    Dialect(scope.ruc, FromLedger, map[Ascii("debit") := Inflow, Ascii("credit") := Outflow], lowerCase)
  }

  method NormalizeBankRows(scope: FiscalScope.Scope, lowerCase: Text -> Text, rows: seq<Row>)
    returns (r: Result<(seq<Movement>, seq<Rejection>), BankError>)
    ensures var dialect := BankDialect(scope, lowerCase);
      r == if FiscalScope.Valid(scope)
           then Ok((DialectMovements(dialect, rows), Rejections(RowCheck(dialect), rows, |rows|)))
             else Err(InvalidScope)
  {
    if !FiscalScope.Valid(scope) {
      return Err(InvalidScope);
    }
    var movements, rejected := NormalizeRows(RowCheck(BankDialect(scope, lowerCase)), rows);
    r := Ok((movements, rejected));
  }

  method NormalizeLedgerRows(scope: FiscalScope.Scope, lowerCase: Text -> Text, rows: seq<Row>)
    returns (r: Result<(seq<Movement>, seq<Rejection>), BankError>)
    ensures var dialect := LedgerDialect(scope, lowerCase);
      r == if FiscalScope.Valid(scope)
           then Ok((DialectMovements(dialect, rows), Rejections(RowCheck(dialect), rows, |rows|)))
             else Err(InvalidScope)
  {
    if !FiscalScope.Valid(scope) {
      return Err(InvalidScope);
    }
    var movements, rejected := NormalizeRows(RowCheck(LedgerDialect(scope, lowerCase)), rows);
    r := Ok((movements, rejected));
  }

  /** From raw rows to differences: every accepted row's movement is placed exactly once, and nothing else is. */
  lemma RowsArePartitioned(before: KeyOrder, bankDialect: Dialect, bankRows: seq<Row>, ledgerDialect: Dialect,
                           ledgerRows: seq<Row>,
                           book: Book, m: Movement)
    ensures var bank, ledger := DialectMovements(bankDialect, bankRows), DialectMovements(ledgerDialect, ledgerRows);
      Tally(Differences(before, bank, ledger), book, m) == if m in Input(book, bank, ledger) then 1 else 0
  {
    var bank, ledger := DialectMovements(bankDialect, bankRows), DialectMovements(ledgerDialect, ledgerRows);
    NormalizedMovements(bankDialect, bankRows);
    NormalizedMovements(ledgerDialect, ledgerRows);
    ReconciliationPartitions(before, bank, ledger, book, m);
    DistinctKeysCount(Input(book, bank, ledger), m);
  }

  lemma {:induction false} DistinctKeysCount(ms: seq<Movement>, m: Movement)
    requires DistinctKeys(ms)
    ensures Count(ms, m) == if m in ms then 1 else 0
  {
    if ms != [] {
      DistinctKeysCount(ms[..|ms| - 1], m);
      CountLast(ms, m);
      assert ms == ms[..|ms| - 1] + [ms[|ms| - 1]];
    }
  }
}
