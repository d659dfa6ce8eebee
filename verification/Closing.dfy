/**
 Closing result accounts into retained earnings, monthly and year-end, and the reports that accept
 the entries (`close-calculations/`, `annual-declaration/`).  Amounts are integer cents.
 */
module Closing {
  import opened Wrappers
  import opened JsText
  import FiscalScope

  /** A journal side; `OtherSide` is any value that is neither. */
  datatype Side = Debit | Credit | OtherSide

  datatype Line = Line(accountCode: Text, side: Side, amountCents: int)

  datatype Kind = Depreciation | Provision | Isr | ClosingKind

  datatype Entry = Entry(id: Text, scope: FiscalScope.Scope, lines: seq<Line>, kind: Kind)

  /** Positive for a debit balance (expense, loss), negative for a credit balance (revenue, gain). */
  datatype Balance = Balance(accountCode: Text, balanceCents: int)

  datatype CloseError = InvalidScope | NegativeAmount | UnbalancedEntry | UnclassifiableInput | AccountNotInChart

  datatype Cedula = Cedula(coefficientPathCents: int, pctPathCents: int, appliedCents: int)

  datatype Report = Report(scope: FiscalScope.Scope, entries: seq<Entry>, trialBalanceBalanced: bool, cedula: Cedula,
                           beforeCents: int, afterCents: int)

  datatype AnnualScope = AnnualScope(ruc: Text, year: Text)

  datatype Settlement = Settlement(scope: AnnualScope, annualIsrCents: int, provisionalCreditCents: int,
                                   balanceCents: int)

  datatype AnnualReport = AnnualReport(entries: seq<Entry>, trialBalanceBalanced: bool, settlement: Settlement,
                                       beforeCents: int, afterCents: int)

  const RETAINED_EARNINGS: Text := [ZERO + 5, ZERO + 9]

  // ------------------------------------------------------------------- sums

  function OnSide(lines: seq<Line>, side: Side): int {
    if lines == [] then 0
    else
      var last := lines[|lines| - 1];
      OnSide(lines[..|lines| - 1], side) + (if last.side == side then last.amountCents else 0)
  }

  function AllOnSide(entries: seq<Entry>, side: Side): int {
    if entries == [] then 0 else AllOnSide(entries[..|entries| - 1], side) + OnSide(entries[|entries| - 1].lines, side)
  }

  /** What one line adds to an account: debits count up, anything else down. */
  function Posting(line: Line, account: Text): int {
    if line.accountCode != account then 0 else if line.side == Debit then line.amountCents else -line.amountCents
  }

  function PostedLines(lines: seq<Line>, account: Text): int {
    if lines == [] then 0 else PostedLines(lines[..|lines| - 1], account) + Posting(lines[|lines| - 1], account)
  }

  /** The net effect of the entries on an account, debit positive. */
  function Posted(entries: seq<Entry>, account: Text): int {
    if entries == [] then 0
    else Posted(entries[..|entries| - 1], account) + PostedLines(entries[|entries| - 1].lines, account)
  }

  function BalanceOf(balances: seq<Balance>, account: Text): int {
    if balances == [] then 0
    else
      var last := balances[|balances| - 1];
      BalanceOf(balances[..|balances| - 1], account) + (if last.accountCode == account then last.balanceCents else 0)
  }

  function NetResult(balances: seq<Balance>): int {
    if balances == [] then 0 else NetResult(balances[..|balances| - 1]) + balances[|balances| - 1].balanceCents
  }

  // ------------------------------------------------------ the shared checks

  predicate WellFormedLine(line: Line) {
    line.side != OtherSide && line.amountCents > 0
  }

  predicate Balanced(entry: Entry) {
    && (forall line <- entry.lines :: WellFormedLine(line))
    && OnSide(entry.lines, Debit) == OnSide(entry.lines, Credit)
  }

  /** The first malformed line decides the error; an entry of well-formed lines fails on its totals. */
  ghost predicate BalanceFailure(entry: Entry, e: CloseError) {
    if forall line <- entry.lines :: WellFormedLine(line) then
      e == UnbalancedEntry && OnSide(entry.lines, Debit) != OnSide(entry.lines, Credit)
    else
      exists k :: 0 <= k < |entry.lines| && FirstMalformed(entry.lines, k)
                  && e == if entry.lines[k].side == OtherSide then UnclassifiableInput else NegativeAmount
  }

  ghost predicate FirstMalformed(lines: seq<Line>, k: nat)
    requires k < |lines|
  {
    !WellFormedLine(lines[k]) && forall j :: 0 <= j < k ==> WellFormedLine(lines[j])
  }

  method AssertBalanced(entry: Entry) returns (r: Result<(), CloseError>)
    ensures r.Ok? <==> Balanced(entry)
    ensures r.Err? ==> BalanceFailure(entry, r.error)
  {
    var debits, credits := 0, 0;
    for i := 0 to |entry.lines|
      invariant forall j :: 0 <= j < i ==> WellFormedLine(entry.lines[j])
      invariant debits == OnSide(entry.lines[..i], Debit) && credits == OnSide(entry.lines[..i], Credit)
    {
      var line := entry.lines[i];
      assert entry.lines[..i + 1][..i] == entry.lines[..i];
      if line.side != Debit && line.side != Credit {
        assert FirstMalformed(entry.lines, i);
        return Err(UnclassifiableInput);
      }
      if line.amountCents <= 0 {
        assert FirstMalformed(entry.lines, i);
        return Err(NegativeAmount);
      }
      if line.side == Debit {
        debits := debits + line.amountCents;
      } else {
        credits := credits + line.amountCents;
      }
    }
    assert entry.lines[..|entry.lines|] == entry.lines;
    if debits != credits {
      return Err(UnbalancedEntry);
    }
    r := Ok(());
  }

  /** `assertAnnualScope` */
  predicate ValidAnnual(scope: AnnualScope) {
    FiscalScope.IsRuc(scope.ruc) && |scope.year| == 4 && AllDigits(scope.year)
  }

  // ---------------------------------------------------------------- closing

  /** The entry that closes one non-zero balance. */
  function ClosingEntry(scope: FiscalScope.Scope, balance: Balance, index: nat): Entry {
    var amount := if balance.balanceCents < 0 then -balance.balanceCents else balance.balanceCents;
    var (closing, offset) := if balance.balanceCents < 0 then (Debit, Credit) else (Credit, Debit);
    Entry(Ascii("close-") + Decimal(index), scope,
          [Line(balance.accountCode, closing, amount), Line(RETAINED_EARNINGS, offset, amount)], ClosingKind)
  }

  /** The entries for the non-zero balances, numbered from 1. */
  function ClosingEntries(scope: FiscalScope.Scope, balances: seq<Balance>): seq<Entry> {
    if balances == [] then []
    else
      var front, last := ClosingEntries(scope, balances[..|balances| - 1]), balances[|balances| - 1];
      if last.balanceCents == 0 then front else front + [ClosingEntry(scope, last, |front| + 1)]
  }

  predicate Closable(balance: Balance, chart: set<Text>) {
    balance.accountCode in chart && balance.accountCode != RETAINED_EARNINGS
  }

  ghost predicate FirstUnclosable(balances: seq<Balance>, chart: set<Text>, k: nat)
    requires k < |balances|
  {
    !Closable(balances[k], chart) && forall j :: 0 <= j < k ==> Closable(balances[j], chart)
  }

  ghost predicate ClosingAccepted(scope: FiscalScope.Scope, balances: seq<Balance>, chart: set<Text>) {
    FiscalScope.Valid(scope) && RETAINED_EARNINGS in chart && forall b <- balances :: Closable(b, chart)
  }

  /** Scope first, then the chart's retained-earnings account, then the first balance that cannot be closed. */
  ghost predicate ClosingFailure(scope: FiscalScope.Scope, balances: seq<Balance>, chart: set<Text>, e: CloseError) {
    if !FiscalScope.Valid(scope) then e == InvalidScope
    else if RETAINED_EARNINGS !in chart then e == AccountNotInChart
    else exists k :: 0 <= k < |balances| && FirstUnclosable(balances, chart, k)
                     && e == if balances[k].accountCode !in chart then AccountNotInChart else UnclassifiableInput
  }

  /** Drafts and checks the entry for one non-zero balance; the check never fails. */
  method PostBalance(scope: FiscalScope.Scope, balance: Balance, index: nat) returns (entry: Entry)
    requires balance.balanceCents != 0 && balance.accountCode != RETAINED_EARNINGS
    ensures entry == ClosingEntry(scope, balance, index)
  {
    var amount := if balance.balanceCents < 0 then -balance.balanceCents else balance.balanceCents;
    var closesWithDebit := balance.balanceCents < 0;
    var lines :=
      if closesWithDebit then
        [Line(balance.accountCode, Debit, amount), Line(RETAINED_EARNINGS, Credit, amount)]
      else
        [Line(balance.accountCode, Credit, amount), Line(RETAINED_EARNINGS, Debit, amount)];
    entry := Entry(Ascii("close-") + Decimal(index), scope, lines, ClosingKind);
    EntryPostings(scope, balance, index, balance.accountCode);
    var checked := AssertBalanced(entry);
    assert checked.Ok?;
  }

  method CloseResultAccounts(scope: FiscalScope.Scope, balances: seq<Balance>, chart: set<Text>)
    returns (r: Result<seq<Entry>, CloseError>)
    ensures r.Ok? <==> ClosingAccepted(scope, balances, chart)
    ensures r.Ok? ==> r.value == ClosingEntries(scope, balances)
    ensures r.Err? ==> ClosingFailure(scope, balances, chart, r.error)
  {
    if !FiscalScope.Valid(scope) {
      return Err(InvalidScope);
    }
    if RETAINED_EARNINGS !in chart {
      return Err(AccountNotInChart);
    }
    var entries: seq<Entry> := [];
    var index := 0;
    for i := 0 to |balances|
      invariant entries == ClosingEntries(scope, balances[..i]) && index == |entries|
      invariant forall j :: 0 <= j < i ==> Closable(balances[j], chart)
    {
      var balance := balances[i];
      assert balances[..i + 1][..i] == balances[..i];
      if balance.accountCode !in chart {
        assert FirstUnclosable(balances, chart, i);
        return Err(AccountNotInChart);
      }
      if balance.accountCode == RETAINED_EARNINGS {
        assert FirstUnclosable(balances, chart, i);
        return Err(UnclassifiableInput);
      }
      if balance.balanceCents == 0 {
        continue;
      }
      index := index + 1;
      var entry := PostBalance(scope, balance, index);
      entries := entries + [entry];
    }
    assert balances[..|balances|] == balances;
    r := Ok(entries);
  }

  /** One closing entry is balanced, takes its account to zero and moves the result to retained earnings. */
  lemma EntryPostings(scope: FiscalScope.Scope, balance: Balance, index: nat, account: Text)
    requires balance.balanceCents != 0 && balance.accountCode != RETAINED_EARNINGS
    ensures var entry := ClosingEntry(scope, balance, index);
      && Balanced(entry)
      && PostedLines(entry.lines, account) ==
           if account == balance.accountCode then -balance.balanceCents
           else if account == RETAINED_EARNINGS then balance.balanceCents
           else 0
  {
    var lines := ClosingEntry(scope, balance, index).lines;
    assert lines[..1][..0] == [] && lines[..1][0] == lines[0];
    assert OnSide(lines[..1], Debit) == if lines[0].side == Debit then lines[0].amountCents else 0;
    assert OnSide(lines[..1], Credit) == if lines[0].side == Credit then lines[0].amountCents else 0;
    assert PostedLines(lines[..1], account) == Posting(lines[0], account);
  }

  method CloseAnnualResults(scope: AnnualScope, balances: seq<Balance>, chart: set<Text>)
    returns (r: Result<seq<Entry>, CloseError>)
    ensures r.Ok? <==> ValidAnnual(scope) && ClosingAccepted(December(scope), balances, chart)
    ensures r.Ok? ==> r.value == ClosingEntries(December(scope), balances)
    ensures r.Err? ==> if !ValidAnnual(scope) then r.error == InvalidScope
                       else r.error != InvalidScope && ClosingFailure(December(scope), balances, chart, r.error)
  {
    if !ValidAnnual(scope) {
      return Err(InvalidScope);
    }
    DecemberIsValid(scope);
    r := CloseResultAccounts(December(scope), balances, chart);
  }

  /** The year's closing posts in its December period. */
  function December(scope: AnnualScope): FiscalScope.Scope {
    FiscalScope.Scope(scope.ruc, scope.year + [ZERO + 1, ZERO + 2])
  }

  lemma DecemberIsValid(scope: AnnualScope)
    ensures ValidAnnual(scope) ==> FiscalScope.Valid(December(scope))
  {
    if ValidAnnual(scope) {
      var period := December(scope).period;
      assert period[4..6] == [ZERO + 1, ZERO + 2];
      FiscalScope.TwoDigitValue(period[4..6]);
    }
  }

  // ---------------------------------------------------------------- reports

  predicate Reportable(entry: Entry, chart: set<Text>) {
    (forall line <- entry.lines :: line.accountCode in chart) && Balanced(entry)
  }

  /** Sums one entry's lines into the running totals. */
  method AddLines(lines: seq<Line>, debits: int, credits: int, change: int)
    returns (debits': int, credits': int, change': int)
    requires forall line <- lines :: WellFormedLine(line)
    ensures debits' == debits + OnSide(lines, Debit) && credits' == credits + OnSide(lines, Credit)
    ensures change' == change - PostedLines(lines, RETAINED_EARNINGS)
  {
    debits', credits', change' := debits, credits, change;
    for i := 0 to |lines|
      invariant debits' == debits + OnSide(lines[..i], Debit) && credits' == credits + OnSide(lines[..i], Credit)
      invariant change' == change - PostedLines(lines[..i], RETAINED_EARNINGS)
    {
      var line := lines[i];
      assert lines[..i + 1][..i] == lines[..i];
      assert WellFormedLine(line);
      if line.side == Debit {
        debits' := debits' + line.amountCents;
      } else {
        credits' := credits' + line.amountCents;
      }
      if line.accountCode == RETAINED_EARNINGS {
        change' := change' + (if line.side == Credit then line.amountCents else -line.amountCents);
      }
    }
    assert lines[..|lines|] == lines;
  }

  method AccountsInChart(lines: seq<Line>, chart: set<Text>) returns (ok: bool)
    ensures ok <==> forall line <- lines :: line.accountCode in chart
  {
    for i := 0 to |lines|
      invariant forall j :: 0 <= j < i ==> lines[j].accountCode in chart
    {
      if lines[i].accountCode !in chart {
        return false;
      }
    }
    ok := true;
  }

  /** The first entry that cannot be reported decides the error: its accounts before its balance. */
  ghost predicate ReportFailure(entries: seq<Entry>, chart: set<Text>, e: CloseError) {
    exists k :: 0 <= k < |entries| && FirstUnreportable(entries, chart, k)
                && if exists line :: line in entries[k].lines && line.accountCode !in chart then e == AccountNotInChart
                   else BalanceFailure(entries[k], e)
  }

  ghost predicate FirstUnreportable(entries: seq<Entry>, chart: set<Text>, k: nat)
    requires k < |entries|
  {
    !Reportable(entries[k], chart) && forall j :: 0 <= j < k ==> Reportable(entries[j], chart)
  }

  lemma {:induction false} BalancedTotals(entries: seq<Entry>)
    requires forall entry <- entries :: Balanced(entry)
    ensures AllOnSide(entries, Debit) == AllOnSide(entries, Credit)
  {
    if entries != [] {
      assert entries[|entries| - 1] in entries;
      BalancedTotals(entries[..|entries| - 1]);
    }
  }

  method BuildCloseReport(scope: FiscalScope.Scope, entries: seq<Entry>, cedula: Cedula, openingCents: int,
                          chart: set<Text>)
    returns (r: Result<Report, CloseError>)
    ensures r.Ok? <==> FiscalScope.Valid(scope) && forall entry <- entries :: Reportable(entry, chart)
    ensures r.Ok? ==> r.value == Report(scope, entries, true, cedula, openingCents,
                                        openingCents - Posted(entries, RETAINED_EARNINGS))
    ensures r.Err? ==> if !FiscalScope.Valid(scope) then r.error == InvalidScope
                       else ReportFailure(entries, chart, r.error)
  {
    if !FiscalScope.Valid(scope) {
      return Err(InvalidScope);
    }
    var debits, credits, change := 0, 0, 0;
    for i := 0 to |entries|
      invariant forall j :: 0 <= j < i ==> Reportable(entries[j], chart)
      invariant debits == AllOnSide(entries[..i], Debit) && credits == AllOnSide(entries[..i], Credit)
      invariant change == -Posted(entries[..i], RETAINED_EARNINGS)
    {
      assert entries[..i + 1][..i] == entries[..i];
      var inChart := AccountsInChart(entries[i].lines, chart);
      if !inChart {
        assert FirstUnreportable(entries, chart, i);
        return Err(AccountNotInChart);
      }
      var balanced := AssertBalanced(entries[i]);
      if balanced.Err? {
        assert FirstUnreportable(entries, chart, i);
        return Err(balanced.error);
      }
      debits, credits, change := AddLines(entries[i].lines, debits, credits, change);
    }
    assert entries[..|entries|] == entries;
    BalancedTotals(entries);
    if debits != credits {
      assert false;
    }
    r := Ok(Report(scope, entries, debits == credits, cedula, openingCents, openingCents + change));
  }

  method BuildAnnualReport(entries: seq<Entry>, settlement: Settlement, beforeCents: int)
    returns (r: Result<AnnualReport, CloseError>)
    ensures r.Ok? <==> forall entry <- entries :: Balanced(entry)
    ensures r.Ok? ==> r.value == AnnualReport(entries, true, settlement, beforeCents,
                                              beforeCents - Posted(entries, RETAINED_EARNINGS))
    ensures r.Err? ==> exists k :: 0 <= k < |entries| && BalanceFailure(entries[k], r.error)
                                   && forall j :: 0 <= j < k ==> Balanced(entries[j])
  {
    var debits, credits, change := 0, 0, 0;
    for i := 0 to |entries|
      invariant forall j :: 0 <= j < i ==> Balanced(entries[j])
      invariant debits == AllOnSide(entries[..i], Debit) && credits == AllOnSide(entries[..i], Credit)
      invariant change == -Posted(entries[..i], RETAINED_EARNINGS)
    {
      assert entries[..i + 1][..i] == entries[..i];
      var balanced := AssertBalanced(entries[i]);
      if balanced.Err? {
        return Err(balanced.error);
      }
      debits, credits, change := AddLines(entries[i].lines, debits, credits, change);
    }
    assert entries[..|entries|] == entries;
    BalancedTotals(entries);
    if debits != credits {
      assert false;
    }
    r := Ok(AnnualReport(entries, debits == credits, settlement, beforeCents, beforeCents + change));
  }

  // ------------------------------------------------------------- properties

  /** Every account is posted minus its balance, except retained earnings, which is posted the net result. */
  lemma {:induction false} ClosingConserves(scope: FiscalScope.Scope, balances: seq<Balance>, chart: set<Text>,
                                            account: Text)
    requires forall b <- balances :: Closable(b, chart)
    ensures Posted(ClosingEntries(scope, balances), account) ==
            if account == RETAINED_EARNINGS then NetResult(balances) else -BalanceOf(balances, account)
  {
    if balances != [] {
      var front, last := balances[..|balances| - 1], balances[|balances| - 1];
      assert last in balances;
      ClosingConserves(scope, front, chart, account);
      if last.balanceCents != 0 {
        var before := ClosingEntries(scope, front);
        var entry := ClosingEntry(scope, last, |before| + 1);
        EntryPostings(scope, last, |before| + 1, account);
        assert (before + [entry])[..|before|] == before;
      }
    }
  }

  /** Every closing entry is balanced and in the chart, and the entries are numbered from 1 without gaps. */
  lemma {:induction false} ClosingEntriesReportable(scope: FiscalScope.Scope, balances: seq<Balance>, chart: set<Text>,
                                                    i: nat)
    requires ClosingAccepted(scope, balances, chart) && i < |ClosingEntries(scope, balances)|
    ensures Reportable(ClosingEntries(scope, balances)[i], chart)
    ensures ClosingEntries(scope, balances)[i].id == Ascii("close-") + Decimal(i + 1)
    ensures ClosingEntries(scope, balances)[i].scope == scope
  {
    var front, last := balances[..|balances| - 1], balances[|balances| - 1];
    assert last in balances;
    if i < |ClosingEntries(scope, front)| {
      ClosingEntriesReportable(scope, front, chart, i);
    } else {
      EntryPostings(scope, last, i + 1, last.accountCode);
    }
  }

  /** No two entries of one close share an id. */
  lemma EntryIdsDistinct(scope: FiscalScope.Scope, balances: seq<Balance>, chart: set<Text>, i: nat, j: nat)
    requires ClosingAccepted(scope, balances, chart)
    requires i < |ClosingEntries(scope, balances)| && j < |ClosingEntries(scope, balances)|
    ensures ClosingEntries(scope, balances)[i].id == ClosingEntries(scope, balances)[j].id <==> i == j
  {
    ClosingEntriesReportable(scope, balances, chart, i);
    ClosingEntriesReportable(scope, balances, chart, j);
    var prefix := Ascii("close-");
    if prefix + Decimal(i + 1) == prefix + Decimal(j + 1) {
      SplitEqual(prefix, Decimal(i + 1), prefix, Decimal(j + 1));
      ValueOfDecimal(i + 1);
      ValueOfDecimal(j + 1);
    }
  }

  /** Close, then report: always accepted, and retained earnings move by minus the sum of the balances closed. */
  method CloseAndReport(scope: FiscalScope.Scope, balances: seq<Balance>, chart: set<Text>, cedula: Cedula,
                        openingCents: int)
    returns (entries: Result<seq<Entry>, CloseError>, report: Result<Report, CloseError>)
    ensures entries.Ok? <==> ClosingAccepted(scope, balances, chart)
    ensures entries.Ok? ==> report.Ok? && report.value.trialBalanceBalanced && report.value.entries == entries.value
    ensures entries.Ok? ==> report.value.afterCents == report.value.beforeCents - NetResult(balances)
    ensures entries.Ok? ==> forall account :: account != RETAINED_EARNINGS ==>
      Posted(entries.value, account) == -BalanceOf(balances, account)
  {
    entries := CloseResultAccounts(scope, balances, chart);
    if entries.Err? {
      return entries, Err(entries.error);
    }
    ClosedEntriesAreReportable(scope, balances, chart);
    report := BuildCloseReport(scope, entries.value, cedula, openingCents, chart);
  }

  lemma ClosedEntriesAreReportable(scope: FiscalScope.Scope, balances: seq<Balance>, chart: set<Text>)
    requires ClosingAccepted(scope, balances, chart)
    ensures forall entry <- ClosingEntries(scope, balances) :: Reportable(entry, chart)
    ensures forall account :: Posted(ClosingEntries(scope, balances), account) ==
                              if account == RETAINED_EARNINGS then NetResult(balances)
                              else -BalanceOf(balances, account)
  {
    forall entry | entry in ClosingEntries(scope, balances) ensures Reportable(entry, chart) {
      var i :| 0 <= i < |ClosingEntries(scope, balances)| && ClosingEntries(scope, balances)[i] == entry;
      ClosingEntriesReportable(scope, balances, chart, i);
    }
    forall account
      ensures Posted(ClosingEntries(scope, balances), account) ==
              if account == RETAINED_EARNINGS then NetResult(balances) else -BalanceOf(balances, account)
    {
      ClosingConserves(scope, balances, chart, account);
    }
  }

  /** The year-end close through the annual report: the same conservation. */
  method CloseYearAndReport(scope: AnnualScope, balances: seq<Balance>, chart: set<Text>, settlement: Settlement,
                            beforeCents: int)
    returns (entries: Result<seq<Entry>, CloseError>, report: Result<AnnualReport, CloseError>)
    ensures entries.Ok? <==>
            ValidAnnual(scope) && RETAINED_EARNINGS in chart && forall b <- balances :: Closable(b, chart)
    ensures entries.Ok? ==> report.Ok? && report.value.trialBalanceBalanced && report.value.entries == entries.value
    ensures entries.Ok? ==> report.value.afterCents == report.value.beforeCents - NetResult(balances)
    ensures entries.Ok? ==> forall account :: account != RETAINED_EARNINGS ==>
      Posted(entries.value, account) == -BalanceOf(balances, account)
  {
    DecemberIsValid(scope);
    entries := CloseAnnualResults(scope, balances, chart);
    if entries.Err? {
      return entries, Err(entries.error);
    }
    ClosedEntriesAreReportable(December(scope), balances, chart);
    report := BuildAnnualReport(entries.value, settlement, beforeCents);
  }
}
