/**
 Adjustment drafts and the executive report (`bank-reconciliation/adjust.ts`,
 `bank-reconciliation/report.ts`), and the cents they conserve.
 */
module BankReport {
  import opened Ordering
  import opened Wrappers
  import opened JsText
  import opened BankCompare
  import opened BankTheorems
  import opened BankPairing
  import FiscalScope

  // ---------------------------------------------------------------- drafts

  datatype AdjustOptions = AdjustOptions(requireApproval: Option<bool>, approvalOverrides: map<Text, bool>)

  datatype DraftStatus = DraftOpen | PendingApproval

  /** A draft; `number` is the n of its id `adj-n`. */
  datatype Draft = Draft(number: nat, reference: Text, source: Source, amountCents: int, side: Side,
                         requireApproval: bool, status: DraftStatus)

  predicate IsUnmatched(d: Difference) {
    d.BankOnly? || d.LedgerOnly?
  }

  function UnmatchedMovement(d: Difference): Movement
    requires IsUnmatched(d)
  {
    if d.BankOnly? then d.bankMovement else d.ledgerMovement
  }

  /** The unmatched movements of a list of differences, in order. */
  function UnmatchedMovements(ds: seq<Difference>): seq<Movement> {
    if ds == [] then []
    else
      UnmatchedMovements(ds[..|ds| - 1])
      + (if IsUnmatched(ds[|ds| - 1]) then [UnmatchedMovement(ds[|ds| - 1])] else [])
  }

  predicate NeedsApproval(opts: AdjustOptions, sourceKey: Text) {
    if sourceKey in opts.approvalOverrides then opts.approvalOverrides[sourceKey]
    else if opts.requireApproval.Some? then opts.requireApproval.value
    else true
  }

  /** Exactly one draft per unmatched movement, in order and numbered from 1; none from a match or a conflict. */
  ghost predicate DraftsOf(ds: seq<Difference>, opts: AdjustOptions, drafts: seq<Draft>) {
    && |drafts| == |UnmatchedMovements(ds)|
    && forall i :: 0 <= i < |drafts| ==> IsDraft(i + 1, UnmatchedMovements(ds)[i], opts, drafts[i])
  }

  ghost predicate IsDraft(number: nat, m: Movement, opts: AdjustOptions, draft: Draft) {
    && draft.number == number && draft.reference == m.reference && draft.source == m.source
    && draft.amountCents == m.amountCents && draft.side == m.side
    && (draft.requireApproval <==> NeedsApproval(opts, m.sourceKey))
    && (draft.status == PendingApproval <==> draft.requireApproval)
  }

  method BuildAdjustments(ds: seq<Difference>, opts: AdjustOptions) returns (drafts: seq<Draft>)
    ensures DraftsOf(ds, opts, drafts)
  {
    var requireApprovalDefault := if opts.requireApproval.Some? then opts.requireApproval.value else true;
    drafts := [];
    var sequence := 0;
    for i := 0 to |ds|
      invariant sequence == |drafts| && DraftsOf(ds[..i], opts, drafts)
    {
      assert ds[..i + 1][..i] == ds[..i];
      if !ds[i].Matched? && !ds[i].Conflict? {
        var movement := if ds[i].BankOnly? then ds[i].bankMovement else ds[i].ledgerMovement;
        sequence := sequence + 1;
        var requireApproval :=
          if movement.sourceKey in opts.approvalOverrides then opts.approvalOverrides[movement.sourceKey]
          else requireApprovalDefault;
        drafts := drafts + [Draft(sequence, movement.reference, movement.source, movement.amountCents, movement.side,
                                  requireApproval, if requireApproval then PendingApproval else DraftOpen)];
      }
    }
    assert ds[..|ds|] == ds;
  }

  // ---------------------------------------------------------------- report

  datatype Balances = Balances(bankInitial: int, bankFinal: int, ledgerInitial: int, ledgerFinal: int)

  datatype Report = Report(scope: FiscalScope.Scope, balances: Balances, differences: seq<Difference>,
                           adjustments: seq<Draft>, netAdjustmentCents: int, reconciled: bool)

  function Signed(side: Side, cents: int): int {
    if side == Inflow then cents else -cents
  }

  /** Inflows minus outflows. */
  function Total(ms: seq<Movement>): int {
    if ms == [] then 0 else Total(ms[..|ms| - 1]) + Signed(ms[|ms| - 1].side, ms[|ms| - 1].amountCents)
  }

  const DEFAULT_OPTIONS := AdjustOptions(None, map[])

  /** The net adjustment is the signed sum of the unmatched movements; `reconciled` needs every difference matched. */
  method BuildReport(reconciliation: Reconciliation, balances: Balances) returns (r: Result<Report, BankError>)
    ensures r.Err? <==> !FiscalScope.Valid(reconciliation.scope)
    ensures r.Err? ==> r.error == InvalidScope
    ensures r.Ok? ==> var report := r.value;
      && report.scope == reconciliation.scope && report.balances == balances
      && report.differences == reconciliation.differences
      && DraftsOf(reconciliation.differences, DEFAULT_OPTIONS, report.adjustments)
      && report.netAdjustmentCents == Total(UnmatchedMovements(reconciliation.differences))
      && (report.reconciled <==>
            reconciliation.fullyMatched && balances.ledgerFinal + report.netAdjustmentCents == balances.bankFinal)
  {
    if !FiscalScope.Valid(reconciliation.scope) {
      return Err(InvalidScope);
    }
    var adjustments := BuildAdjustments(reconciliation.differences, DEFAULT_OPTIONS);
    ghost var unmatched := UnmatchedMovements(reconciliation.differences);
    var net := 0;
    for i := 0 to |adjustments|
      invariant net == Total(unmatched[..i])
    {
      assert unmatched[..i + 1][..i] == unmatched[..i];
      net := net + Signed(adjustments[i].side, adjustments[i].amountCents);
    }
    assert unmatched[..|unmatched|] == unmatched;
    r := Ok(Report(reconciliation.scope, balances, reconciliation.differences, adjustments, net,
                   reconciliation.fullyMatched && balances.ledgerFinal + net == balances.bankFinal));
  }

  // ---------------------------------------------------------- conservation

  lemma {:induction false} TotalConcat(a: seq<Movement>, b: seq<Movement>)
    ensures Total(a + b) == Total(a) + Total(b)
  {
    if b == [] {
      assert a + b == a;
    } else {
      TotalConcat(a, b[..|b| - 1]);
      FrontOfConcat(a, b);
    }
  }

  lemma {:induction false} TotalPermutes(a: seq<Movement>, b: seq<Movement>)
    requires multiset(a) == multiset(b)
    ensures Total(a) == Total(b)
  {
    assert |a| == |multiset(a)| == |multiset(b)| == |b|;
    if a != [] {
      var i := TakeOne(a, b);
      TotalPermutes(a[..|a| - 1], RemoveAt(b, i));
      TotalConcat(b[..i], b[i + 1..]);
      TotalConcat(b[..i], [b[i]]);
      TotalConcat(b[..i] + [b[i]], b[i + 1..]);
      assert b == b[..i] + [b[i]] + b[i + 1..];
      assert Total([b[i]]) == Signed(b[i].side, b[i].amountCents) by { assert [b[i]][..0] == []; }
    }
  }

  function AllAccounted(ds: seq<Difference>, book: Book): seq<Movement> {
    if ds == [] then [] else AllAccounted(ds[..|ds| - 1], book) + Accounted(ds[|ds| - 1], book)
  }

  /** By how much the bank side of the differences exceeds the ledger side. */
  function Gap(ds: seq<Difference>): int {
    if ds == [] then 0
    else Gap(ds[..|ds| - 1]) + Total(Accounted(ds[|ds| - 1], BankBook)) - Total(Accounted(ds[|ds| - 1], LedgerBook))
  }

  lemma {:induction false} AllAccountedFacts(ds: seq<Difference>, book: Book, m: Movement)
    ensures Count(AllAccounted(ds, book), m) == Tally(ds, book, m)
    ensures Total(AllAccounted(ds, BankBook)) - Total(AllAccounted(ds, LedgerBook)) == Gap(ds)
  {
    if ds != [] {
      var front, d := ds[..|ds| - 1], ds[|ds| - 1];
      AllAccountedFacts(front, book, m);
      CountConcat(AllAccounted(front, book), Accounted(d, book), m);
      TotalConcat(AllAccounted(front, BankBook), Accounted(d, BankBook));
      TotalConcat(AllAccounted(front, LedgerBook), Accounted(d, LedgerBook));
    }
  }

  lemma AccountedTotal(before: KeyOrder, bank: seq<Movement>, ledger: seq<Movement>, book: Book)
    requires DistinctKeys(bank) && DistinctKeys(ledger)
    ensures Total(AllAccounted(Differences(before, bank, ledger), book)) == Total(Input(book, bank, ledger))
  {
    var ds := Differences(before, bank, ledger);
    var a, b := AllAccounted(ds, book), Input(book, bank, ledger);
    forall m ensures multiset(a)[m] == multiset(b)[m] {
      AllAccountedFacts(ds, book, m);
      ReconciliationPartitions(before, bank, ledger, book, m);
      assert multiset(a)[m] == Count(a, m) && multiset(b)[m] == Count(b, m);
    }
    TotalPermutes(a, b);
  }

  lemma {:induction false} GapConcat(a: seq<Difference>, b: seq<Difference>)
    ensures Gap(a + b) == Gap(a) + Gap(b)
  {
    if b == [] {
      assert a + b == a;
    } else {
      GapConcat(a, b[..|b| - 1]);
      FrontOfConcat(a, b);
    }
  }

  lemma {:induction false} EqualKeysNoGap(ds: seq<Difference>)
    requires forall d :: d in ds ==> d.Matched? && KeyOf(d.bankMovement) == KeyOf(d.ledgerMovement)
    ensures Gap(ds) == 0
  {
    if ds != [] {
      var d := ds[|ds| - 1];
      EqualKeysNoGap(ds[..|ds| - 1]);
      assert d in ds;
      assert [d.bankMovement][..0] == [] && [d.ledgerMovement][..0] == [];
    }
  }

  /** Bank total minus ledger total is carried by reference matches, conflicts and unmatched movements alone. */
  lemma CentsAreConserved(before: KeyOrder, bank: seq<Movement>, ledger: seq<Movement>)
    requires DistinctKeys(bank) && DistinctKeys(ledger)
    ensures var refs, pass := References(bank, ledger), FallbackOf(before, bank, ledger);
      && Gap(pass.matches) == 0
      && Total(bank) - Total(ledger) ==
           Gap(Conflicts(refs, bank, ledger)) + Gap(ReferenceMatches(refs, bank, ledger))
           + Gap(pass.bankOnly) + Gap(LedgerOnlies(pass.available))
  {
    var refs, pass := References(bank, ledger), FallbackOf(before, bank, ledger);
    var c, r, o := Conflicts(refs, bank, ledger), ReferenceMatches(refs, bank, ledger), LedgerOnlies(pass.available);
    AccountedTotal(before, bank, ledger, BankBook);
    AccountedTotal(before, bank, ledger, LedgerBook);
    AllAccountedFacts(Differences(before, bank, ledger), BankBook, Movement([], [], 0, Inflow, FromBank, []));
    GapConcat(c, r);
    GapConcat(c + r, pass.matches);
    GapConcat(c + r + pass.matches, pass.bankOnly);
    GapConcat(c + r + pass.matches + pass.bankOnly, o);
    FallbackForms(Unmatched(before, bank, bank, ledger), Unmatched(before, ledger, bank, ledger));
    EqualKeysNoGap(pass.matches);
  }

  /** Movements left alone on one side, by their totals. */
  lemma {:induction false} BankOnlyGap(ds: seq<Difference>)
    requires forall d :: d in ds ==> d.BankOnly?
    ensures Gap(ds) == Total(UnmatchedMovements(ds))
  {
    if ds != [] {
      var front, d := ds[..|ds| - 1], ds[|ds| - 1];
      BankOnlyGap(front);
      assert d in ds;
      OneMoreTotal(UnmatchedMovements(front), d.bankMovement);
    }
  }

  lemma {:induction false} LedgerSideGap(ds: seq<Difference>)
    requires forall d :: d in ds ==> d.LedgerOnly?
    ensures Gap(ds) == -Total(UnmatchedMovements(ds))
  {
    if ds != [] {
      var front, d := ds[..|ds| - 1], ds[|ds| - 1];
      LedgerSideGap(front);
      assert d in ds;
      OneMoreTotal(UnmatchedMovements(front), d.ledgerMovement);
    }
  }

  lemma OneMoreTotal(ms: seq<Movement>, m: Movement)
    ensures Total(ms + [m]) == Total(ms) + Total([m]) && Total([]) == 0
  {
    TotalConcat(ms, [m]);
  }

  lemma {:induction false} NoneUnmatched(ds: seq<Difference>)
    requires forall d :: d in ds ==> d.Matched? || d.Conflict?
    ensures UnmatchedMovements(ds) == []
  {
    if ds != [] {
      NoneUnmatched(ds[..|ds| - 1]);
      assert ds[|ds| - 1] in ds;
    }
  }

  lemma {:induction false} UnmatchedConcat(a: seq<Difference>, b: seq<Difference>)
    ensures UnmatchedMovements(a + b) == UnmatchedMovements(a) + UnmatchedMovements(b)
  {
    if b == [] {
      assert a + b == a;
    } else {
      UnmatchedConcat(a, b[..|b| - 1]);
      FrontOfConcat(a, b);
    }
  }

  /** The net adjustment adds what only the bank has and what only the ledger has, with one sign. */
  lemma NetAdjustment(before: KeyOrder, bank: seq<Movement>, ledger: seq<Movement>)
    ensures var pass := FallbackOf(before, bank, ledger);
      Total(UnmatchedMovements(Differences(before, bank, ledger)))
        == Gap(pass.bankOnly) - Gap(LedgerOnlies(pass.available))
  {
    var refs, pass := References(bank, ledger), FallbackOf(before, bank, ledger);
    var c, r, o := Conflicts(refs, bank, ledger), ReferenceMatches(refs, bank, ledger), LedgerOnlies(pass.available);
    ReferencePassForms(refs, bank, ledger);
    FallbackForms(Unmatched(before, bank, bank, ledger), Unmatched(before, ledger, bank, ledger));
    NoneUnmatched(c);
    NoneUnmatched(r);
    NoneUnmatched(pass.matches);
    BankOnlyGap(pass.bankOnly);
    LedgerSideGap(o);
    UnmatchedConcat(c, r);
    UnmatchedConcat(c + r, pass.matches);
    UnmatchedConcat(c + r + pass.matches, pass.bankOnly);
    UnmatchedConcat(c + r + pass.matches + pass.bankOnly, o);
    TotalConcat(UnmatchedMovements(pass.bankOnly), UnmatchedMovements(o));
    var none: seq<Movement> := [];
    assert none + none + none + UnmatchedMovements(pass.bankOnly) == UnmatchedMovements(pass.bankOnly);
  }

  /**
   The report's identity, `ledgerFinal + net == bankFinal`, moves the ledger by the unmatched gap
   exactly when what only the ledger has nets to zero.
   */
  lemma NetAdjustmentClosesGap(before: KeyOrder, bank: seq<Movement>, ledger: seq<Movement>)
    ensures var pass := FallbackOf(before, bank, ledger);
      Total(UnmatchedMovements(Differences(before, bank, ledger)))
        == Gap(pass.bankOnly) + Gap(LedgerOnlies(pass.available))
      <==> Total(pass.available) == 0
  {
    var pass := FallbackOf(before, bank, ledger);
    NetAdjustment(before, bank, ledger);
    LedgerOnlyGap(pass.available);
  }

  lemma {:induction false} LedgerOnlyGap(ms: seq<Movement>)
    ensures Gap(LedgerOnlies(ms)) == -Total(ms)
  {
    if ms != [] {
      var front, m := ms[..|ms| - 1], ms[|ms| - 1];
      LedgerOnlyGap(front);
      assert LedgerOnlies(ms)[..|ms| - 1] == LedgerOnlies(front);
      assert [m][..0] == [];
    }
  }

  /** `reconciled` is exactly: every difference matched and the two final balances equal. */
  method ReconcileAndReport(before: KeyOrder, scope: FiscalScope.Scope, bank: seq<Movement>, ledger: seq<Movement>,
                            balances: Balances)
    returns (r: Result<Report, BankError>)
    ensures r.Ok? <==> FiscalScope.Valid(scope)
    ensures r.Ok? ==>
      (r.value.reconciled <==>
        (forall d :: d in Differences(before, bank, ledger) ==> d.Matched?)
          && balances.ledgerFinal == balances.bankFinal)
  {
    var reconciliation := Reconcile(before, scope, bank, ledger);
    if reconciliation.Err? {
      return Err(reconciliation.error);
    }
    r := BuildReport(reconciliation.value, balances);
    if reconciliation.value.fullyMatched {
      NoneUnmatched(reconciliation.value.differences);
    }
  }

  /** When everything is matched, the two totals differ by what the reference matches differ in, and by nothing else. */
  lemma FullyMatchedGap(before: KeyOrder, bank: seq<Movement>, ledger: seq<Movement>)
    requires DistinctKeys(bank) && DistinctKeys(ledger)
    requires forall d :: d in Differences(before, bank, ledger) ==> d.Matched?
    ensures Total(bank) - Total(ledger) == Gap(ReferenceMatches(References(bank, ledger), bank, ledger))
  {
    var refs, pass := References(bank, ledger), FallbackOf(before, bank, ledger);
    CentsAreConserved(before, bank, ledger);
    ReferencePassForms(refs, bank, ledger);
    FallbackForms(Unmatched(before, bank, bank, ledger), Unmatched(before, ledger, bank, ledger));
    var c, b, o := Conflicts(refs, bank, ledger), pass.bankOnly, LedgerOnlies(pass.available);
    assert forall d :: d in c || d in b || d in o ==> d in Differences(before, bank, ledger);
    HasMember(c);
    HasMember(b);
    HasMember(o);
  }

  lemma HasMember<T>(s: seq<T>)
    ensures s == [] || s[0] in s
  {
  }
}
