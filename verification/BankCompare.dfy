/**
 Matching and classification of bank and ledger movements (`bank-reconciliation/compare.ts`).
 */
module BankCompare {
  import opened Ordering
  import opened Wrappers
  import opened JsText
  import FiscalScope

  datatype Side = Inflow | Outflow

  datatype Source = FromBank | FromLedger

  datatype Movement = Movement(date: Text, reference: Text, amountCents: int, side: Side, source: Source,
                               sourceKey: Text)

  datatype Difference =
    | Conflict(reference: Text, bank: seq<Movement>, ledger: seq<Movement>)
    | Matched(bankMovement: Movement, ledgerMovement: Movement)
    | BankOnly(bankMovement: Movement)
    | LedgerOnly(ledgerMovement: Movement)

  datatype BankError = InvalidScope | UnclassifiedDifference

  datatype Reconciliation = Reconciliation(scope: FiscalScope.Scope, differences: seq<Difference>, fullyMatched: bool)

  /** `localeCompare` on source keys; `before(a, b)` when it is negative. */
  type KeyOrder = (Text, Text) -> bool

  function ByKey(before: KeyOrder): (Movement, Movement) -> bool {
    (a: Movement, b: Movement) => before(a.sourceKey, b.sourceKey)
  }

  // ------------------------------------------------------- reference pass

  /** The movements of a side that carry a reference, in input order. */
  function Sharing(ms: seq<Movement>, reference: Text): seq<Movement> {
    if ms == [] then []
    else
      var last := ms[|ms| - 1];
      Sharing(ms[..|ms| - 1], reference) + (if last.reference == reference then [last] else [])
  }

  /** What the reference pass makes of a reference. */
  datatype Kind = Ambiguous | OneToOne | Open

  function KindOf(bank: seq<Movement>, ledger: seq<Movement>, reference: Text): Kind {
    var b, l := Sharing(bank, reference), Sharing(ledger, reference);
    if |b| > 1 || |l| > 1 then Ambiguous else if |b| == 1 && |l| == 1 then OneToOne else Open
  }

  /** Adds what is not there yet, in order: the key order of a JavaScript `Map` or `Set`. */
  function Union(known: seq<Text>, more: seq<Text>): seq<Text> {
    if more == [] then known
    else
      var front, last := Union(known, more[..|more| - 1]), more[|more| - 1];
      if last in front then front else front + [last]
  }

  function ReferencesOf(ms: seq<Movement>): seq<Text> {
    if ms == [] then [] else Union(ReferencesOf(ms[..|ms| - 1]), [ms[|ms| - 1].reference])
  }

  function References(bank: seq<Movement>, ledger: seq<Movement>): seq<Text> {
    StableSort(LexLess, Union(ReferencesOf(bank), ReferencesOf(ledger)))
  }

  function Conflicts(refs: seq<Text>, bank: seq<Movement>, ledger: seq<Movement>): seq<Difference> {
    if refs == [] then []
    else
      var r := refs[|refs| - 1];
      Conflicts(refs[..|refs| - 1], bank, ledger)
      + (if KindOf(bank, ledger, r) == Ambiguous then [Conflict(r, Sharing(bank, r), Sharing(ledger, r))] else [])
  }

  function ReferenceMatches(refs: seq<Text>, bank: seq<Movement>, ledger: seq<Movement>): seq<Difference> {
    if refs == [] then []
    else
      var r := refs[|refs| - 1];
      ReferenceMatches(refs[..|refs| - 1], bank, ledger)
      + (if KindOf(bank, ledger, r) == OneToOne then [Matched(Sharing(bank, r)[0], Sharing(ledger, r)[0])] else [])
  }

  function KeysOf(ms: seq<Movement>): set<Text> {
    set m | m in ms :: m.sourceKey
  }

  /** The source keys of a side that the reference pass settles, over some of the references. */
  function TakenKeys(side: seq<Movement>, refs: seq<Text>, bank: seq<Movement>, ledger: seq<Movement>): set<Text> {
    if refs == [] then {}
    else
      var r := refs[|refs| - 1];
      TakenKeys(side, refs[..|refs| - 1], bank, ledger)
      + (if KindOf(bank, ledger, r) == Open then {} else KeysOf(Sharing(side, r)))
  }

  function Without(ms: seq<Movement>, taken: set<Text>): seq<Movement> {
    if ms == [] then []
    else
      var last := ms[|ms| - 1];
      Without(ms[..|ms| - 1], taken) + (if last.sourceKey in taken then [] else [last])
  }

  /** The movements of a side left to the fallback pass, in source key order. */
  function Unmatched(before: KeyOrder, side: seq<Movement>, bank: seq<Movement>, ledger: seq<Movement>): seq<Movement> {
    StableSort(ByKey(before), Without(side, TakenKeys(side, References(bank, ledger), bank, ledger)))
  }

  // -------------------------------------------------------- fallback pass

  /** Amount, date and side: what a fallback match has to agree on. */
  datatype MatchKey = MatchKey(amountCents: int, date: Text, side: Side)

  function KeyOf(m: Movement): MatchKey {
    MatchKey(m.amountCents, m.date, m.side)
  }

  /** Index of the first candidate with the key, or -1. */
  function FindCandidate(candidates: seq<Movement>, key: MatchKey): (index: int)
    ensures -1 <= index < |candidates|
    ensures index >= 0 ==> KeyOf(candidates[index]) == key && forall j :: 0 <= j < index ==> KeyOf(candidates[j]) != key
    ensures index == -1 ==> forall j :: 0 <= j < |candidates| ==> KeyOf(candidates[j]) != key
  {
    if candidates == [] then -1
    else if KeyOf(candidates[0]) == key then 0
    else
      var rest := FindCandidate(candidates[1..], key);
      if rest == -1 then -1 else rest + 1
  }

  function RemoveAt<T>(s: seq<T>, index: nat): seq<T>
    requires index < |s|
  {
    s[..index] + s[index + 1..]
  }

  /** The fallback pass so far: ledger movements still available, matches made, bank movements left alone. */
  datatype Pass = Pass(available: seq<Movement>, matches: seq<Difference>, bankOnly: seq<Difference>)

  function FallbackStep(pass: Pass, b: Movement): Pass {
    var index := FindCandidate(pass.available, KeyOf(b));
    if index == -1 then pass.(bankOnly := pass.bankOnly + [BankOnly(b)])
    else pass.(available := RemoveAt(pass.available, index), matches := pass.matches
               + [Matched(b, pass.available[index])])
  }

  function Fallback(bank: seq<Movement>, ledger: seq<Movement>): Pass {
    if bank == [] then Pass(ledger, [], []) else FallbackStep(Fallback(bank[..|bank| - 1], ledger), bank[|bank| - 1])
  }

  function FallbackOf(before: KeyOrder, bank: seq<Movement>, ledger: seq<Movement>): Pass {
    Fallback(Unmatched(before, bank, bank, ledger), Unmatched(before, ledger, bank, ledger))
  }

  function LedgerOnlies(ms: seq<Movement>): seq<Difference> {
    seq(|ms|, i requires 0 <= i < |ms| => LedgerOnly(ms[i]))
  }

  function Differences(before: KeyOrder, bank: seq<Movement>, ledger: seq<Movement>): seq<Difference> {
    var refs, pass := References(bank, ledger), FallbackOf(before, bank, ledger);
    Conflicts(refs, bank, ledger) + ReferenceMatches(refs, bank, ledger) + pass.matches + pass.bankOnly
    + LedgerOnlies(pass.available)
  }

  // -------------------------------------------------------- the operation

  /** `groups` files the movements under their references, and `order` is its key order. */
  ghost predicate Grouped(groups: map<Text, seq<Movement>>, order: seq<Text>, ms: seq<Movement>) {
    && order == ReferencesOf(ms)
    && (forall r :: r in groups <==> r in order)
    && (forall r :: r in groups ==> groups[r] == Sharing(ms, r))
    && (forall r :: r !in groups ==> Sharing(ms, r) == [])
  }

  lemma UnionOne(known: seq<Text>, r: Text)
    ensures Union(known, [r]) == if r in known then known else known + [r]
  {
    assert [r][..0] == [] && Union(known, []) == known;
  }

  lemma GroupOneMore(ms: seq<Movement>, i: nat)
    requires i < |ms|
    ensures var r := ms[i].reference;
      && ReferencesOf(ms[..i + 1])
         == (if r in ReferencesOf(ms[..i]) then ReferencesOf(ms[..i]) else ReferencesOf(ms[..i]) + [r])
      && Sharing(ms[..i + 1], r) == Sharing(ms[..i], r) + [ms[i]]
    ensures forall r :: r != ms[i].reference ==> Sharing(ms[..i + 1], r) == Sharing(ms[..i], r)
  {
    assert ms[..i + 1][..i] == ms[..i];
    UnionOne(ReferencesOf(ms[..i]), ms[i].reference);
    forall r | r != ms[i].reference ensures Sharing(ms[..i + 1], r) == Sharing(ms[..i], r) {
      assert Sharing(ms[..i], r) + [] == Sharing(ms[..i], r);
    }
  }

  lemma GroupedOneMore(groups: map<Text, seq<Movement>>, order: seq<Text>, ms: seq<Movement>, i: nat)
    requires i < |ms| && Grouped(groups, order, ms[..i])
    ensures var r := ms[i].reference;
      Grouped(groups[r := (if r in groups then groups[r] else []) + [ms[i]]],
              if r in groups then order else order + [r], ms[..i + 1])
  {
    GroupOneMore(ms, i);
    var r := ms[i].reference;
    var groups' := groups[r := (if r in groups then groups[r] else []) + [ms[i]]];
    forall q ensures if q in groups' then groups'[q] == Sharing(ms[..i + 1], q) else Sharing(ms[..i + 1], q) == [] {
      if q != r { assert Sharing(ms[..i + 1], q) == Sharing(ms[..i], q); }
    }
  }

  /** Files one more movement. */
  method GroupByReference(groups: map<Text, seq<Movement>>, order: seq<Text>, ms: seq<Movement>, i: nat)
    returns (groups': map<Text, seq<Movement>>, order': seq<Text>)
    requires i < |ms| && Grouped(groups, order, ms[..i])
    ensures Grouped(groups', order', ms[..i + 1])
  {
    var r := ms[i].reference;
    GroupedOneMore(groups, order, ms, i);
    if r in groups {
      groups', order' := groups[r := groups[r] + [ms[i]]], order;
    } else {
      groups', order' := groups[r := [] + [ms[i]]], order + [r];
    }
  }

  method GroupAll(ms: seq<Movement>) returns (groups: map<Text, seq<Movement>>, order: seq<Text>)
    ensures Grouped(groups, order, ms)
  {
    groups, order := map[], [];
    for i := 0 to |ms|
      invariant Grouped(groups, order, ms[..i])
    {
      groups, order := GroupByReference(groups, order, ms, i);
    }
    assert ms[..|ms|] == ms;
  }

  method Filter(ms: seq<Movement>, matched: set<Text>, conflicting: set<Text>) returns (left: seq<Movement>)
    ensures left == Without(ms, matched + conflicting)
  {
    left := [];
    for i := 0 to |ms|
      invariant left == Without(ms[..i], matched + conflicting)
    {
      assert ms[..i + 1][..i] == ms[..i];
      if ms[i].sourceKey !in matched && ms[i].sourceKey !in conflicting {
        left := left + [ms[i]];
      }
    }
    assert ms[..|ms|] == ms;
  }

  lemma KeysOfFew(m: Movement)
    ensures KeysOf([]) == {} && KeysOf([m]) == {m.sourceKey}
  {
    assert m in [m];
  }

  lemma GrowEither<T>(a: set<T>, b: set<T>, more: set<T>)
    ensures (a + more) + b == a + b + more && a + (b + more) == a + b + more
  {
  }

  lemma OneMoreReference(refs: seq<Text>, i: nat, bank: seq<Movement>, ledger: seq<Movement>)
    requires i < |refs|
    ensures var r := refs[i]; var kind := KindOf(bank, ledger, r); var b, l := Sharing(bank, r), Sharing(ledger, r);
      && Conflicts(refs[..i + 1], bank, ledger) ==
           Conflicts(refs[..i], bank, ledger) + (if kind == Ambiguous then [Conflict(r, b, l)] else [])
      && ReferenceMatches(refs[..i + 1], bank, ledger) ==
           ReferenceMatches(refs[..i], bank, ledger) + (if kind == OneToOne then [Matched(b[0], l[0])] else [])
      && TakenKeys(bank, refs[..i + 1], bank, ledger) ==
           TakenKeys(bank, refs[..i], bank, ledger) + (if kind == Open then {} else KeysOf(b))
      && TakenKeys(ledger, refs[..i + 1], bank, ledger) ==
           TakenKeys(ledger, refs[..i], bank, ledger) + (if kind == Open then {} else KeysOf(l))
      && (kind == OneToOne ==> b == [b[0]] && l == [l[0]])
  {
    assert refs[..i + 1][..i] == refs[..i];
  }

  /** Settles what the references decide, and returns what each side has left. */
  method ReferencePass(bank: seq<Movement>, ledger: seq<Movement>)
    returns (conflicts: seq<Difference>, referenceMatches: seq<Difference>, bankLeft: seq<Movement>,
             ledgerLeft: seq<Movement>)
    ensures var refs := References(bank, ledger);
      && conflicts == Conflicts(refs, bank, ledger) && referenceMatches == ReferenceMatches(refs, bank, ledger)
      && bankLeft == Without(bank, TakenKeys(bank, refs, bank, ledger))
      && ledgerLeft == Without(ledger, TakenKeys(ledger, refs, bank, ledger))
  {
    var bankByReference, bankOrder := GroupAll(bank);
    var ledgerByReference, ledgerOrder := GroupAll(ledger);
    var bankMatched, ledgerMatched, conflictBankKeys, conflictLedgerKeys := {}, {}, {}, {};
    conflicts, referenceMatches := [], [];
    var references := StableSort(LexLess, Union(bankOrder, ledgerOrder));
    for i := 0 to |references|
      invariant conflicts == Conflicts(references[..i], bank, ledger)
      invariant referenceMatches == ReferenceMatches(references[..i], bank, ledger)
      invariant bankMatched + conflictBankKeys == TakenKeys(bank, references[..i], bank, ledger)
      invariant ledgerMatched + conflictLedgerKeys == TakenKeys(ledger, references[..i], bank, ledger)
    {
      OneMoreReference(references, i, bank, ledger);
      GrowEither(bankMatched, conflictBankKeys, KeysOf(Sharing(bank, references[i])));
      GrowEither(ledgerMatched, conflictLedgerKeys, KeysOf(Sharing(ledger, references[i])));
      var reference := references[i];
      var bankSide := if reference in bankByReference then bankByReference[reference] else [];
      var ledgerSide := if reference in ledgerByReference then ledgerByReference[reference] else [];
      if |bankSide| > 1 || |ledgerSide| > 1 {
        conflicts := conflicts + [Conflict(reference, bankSide, ledgerSide)];
        conflictBankKeys := conflictBankKeys + KeysOf(bankSide);
        conflictLedgerKeys := conflictLedgerKeys + KeysOf(ledgerSide);
      } else if |bankSide| == 1 && |ledgerSide| == 1 {
        referenceMatches := referenceMatches + [Matched(bankSide[0], ledgerSide[0])];
        KeysOfFew(bankSide[0]);
        KeysOfFew(ledgerSide[0]);
        bankMatched := bankMatched + {bankSide[0].sourceKey};
        ledgerMatched := ledgerMatched + {ledgerSide[0].sourceKey};
      }
    }
    assert references[..|references|] == references;
    bankLeft := Filter(bank, bankMatched, conflictBankKeys);
    ledgerLeft := Filter(ledger, ledgerMatched, conflictLedgerKeys);
  }

  /** Pairs what is left, one to one, taking each chosen candidate out of the available list. */
  method FallbackPass(unmatchedBank: seq<Movement>, unmatchedLedger: seq<Movement>)
    returns (availableLedger: seq<Movement>, fallbackMatches: seq<Difference>, bankOnly: seq<Difference>)
    ensures Pass(availableLedger, fallbackMatches, bankOnly) == Fallback(unmatchedBank, unmatchedLedger)
  {
    availableLedger, fallbackMatches, bankOnly := unmatchedLedger, [], [];
    for i := 0 to |unmatchedBank|
      invariant Fallback(unmatchedBank[..i], unmatchedLedger) == Pass(availableLedger, fallbackMatches, bankOnly)
    {
      assert unmatchedBank[..i + 1][..i] == unmatchedBank[..i];
      var ledgerIndex := FindCandidate(availableLedger, KeyOf(unmatchedBank[i]));
      if ledgerIndex == -1 {
        bankOnly := bankOnly + [BankOnly(unmatchedBank[i])];
      } else {
        fallbackMatches := fallbackMatches + [Matched(unmatchedBank[i], availableLedger[ledgerIndex])];
        availableLedger := RemoveAt(availableLedger, ledgerIndex);
      }
    }
    assert unmatchedBank[..|unmatchedBank|] == unmatchedBank;
  }

  method Reconcile(before: KeyOrder, scope: FiscalScope.Scope, bank: seq<Movement>, ledger: seq<Movement>)
    returns (r: Result<Reconciliation, BankError>)
    ensures r.Err? <==> !FiscalScope.Valid(scope)
    ensures r.Err? ==> r.error == InvalidScope
    ensures r.Ok? ==> r.value.scope == scope && r.value.differences == Differences(before, bank, ledger)
    ensures r.Ok? ==> (r.value.fullyMatched <==> forall d :: d in Differences(before, bank, ledger) ==> d.Matched?)
  {
    if !FiscalScope.Valid(scope) {
      return Err(InvalidScope);
    }
    var conflicts, referenceMatches, bankLeft, ledgerLeft := ReferencePass(bank, ledger);
    var availableLedger, fallbackMatches, bankOnly :=
      FallbackPass(StableSort(ByKey(before), bankLeft), StableSort(ByKey(before), ledgerLeft));
    var differences := conflicts + referenceMatches + fallbackMatches + bankOnly + LedgerOnlies(availableLedger);
    r := Ok(Reconciliation(scope, differences, forall d :: d in differences ==> d.Matched?));
  }
}
