/**
 Consequences of a reconciliation for the cents, stated on the inputs: when matched movements agree,
 what the fallback leaves over, and when the net adjustment closes the gap.  The witnesses are
 movements that normalization accepts.
 */
module BankFacts {
  import opened Ordering
  import opened JsText
  import opened BankCompare
  import opened BankTheorems
  import opened BankPairing
  import opened BankReport
  import opened BankNormalize
  import FiscalScope

  // ------------------------------------------------- do matched cents agree?

  function SignedCents(m: Movement): int {
    Signed(m.side, m.amountCents)
  }

  /** The two movements that share a one-to-one reference move the same signed cents. */
  ghost predicate PairAgrees(bank: seq<Movement>, ledger: seq<Movement>, r: Text) {
    KindOf(bank, ledger, r) == OneToOne ==> SignedCents(Sharing(bank, r)[0]) == SignedCents(Sharing(ledger, r)[0])
  }

  ghost predicate CentsAgree(d: Difference) {
    d.Matched? ==> SignedCents(d.bankMovement) == SignedCents(d.ledgerMovement)
  }

  lemma {:induction false} MatchIsMade(refs: seq<Text>, bank: seq<Movement>, ledger: seq<Movement>, r: Text)
    requires r in refs && KindOf(bank, ledger, r) == OneToOne
    ensures Matched(Sharing(bank, r)[0], Sharing(ledger, r)[0]) in ReferenceMatches(refs, bank, ledger)
  {
    var front, last := refs[..|refs| - 1], refs[|refs| - 1];
    assert refs == front + [last];
    if last != r { MatchIsMade(front, bank, ledger, r); }
  }

  lemma SharedIsListed(bank: seq<Movement>, ledger: seq<Movement>, r: Text)
    requires KindOf(bank, ledger, r) == OneToOne
    ensures r in References(bank, ledger)
  {
    SharingIs(bank, r);
    ReferencesAreDistinct(bank, ledger);
    assert Sharing(bank, r)[0] in Sharing(bank, r);
  }

  /**
   Every matched pair agrees in signed cents exactly when every two movements that share a one-to-one
   reference do.
   */
  lemma MatchedCentsAgreeExactly(before: KeyOrder, bank: seq<Movement>, ledger: seq<Movement>)
    ensures (forall d :: d in Differences(before, bank, ledger) ==> CentsAgree(d)) <==>
            forall r :: PairAgrees(bank, ledger, r)
  {
    var refs, pass := References(bank, ledger), FallbackOf(before, bank, ledger);
    if forall d :: d in Differences(before, bank, ledger) ==> CentsAgree(d) {
      forall r ensures PairAgrees(bank, ledger, r) {
        if KindOf(bank, ledger, r) == OneToOne {
          SharedIsListed(bank, ledger, r);
          MatchIsMade(refs, bank, ledger, r);
          assert CentsAgree(Matched(Sharing(bank, r)[0], Sharing(ledger, r)[0]));
        }
      }
    }
    if forall r :: PairAgrees(bank, ledger, r) {
      ReferencePassForms(refs, bank, ledger);
      FallbackForms(Unmatched(before, bank, bank, ledger), Unmatched(before, ledger, bank, ledger));
      forall d | d in ReferenceMatches(refs, bank, ledger) ensures CentsAgree(d) {
        var r :| KindOf(bank, ledger, r) == OneToOne && d == Matched(Sharing(bank, r)[0], Sharing(ledger, r)[0]);
        assert PairAgrees(bank, ledger, r);
      }
    }
  }

  lemma LonePairIsSettled(b: Movement, l: Movement)
    requires b.reference == l.reference
    ensures var r := b.reference;
      && KindOf([b], [l], r) == OneToOne && References([b], [l]) == [r] && Conflicts([r], [b], [l]) == []
      && ReferenceMatches([r], [b], [l]) == [Matched(b, l)]
      && TakenKeys([b], [r], [b], [l]) == {b.sourceKey} && TakenKeys([l], [r], [b], [l]) == {l.sourceKey}
  {
    var r := b.reference;
    OneMovement(b);
    OneMovement(l);
    OneReferenceOnly([b], [l], r);
    SettlesOne([b], [l], r);
    KeysOfFew(b);
    KeysOfFew(l);
  }

  /** The reference pass over a single one-to-one reference. */
  lemma SettlesOne(bank: seq<Movement>, ledger: seq<Movement>, r: Text)
    requires KindOf(bank, ledger, r) == OneToOne
    ensures Conflicts([r], bank, ledger) == []
    ensures ReferenceMatches([r], bank, ledger) == [Matched(Sharing(bank, r)[0], Sharing(ledger, r)[0])]
    ensures TakenKeys(bank, [r], bank, ledger) == KeysOf(Sharing(bank, r))
    ensures TakenKeys(ledger, [r], bank, ledger) == KeysOf(Sharing(ledger, r))
  {
    assert [r][..0] == [];
  }

  /** One movement a side under one reference: matched, whatever the amounts. */
  lemma LonePairIsMatched(before: KeyOrder, b: Movement, l: Movement)
    requires b.reference == l.reference
    ensures Differences(before, [b], [l]) == [Matched(b, l)]
  {
    LonePairIsSettled(b, l);
    LoneIsTaken(b);
    LoneIsTaken(l);
    assert Unmatched(before, [b], [b], [l]) == [] && Unmatched(before, [l], [b], [l]) == [];
    assert FallbackOf(before, [b], [l]) == Pass([], [], []);
    assert LedgerOnlies([]) == [];
  }

  lemma LoneIsTaken(m: Movement)
    ensures Without([m], {m.sourceKey}) == []
  {
    assert [m][..0] == [];
  }

  lemma OneMovement(m: Movement)
    ensures ReferencesOf([m]) == [m.reference] && Sharing([m], m.reference) == [m]
    ensures Total([m]) == SignedCents(m)
  {
    assert [m][..0] == [];
    UnionOne([], m.reference);
  }

  lemma OneReferenceOnly(bank: seq<Movement>, ledger: seq<Movement>, r: Text)
    requires ReferencesOf(bank) == [r] && ReferencesOf(ledger) == [r]
    ensures References(bank, ledger) == [r]
  {
    UnionOne([r], r);
    assert [r][1..] == [] && StableSort(LexLess, [r][1..]) == [];
  }

  const JANUARY_31: Text := Ascii("2025-01-31")

  lemma ValueOneMore(t: Text, d: CodeUnit)
    requires AllDigits(t) && IsDigit(d)
    ensures AllDigits(t + [d]) && Value(t + [d]) == Value(t) * 10 + (d as int - ZERO as int)
  {
    assert (t + [d])[..|t|] == t;
  }

  lemma FourDigitValue(t: Text)
    requires |t| == 4 && AllDigits(t)
    ensures Value(t) == (Value(t[..2]) * 10 + (t[2] as int - ZERO as int)) * 10 + (t[3] as int - ZERO as int)
  {
    assert t[2] in t && t[3] in t;
    ValueOneMore(t[..2], t[2]);
    ValueOneMore(t[..3], t[3]);
    assert t[..2] + [t[2]] == t[..3] && t[..3] + [t[3]] == t;
  }

  lemma JanuaryIsReal()
    ensures ValidDate(JANUARY_31)
  {
    var d := JANUARY_31;
    var year, month, day := d[..4], d[5..7], d[8..];
    assert year == [0x32, 0x30, 0x32, 0x35] && month == [0x30, 0x31] && day == [0x33, 0x31];
    assert year[..2] == [0x32, 0x30];
    FourDigitValue(year);
    FiscalScope.TwoDigitValue(year[..2]);
    FiscalScope.TwoDigitValue(month);
    FiscalScope.TwoDigitValue(day);
  }

  /** A movement as normalization accepts it: reference and source key `A1`, dated 31 January 2025. */
  function Witness(dialect: Dialect, cents: int): Movement {
    Movement(JANUARY_31, [0x61, 0x31], cents, Inflow, dialect.source, [0x61, 0x31])
  }

  lemma WitnessIsSound(dialect: Dialect, cents: int)
    requires cents > 0
    ensures Sound(dialect, Witness(dialect, cents))
  {
    JanuaryIsReal();
  }

  /** A reference match does not compare amounts: a fully matched reconciliation may hide a difference in cents. */
  lemma MatchedMayDifferInCents(before: KeyOrder, bankDialect: Dialect, ledgerDialect: Dialect)
    ensures var b, l := Witness(bankDialect, 100), Witness(ledgerDialect, 250);
      && Sound(bankDialect, b) && Sound(ledgerDialect, l)
      && Differences(before, [b], [l]) == [Matched(b, l)] && Total([b]) - Total([l]) == -150
  {
    var b, l := Witness(bankDialect, 100), Witness(ledgerDialect, 250);
    WitnessIsSound(bankDialect, 100);
    WitnessIsSound(ledgerDialect, 250);
    LonePairIsMatched(before, b, l);
    OneMovement(b);
    OneMovement(l);
  }

  // ------------------------------------------- what the fallback leaves over

  /** The movements of a side whose reference the reference pass leaves open. */
  function OpenOf(side: seq<Movement>, bank: seq<Movement>, ledger: seq<Movement>): seq<Movement> {
    if side == [] then []
    else
      var last := side[|side| - 1];
      OpenOf(side[..|side| - 1], bank, ledger) + (if KindOf(bank, ledger, last.reference) == Open then [last] else [])
  }

  lemma {:induction false} OpenCount(side: seq<Movement>, bank: seq<Movement>, ledger: seq<Movement>, m: Movement)
    ensures Count(OpenOf(side, bank, ledger), m) == if KindOf(bank, ledger, m.reference) == Open then Count(side, m)
                                                    else 0
  {
    if side != [] {
      var front, last := side[..|side| - 1], side[|side| - 1];
      OpenCount(front, bank, ledger, m);
      CountLast(side, m);
      CountConcat(OpenOf(front, bank, ledger), [last], m);
      CountConcat(OpenOf(front, bank, ledger), [], m);
    }
  }

  /** What reaches the fallback is what the references leave open. */
  lemma UnmatchedIsOpenOf(before: KeyOrder, side: seq<Movement>, bank: seq<Movement>, ledger: seq<Movement>)
    requires DistinctKeys(side) && (side == bank || side == ledger)
    ensures multiset(Unmatched(before, side, bank, ledger)) == multiset(OpenOf(side, bank, ledger))
  {
    var a, b := Unmatched(before, side, bank, ledger), OpenOf(side, bank, ledger);
    ReferencesAreDistinct(bank, ledger);
    forall m ensures multiset(a)[m] == multiset(b)[m] {
      UnmatchedCount(before, side, bank, ledger, m);
      OpenCount(side, bank, ledger, m);
      assert multiset(a)[m] == Count(a, m) && multiset(b)[m] == Count(b, m);
      assert m in side ==> m.reference in References(bank, ledger);
      assert m !in side ==> Count(side, m) == 0;
    }
  }

  /** The match keys of a side, each once. */
  function KeysOnce(ms: seq<Movement>): seq<MatchKey> {
    if ms == [] then []
    else
      var front, key := KeysOnce(ms[..|ms| - 1]), KeyOf(ms[|ms| - 1]);
      if key in front then front else front + [key]
  }

  function KeyCents(key: MatchKey): int {
    Signed(key.side, key.amountCents)
  }

  /** Over the given keys, how many more movements the one side has than the other, times the key's signed cents. */
  function Surplus(keys: seq<MatchKey>, ms: seq<Movement>, other: seq<Movement>): int {
    if keys == [] then 0
    else
      var key := keys[|keys| - 1];
      Surplus(keys[..|keys| - 1], ms, other) + Excess(key, ms, other) * KeyCents(key)
  }

  /** Over the given keys, the movements counted by key. */
  function ByKeyTotal(keys: seq<MatchKey>, ms: seq<Movement>): int {
    if keys == [] then 0
    else ByKeyTotal(keys[..|keys| - 1], ms) + KeyCount(ms, keys[|keys| - 1]) * KeyCents(keys[|keys| - 1])
  }

  lemma {:induction false} ByKeyOneMore(keys: seq<MatchKey>, ms: seq<Movement>, m: Movement)
    requires Distinct(keys)
    ensures ByKeyTotal(keys, ms + [m]) == ByKeyTotal(keys, ms) + (if KeyOf(m) in keys then SignedCents(m) else 0)
  {
    if keys != [] {
      var front, key := keys[..|keys| - 1], keys[|keys| - 1];
      ByKeyOneMore(front, ms, m);
      assert keys == front + [key];
      KeyCountLast(ms + [m], key);
      assert (ms + [m])[..|ms|] == ms;
      OneMoreTimes(KeyCount(ms, key), KeyCents(key));
    }
  }

  lemma OneMoreTimes(n: int, cents: int)
    ensures (n + 1) * cents == n * cents + cents
  {
  }

  lemma {:induction false} NoneByKey(keys: seq<MatchKey>)
    ensures ByKeyTotal(keys, []) == 0
  {
    if keys != [] {
      NoneByKey(keys[..|keys| - 1]);
      KeyCountLast([], keys[|keys| - 1]);
    }
  }

  /** A total can be taken key by key, over any distinct keys that cover the movements. */
  lemma {:induction false} TotalByKey(keys: seq<MatchKey>, ms: seq<Movement>)
    requires Distinct(keys) && forall m :: m in ms ==> KeyOf(m) in keys
    ensures Total(ms) == ByKeyTotal(keys, ms)
  {
    if ms == [] {
      NoneByKey(keys);
    } else {
      var front, last := ms[..|ms| - 1], ms[|ms| - 1];
      assert ms == front + [last];
      TotalByKey(keys, front);
      ByKeyOneMore(keys, front, last);
    }
  }

  lemma {:induction false} KeysOnceCover(ms: seq<Movement>)
    ensures Distinct(KeysOnce(ms)) && forall m :: m in ms ==> KeyOf(m) in KeysOnce(ms)
  {
    if ms != [] {
      KeysOnceCover(ms[..|ms| - 1]);
      assert ms == ms[..|ms| - 1] + [ms[|ms| - 1]];
    }
  }

  lemma SameKeyCount(a: seq<Movement>, b: seq<Movement>, key: MatchKey)
    requires multiset(a) == multiset(b)
    ensures KeyCount(a, key) == KeyCount(b, key)
  {
    KeysOfFewer(a, b, key);
    KeysOfFewer(b, a, key);
  }

  function Excess(key: MatchKey, ms: seq<Movement>, other: seq<Movement>): nat {
    if KeyCount(ms, key) > KeyCount(other, key) then KeyCount(ms, key) - KeyCount(other, key) else 0
  }

  lemma ExcessIsLeft(key: MatchKey, bs: seq<Movement>, ls: seq<Movement>, openBank: seq<Movement>,
                     openLedger: seq<Movement>)
    requires multiset(bs) == multiset(openBank) && multiset(ls) == multiset(openLedger)
    ensures KeyCount(Fallback(bs, ls).available, key) == Excess(key, openLedger, openBank)
  {
    PairsPerKey(bs, ls, key);
    SameKeyCount(bs, openBank, key);
    SameKeyCount(ls, openLedger, key);
  }

  lemma {:induction false} LeftoverByKey(keys: seq<MatchKey>, left: seq<Movement>, openBank: seq<Movement>,
                                         openLedger: seq<Movement>)
    requires forall key :: KeyCount(left, key) == Excess(key, openLedger, openBank)
    ensures ByKeyTotal(keys, left) == Surplus(keys, openLedger, openBank)
  {
    if keys != [] {
      LeftoverByKey(keys[..|keys| - 1], left, openBank, openLedger);
      assert KeyCount(left, keys[|keys| - 1]) == Excess(keys[|keys| - 1], openLedger, openBank);
    }
  }

  /** Only movements that were given can be left over. */
  lemma AvailableWasGiven(bs: seq<Movement>, ls: seq<Movement>, m: Movement)
    requires m in Fallback(bs, ls).available
    ensures m in ls
  {
    FallbackPartitions(bs, ls, m);
    assert Count(Fallback(bs, ls).available, m) > 0;
  }

  /** The ledger movements left over total, key by key, the ledger's surplus among the movements of open references. */
  lemma LeftoverIsSurplus(before: KeyOrder, bank: seq<Movement>, ledger: seq<Movement>)
    requires DistinctKeys(bank) && DistinctKeys(ledger)
    ensures var openBank, openLedger := OpenOf(bank, bank, ledger), OpenOf(ledger, bank, ledger);
      Total(FallbackOf(before, bank, ledger).available) == Surplus(KeysOnce(openLedger), openLedger, openBank)
  {
    var bs, ls := Unmatched(before, bank, bank, ledger), Unmatched(before, ledger, bank, ledger);
    var openBank, openLedger := OpenOf(bank, bank, ledger), OpenOf(ledger, bank, ledger);
    var keys := KeysOnce(openLedger);
    UnmatchedIsOpenOf(before, bank, bank, ledger);
    UnmatchedIsOpenOf(before, ledger, bank, ledger);
    KeysOnceCover(openLedger);
    forall m | m in Fallback(bs, ls).available ensures KeyOf(m) in keys {
      AvailableWasGiven(bs, ls, m);
      assert m in multiset(ls);
    }
    TotalByKey(keys, Fallback(bs, ls).available);
    forall key ensures KeyCount(Fallback(bs, ls).available, key) == Excess(key, openLedger, openBank) {
      ExcessIsLeft(key, bs, ls, openBank, openLedger);
    }
    LeftoverByKey(keys, Fallback(bs, ls).available, openBank, openLedger);
  }

  /**
   The net adjustment moves the ledger by the whole unmatched gap exactly when, among the movements of open
   references, the ledger's surplus over the bank per amount, date and side nets to zero cents.
   */
  lemma NetAdjustmentClosesGapExactly(before: KeyOrder, bank: seq<Movement>, ledger: seq<Movement>)
    requires DistinctKeys(bank) && DistinctKeys(ledger)
    ensures var pass, openBank, openLedger := FallbackOf(before, bank, ledger), OpenOf(bank, bank, ledger),
            OpenOf(ledger, bank, ledger);
      Total(UnmatchedMovements(Differences(before, bank, ledger)))
        == Gap(pass.bankOnly) + Gap(LedgerOnlies(pass.available))
      <==> Surplus(KeysOnce(openLedger), openLedger, openBank) == 0
  {
    LeftoverIsSurplus(before, bank, ledger);
    NetAdjustmentClosesGap(before, bank, ledger);
  }

  /** It need not: one ledger movement the bank lacks is adjusted by its cents in the wrong direction. */
  lemma NetAdjustmentMayMissGap(before: KeyOrder, dialect: Dialect)
    ensures var l := Witness(dialect, 100);
      && Sound(dialect, l) && DistinctKeys([l])
      && Total(UnmatchedMovements(Differences(before, [], [l]))) == 100
      && Total([]) - Total([l]) == -100
  {
    var l := Witness(dialect, 100);
    WitnessIsSound(dialect, 100);
    OneMovement(l);
    LoneLedgerIsLeft(before, l);
    assert [LedgerOnly(l)][..0] == [];
    var none: seq<Movement> := [];
    assert UnmatchedMovements([LedgerOnly(l)]) == none + [l] == [l];
  }

  lemma LoneLedgerIsLeft(before: KeyOrder, l: Movement)
    ensures Differences(before, [], [l]) == [LedgerOnly(l)]
  {
    var r := l.reference;
    var nothing: seq<Movement> := [];
    OneMovement(l);
    UnionOne([], r);
    assert References([], [l]) == [r] by {
      assert Union([], [r]) == [r];
      assert [r][1..] == [] && StableSort(LexLess, [r][1..]) == [];
    }
    assert KindOf([], [l], r) == Open;
    assert [r][..0] == [];
    assert Without([l], {}) == [l] by { assert [l][..0] == []; }
    assert StableSort(ByKey(before), [l]) == [l] by { assert [l][1..] == []; }
    OneMoreReference([r], 0, [], [l]);
    assert [r][..1] == [r];
    assert TakenKeys([l], [r], [], [l]) == {};
    assert Unmatched(before, nothing, [], [l]) == [] && Unmatched(before, [l], [], [l]) == [l];
    assert FallbackOf(before, [], [l]) == Pass([l], [], []);
    assert LedgerOnlies([l]) == [LedgerOnly(l)];
  }
}
