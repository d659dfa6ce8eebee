/**
 Reordering the bank list and the ledger list changes nothing in a reconciliation but the order
 inside the two arrays of a conflict.
 */
module BankOrder {
  import opened Ordering
  import opened JsText
  import opened BankCompare
  import opened BankTheorems

  /** Equal, or the same conflict with its arrays in another order. */
  ghost predicate SameUpToArrays(d: Difference, e: Difference) {
    || d == e
    || (d.Conflict? && e.Conflict? && d.reference == e.reference
        && multiset(d.bank) == multiset(e.bank) && multiset(d.ledger) == multiset(e.ledger))
  }

  ghost predicate SameDifferences(ds: seq<Difference>, es: seq<Difference>) {
    |ds| == |es| && forall i :: 0 <= i < |ds| ==> SameUpToArrays(ds[i], es[i])
  }

  lemma SharingPermutes(s: seq<Movement>, t: seq<Movement>, r: Text)
    requires multiset(s) == multiset(t)
    ensures multiset(Sharing(s, r)) == multiset(Sharing(t, r))
    ensures |Sharing(s, r)| == |Sharing(t, r)|
    ensures |Sharing(s, r)| == 1 ==> Sharing(s, r) == Sharing(t, r)
  {
    var a, b := Sharing(s, r), Sharing(t, r);
    forall m ensures multiset(a)[m] == multiset(b)[m] {
      SharingCount(s, r, m);
      SharingCount(t, r, m);
      assert Count(s, m) == Count(t, m) && multiset(a)[m] == Count(a, m) && multiset(b)[m] == Count(b, m);
    }
    assert multiset(a) == multiset(b);
    assert |a| == |multiset(a)| && |b| == |multiset(b)|;
    if |a| == 1 {
      assert a == [a[0]] && b == [b[0]];
      assert a[0] in multiset(b);
    }
  }

  lemma KindPermutes(bank: seq<Movement>, ledger: seq<Movement>, bank': seq<Movement>, ledger': seq<Movement>, r: Text)
    requires multiset(bank) == multiset(bank') && multiset(ledger) == multiset(ledger')
    ensures KindOf(bank, ledger, r) == KindOf(bank', ledger', r)
  {
    SharingPermutes(bank, bank', r);
    SharingPermutes(ledger, ledger', r);
  }

  lemma ReferencesPermute(bank: seq<Movement>, ledger: seq<Movement>, bank': seq<Movement>, ledger': seq<Movement>)
    requires multiset(bank) == multiset(bank') && multiset(ledger) == multiset(ledger')
    ensures References(bank, ledger) == References(bank', ledger')
  {
    var s, t := Union(ReferencesOf(bank), ReferencesOf(ledger)), Union(ReferencesOf(bank'), ReferencesOf(ledger'));
    UnionOfSides(bank, ledger);
    UnionOfSides(bank', ledger');
    forall m ensures (m in bank <==> m in bank') && (m in ledger <==> m in ledger') {
      assert (m in multiset(bank) <==> m in multiset(bank')) && (m in multiset(ledger) <==> m in multiset(ledger'));
    }
    SortTexts(s, t);
  }

  lemma UnionOfSides(bank: seq<Movement>, ledger: seq<Movement>)
    ensures var refs := Union(ReferencesOf(bank), ReferencesOf(ledger));
      && Distinct(refs)
      && forall r :: r in refs <==>
         (exists m :: m in bank && m.reference == r) || (exists m :: m in ledger && m.reference == r)
  {
    ReferencesOfSide(bank);
    ReferencesOfSide(ledger);
    UnionDistinct(ReferencesOf(bank), ReferencesOf(ledger));
  }

  /** The reference pass, reordered: the same matches, and the same conflicts up to their arrays. */
  lemma {:induction false} ReferencePassPermutes(
    refs: seq<Text>, bank: seq<Movement>, ledger: seq<Movement>, bank': seq<Movement>, ledger': seq<Movement>)
    requires multiset(bank) == multiset(bank') && multiset(ledger) == multiset(ledger')
    ensures SameDifferences(Conflicts(refs, bank, ledger), Conflicts(refs, bank', ledger'))
    ensures ReferenceMatches(refs, bank, ledger) == ReferenceMatches(refs, bank', ledger')
    ensures TakenKeys(bank, refs, bank, ledger) == TakenKeys(bank', refs, bank', ledger')
    ensures TakenKeys(ledger, refs, bank, ledger) == TakenKeys(ledger', refs, bank', ledger')
  {
    if refs != [] {
      var r := refs[|refs| - 1];
      ReferencePassPermutes(refs[..|refs| - 1], bank, ledger, bank', ledger');
      KindPermutes(bank, ledger, bank', ledger', r);
      SharingPermutes(bank, bank', r);
      SharingPermutes(ledger, ledger', r);
      KeysPermute(Sharing(bank, r), Sharing(bank', r));
      KeysPermute(Sharing(ledger, r), Sharing(ledger', r));
    }
  }

  lemma KeysPermute(s: seq<Movement>, t: seq<Movement>)
    requires multiset(s) == multiset(t)
    ensures KeysOf(s) == KeysOf(t)
  {
    forall m ensures m in s <==> m in t {
      assert m in multiset(s) <==> m in multiset(t);
    }
  }

  lemma ByKeyIsOrder(before: KeyOrder)
    requires StrictWeakOrder(before)
    ensures StrictWeakOrder(ByKey(before))
  {
    var o := ByKey(before);
    assert forall a, b :: o(a, b) <==> before(a.sourceKey, b.sourceKey);
    forall a, b, c | o(a, b) && o(b, c) ensures o(a, c) {
      assert before(a.sourceKey, b.sourceKey) && before(b.sourceKey, c.sourceKey);
    }
    forall a, b, c | o(a, c) ensures o(a, b) || o(b, c) {
      assert before(a.sourceKey, c.sourceKey);
    }
  }

  /** The key order tells any two of the movements apart, so their keys are distinct too. */
  ghost predicate ToldApart(before: KeyOrder, s: seq<Movement>) {
    PairwiseComparable(ByKey(before), s)
  }

  lemma {:induction false} WithoutKeepsApart(before: KeyOrder, s: seq<Movement>, taken: set<Text>)
    requires ToldApart(before, s)
    ensures ToldApart(before, Without(s, taken)) && forall m :: m in Without(s, taken) ==> m in s
  {
    if s != [] {
      var front, last := s[..|s| - 1], s[|s| - 1];
      WithoutKeepsApart(before, front, taken);
      assert s == front + [last];
      forall m | m in Without(front, taken) ensures ByKey(before)(m, last) || ByKey(before)(last, m) {
        var i :| 0 <= i < |front| && front[i] == m;
        assert s[i] == m;
      }
    }
  }

  /** What is left of a side after the reference pass is sorted into one order, whatever the input order was. */
  lemma UnmatchedPermutes(before: KeyOrder, s: seq<Movement>, t: seq<Movement>, taken: set<Text>)
    requires StrictWeakOrder(before) && ToldApart(before, s) && multiset(s) == multiset(t)
    ensures StableSort(ByKey(before), Without(s, taken)) == StableSort(ByKey(before), Without(t, taken))
  {
    var a, b := Without(s, taken), Without(t, taken);
    forall m ensures multiset(a)[m] == multiset(b)[m] {
      WithoutCount(s, taken, m);
      WithoutCount(t, taken, m);
      assert Count(s, m) == Count(t, m) && multiset(a)[m] == Count(a, m) && multiset(b)[m] == Count(b, m);
    }
    ByKeyIsOrder(before);
    WithoutKeepsApart(before, s, taken);
    SortIgnoresInputOrder(ByKey(before), a, b);
  }

  /** With a consistent key order that tells the movements of each side apart, input order does not reach the result. */
  lemma OrderIndependence(before: KeyOrder, bank: seq<Movement>, ledger: seq<Movement>, bank': seq<Movement>,
                          ledger': seq<Movement>)
    requires StrictWeakOrder(before) && ToldApart(before, bank) && ToldApart(before, ledger)
    requires multiset(bank) == multiset(bank') && multiset(ledger) == multiset(ledger')
    ensures SameDifferences(Differences(before, bank, ledger), Differences(before, bank', ledger'))
  {
    var refs := References(bank, ledger);
    ReferencesPermute(bank, ledger, bank', ledger');
    ReferencePassPermutes(refs, bank, ledger, bank', ledger');
    UnmatchedPermutes(before, bank, bank', TakenKeys(bank, refs, bank, ledger));
    UnmatchedPermutes(before, ledger, ledger', TakenKeys(ledger, refs, bank, ledger));
    assert FallbackOf(before, bank, ledger) == FallbackOf(before, bank', ledger');
    var pass := FallbackOf(before, bank, ledger);
    var rest := ReferenceMatches(refs, bank, ledger) + pass.matches + pass.bankOnly + LedgerOnlies(pass.available);
    AppendSame(Conflicts(refs, bank, ledger), Conflicts(refs, bank', ledger'), rest);
    Regroup(Conflicts(refs, bank, ledger), ReferenceMatches(refs, bank, ledger), pass.matches, pass.bankOnly,
            LedgerOnlies(pass.available));
    Regroup(Conflicts(refs, bank', ledger'), ReferenceMatches(refs, bank, ledger), pass.matches, pass.bankOnly,
            LedgerOnlies(pass.available));
  }

  /** A total order tells movements apart exactly when their source keys are distinct. */
  lemma TotalOrderTellsApart(before: KeyOrder, s: seq<Movement>)
    requires StrictTotalOrder(before)
    ensures ToldApart(before, s) <==> DistinctKeys(s)
  {
    forall i, j | 0 <= i < j < |s|
      ensures ByKey(before)(s[i], s[j]) || ByKey(before)(s[j], s[i]) <==> s[i].sourceKey != s[j].sourceKey
    {
      assert s[i].sourceKey != s[j].sourceKey ==>
        before(s[i].sourceKey, s[j].sourceKey) || before(s[j].sourceKey, s[i].sourceKey);
    }
  }

  lemma AppendSame(ds: seq<Difference>, es: seq<Difference>, rest: seq<Difference>)
    requires SameDifferences(ds, es)
    ensures SameDifferences(ds + rest, es + rest)
  {
  }

  lemma Regroup(a: seq<Difference>, b: seq<Difference>, c: seq<Difference>, d: seq<Difference>, e: seq<Difference>)
    ensures a + b + c + d + e == a + (b + c + d + e)
  {
  }
}
