/**
 The fallback pass is as good as any pairing, and ambiguous references surface only as conflicts.
 */
module BankPairing {
  import opened Ordering
  import opened JsText
  import opened BankCompare
  import opened BankTheorems

  // ------------------------------------------------------ optimal pairing

  function KeySeq(ms: seq<Movement>): seq<MatchKey> {
    if ms == [] then [] else KeySeq(ms[..|ms| - 1]) + [KeyOf(ms[|ms| - 1])]
  }

  /** How many movements carry a match key. */
  function KeyCount(ms: seq<Movement>, key: MatchKey): nat {
    Count(KeySeq(ms), key)
  }

  /** The keys of the bank movements a list of differences accounts for. */
  function PairedKeys(ds: seq<Difference>): seq<MatchKey> {
    if ds == [] then []
    else PairedKeys(ds[..|ds| - 1]) + (if ds[|ds| - 1].LedgerOnly? || ds[|ds| - 1].Conflict? then []
                                       else [KeyOf(ds[|ds| - 1].bankMovement)])
  }

  lemma KeyCountLast(ms: seq<Movement>, key: MatchKey)
    ensures KeyCount([], key) == 0
    ensures ms != [] ==>
      KeyCount(ms, key) == KeyCount(ms[..|ms| - 1], key) + (if KeyOf(ms[|ms| - 1]) == key then 1 else 0)
  {
    if ms != [] { CountConcat(KeySeq(ms[..|ms| - 1]), [KeyOf(ms[|ms| - 1])], key); }
  }

  lemma PairedOneMore(ds: seq<Difference>, d: Difference, key: MatchKey)
    requires d.Matched? || d.BankOnly?
    ensures PairedKeys(ds + [d]) == PairedKeys(ds) + [KeyOf(d.bankMovement)]
    ensures Count(PairedKeys(ds + [d]), key)
            == Count(PairedKeys(ds), key) + (if KeyOf(d.bankMovement) == key then 1 else 0)
  {
    assert (ds + [d])[..|ds|] == ds;
    CountConcat(PairedKeys(ds), [KeyOf(d.bankMovement)], key);
  }

  lemma {:induction false} KeySeqConcat(a: seq<Movement>, b: seq<Movement>)
    ensures KeySeq(a + b) == KeySeq(a) + KeySeq(b)
  {
    if b == [] {
      assert a + b == a;
    } else {
      KeySeqConcat(a, b[..|b| - 1]);
      FrontOfConcat(a, b);
    }
  }

  lemma KeyCountRemoves(ms: seq<Movement>, index: nat, key: MatchKey)
    requires index < |ms|
    ensures KeyCount(ms, key) == KeyCount(RemoveAt(ms, index), key) + (if KeyOf(ms[index]) == key then 1 else 0)
  {
    var a, b := ms[..index], ms[index + 1..];
    assert ms == a + [ms[index]] + b;
    KeySeqConcat(a, [ms[index]]);
    KeySeqConcat(a + [ms[index]], b);
    KeySeqConcat(a, b);
    assert KeySeq([ms[index]]) == [KeyOf(ms[index])];
  }

  lemma {:induction false} KeyCountPositive(ms: seq<Movement>, key: MatchKey)
    ensures KeyCount(ms, key) > 0 <==> exists i :: 0 <= i < |ms| && KeyOf(ms[i]) == key
  {
    KeyCountLast(ms, key);
    if ms != [] {
      KeyCountPositive(ms[..|ms| - 1], key);
      if KeyOf(ms[|ms| - 1]) != key && KeyCount(ms, key) > 0 {
        var i :| 0 <= i < |ms[..|ms| - 1]| && KeyOf(ms[..|ms| - 1][i]) == key;
        assert KeyOf(ms[i]) == key;
      }
      if i :| 0 <= i < |ms| && KeyOf(ms[i]) == key {
        assert i < |ms| - 1 ==> KeyOf(ms[..|ms| - 1][i]) == key;
      }
    }
  }

  /** For each key the pass makes min(bank count, ledger count) pairs, and leaves exactly the surplus. */
  lemma {:induction false} PairsPerKey(bs: seq<Movement>, ls: seq<Movement>, key: MatchKey)
    ensures var pass, b, l := Fallback(bs, ls), KeyCount(bs, key), KeyCount(ls, key);
      var min := if b < l then b else l;
      && Count(PairedKeys(pass.matches), key) == min
      && Count(PairedKeys(pass.bankOnly), key) == b - min
      && KeyCount(pass.available, key) == l - min
      && |PairedKeys(pass.matches)| == |pass.matches|
  {
    KeyCountLast(bs, key);
    if bs != [] {
      var front, b := bs[..|bs| - 1], bs[|bs| - 1];
      PairsPerKey(front, ls, key);
      PairsPerKeyStep(Fallback(front, ls), b, key);
    }
  }

  lemma PairsPerKeyStep(pass: Pass, b: Movement, key: MatchKey)
    ensures var pass', hit := FallbackStep(pass, b), KeyOf(b) == key;
      var found := KeyCount(pass.available, key) > 0;
      && Count(PairedKeys(pass'.matches), key) == Count(PairedKeys(pass.matches), key) + (if hit && found then 1 else 0)
      && Count(PairedKeys(pass'.bankOnly), key)
         == Count(PairedKeys(pass.bankOnly), key) + (if hit && !found then 1 else 0)
      && KeyCount(pass'.available, key) == KeyCount(pass.available, key) - (if hit && found then 1 else 0)
      && (|PairedKeys(pass.matches)| == |pass.matches| ==> |PairedKeys(pass'.matches)| == |pass'.matches|)
  {
    var index := FindCandidate(pass.available, KeyOf(b));
    KeyCountPositive(pass.available, KeyOf(b));
    if index == -1 {
      PairedOneMore(pass.bankOnly, BankOnly(b), key);
    } else {
      PairedOneMore(pass.matches, Matched(b, pass.available[index]), key);
      KeyCountRemoves(pass.available, index, key);
    }
  }

  /** No bank movement and no ledger movement left over by the pass could still have been paired. */
  lemma NothingPairableIsLeft(bs: seq<Movement>, ls: seq<Movement>, d: Difference, l: Movement)
    requires d in Fallback(bs, ls).bankOnly && d.BankOnly? && l in Fallback(bs, ls).available
    ensures KeyOf(d.bankMovement) != KeyOf(l)
  {
    var pass, key := Fallback(bs, ls), KeyOf(l);
    PairsPerKey(bs, ls, key);
    var i :| 0 <= i < |pass.available| && pass.available[i] == l;
    KeyCountPositive(pass.available, key);
    if KeyOf(d.bankMovement) == key {
      PairedMember(pass.bankOnly, d);
    }
  }

  lemma {:induction false} PairedMember(ds: seq<Difference>, d: Difference)
    requires d in ds && (d.Matched? || d.BankOnly?)
    ensures Count(PairedKeys(ds), KeyOf(d.bankMovement)) > 0
  {
    var front, last := ds[..|ds| - 1], ds[|ds| - 1];
    assert ds == front + [last];
    if last != d { PairedMember(front, d); }
  }

  /** A one-to-one pairing of equal keys within the two given lists. */
  ghost predicate IsPairing(pairs: seq<(Movement, Movement)>, bs: seq<Movement>, ls: seq<Movement>) {
    && multiset(Firsts(pairs)) <= multiset(bs) && multiset(Seconds(pairs)) <= multiset(ls)
    && forall i :: 0 <= i < |pairs| ==> KeyOf(pairs[i].0) == KeyOf(pairs[i].1)
  }

  function Firsts(pairs: seq<(Movement, Movement)>): seq<Movement> {
    seq(|pairs|, i requires 0 <= i < |pairs| => pairs[i].0)
  }

  function Seconds(pairs: seq<(Movement, Movement)>): seq<Movement> {
    seq(|pairs|, i requires 0 <= i < |pairs| => pairs[i].1)
  }

  /** Fewer movements have fewer keys. */
  lemma {:induction false} KeysOfFewer(a: seq<Movement>, b: seq<Movement>, key: MatchKey)
    requires multiset(a) <= multiset(b)
    ensures KeyCount(a, key) <= KeyCount(b, key)
  {
    KeyCountLast(a, key);
    if a != [] {
      var i := TakeOne(a, b);
      KeysOfFewer(a[..|a| - 1], RemoveAt(b, i), key);
      KeyCountRemoves(b, i, key);
    }
  }

  /** The last element of `a` can be struck from any list that has all of `a`. */
  lemma TakeOne<T>(a: seq<T>, b: seq<T>) returns (i: nat)
    requires a != [] && multiset(a) <= multiset(b)
    ensures i < |b| && b[i] == a[|a| - 1]
    ensures multiset(a[..|a| - 1]) <= multiset(RemoveAt(b, i))
    ensures multiset(a) == multiset(b) ==> multiset(a[..|a| - 1]) == multiset(RemoveAt(b, i))
  {
    var x := a[|a| - 1];
    assert a == a[..|a| - 1] + [x];
    assert x in multiset(b);
    i :| 0 <= i < |b| && b[i] == x;
    assert b == b[..i] + [x] + b[i + 1..];
    assert multiset(RemoveAt(b, i)) == multiset(b) - multiset{x};
    assert multiset(a[..|a| - 1]) == multiset(a) - multiset{x};
  }

  lemma {:induction false} KeySeqAt(ms: seq<Movement>)
    ensures |KeySeq(ms)| == |ms| && forall i :: 0 <= i < |ms| ==> KeySeq(ms)[i] == KeyOf(ms[i])
  {
    if ms != [] { KeySeqAt(ms[..|ms| - 1]); }
  }

  lemma SubMultisetIsSmaller<T>(a: multiset<T>, b: multiset<T>)
    requires a <= b
    ensures |a| <= |b|
  {
    assert b == a + (b - a);
  }

  /** No one-to-one pairing on equal amount, date and side makes more pairs than the greedy pass. */
  lemma GreedyIsOptimal(bs: seq<Movement>, ls: seq<Movement>, pairs: seq<(Movement, Movement)>)
    requires IsPairing(pairs, bs, ls)
    ensures |pairs| <= |Fallback(bs, ls).matches|
  {
    var pass := Fallback(bs, ls);
    var firsts, seconds := Firsts(pairs), Seconds(pairs);
    KeySeqAt(firsts);
    KeySeqAt(seconds);
    assert KeySeq(firsts) == KeySeq(seconds);
    forall key ensures Count(KeySeq(firsts), key) <= Count(PairedKeys(pass.matches), key) {
      KeysOfFewer(firsts, bs, key);
      KeysOfFewer(seconds, ls, key);
      PairsPerKey(bs, ls, key);
    }
    assert forall key :: multiset(KeySeq(firsts))[key] == Count(KeySeq(firsts), key);
    assert forall key :: multiset(PairedKeys(pass.matches))[key] == Count(PairedKeys(pass.matches), key);
    SubMultisetIsSmaller(multiset(KeySeq(firsts)), multiset(PairedKeys(pass.matches)));
    PairsPerKey(bs, ls, MatchKey(0, [], Inflow));
    assert |multiset(KeySeq(firsts))| == |KeySeq(firsts)| == |pairs|;
    assert |multiset(PairedKeys(pass.matches))| == |PairedKeys(pass.matches)|;
  }

  // ------------------------------------------------ ambiguity is surfaced

  lemma {:induction false} TallyMember(ds: seq<Difference>, d: Difference, book: Book, m: Movement)
    requires d in ds && m in Accounted(d, book)
    ensures Tally(ds, book, m) > 0
  {
    var front, last := ds[..|ds| - 1], ds[|ds| - 1];
    assert ds == front + [last];
    if last != d { TallyMember(front, d, book, m); }
  }

  lemma {:induction false} ReferencePassForms(refs: seq<Text>, bank: seq<Movement>, ledger: seq<Movement>)
    ensures forall d :: d in Conflicts(refs, bank, ledger) ==>
      d.Conflict? && d == Conflict(d.reference, Sharing(bank, d.reference), Sharing(ledger, d.reference))
      && KindOf(bank, ledger, d.reference) == Ambiguous
    ensures forall d :: d in ReferenceMatches(refs, bank, ledger) ==>
      d.Matched? && exists r :: (
        KindOf(bank, ledger, r) == OneToOne
        && d == Matched(Sharing(bank, r)[0], Sharing(ledger, r)[0]))
  {
    if refs != [] {
      ReferencePassForms(refs[..|refs| - 1], bank, ledger);
    }
  }

  lemma {:induction false} FallbackForms(bs: seq<Movement>, ls: seq<Movement>)
    ensures var pass := Fallback(bs, ls);
      && (forall d :: d in pass.matches ==> d.Matched? && KeyOf(d.bankMovement) == KeyOf(d.ledgerMovement))
      && (forall d :: d in pass.bankOnly ==> d.BankOnly?)
  {
    if bs != [] { FallbackForms(bs[..|bs| - 1], ls); }
  }

  lemma UnmatchedIsOpen(before: KeyOrder, side: seq<Movement>, bank: seq<Movement>, ledger: seq<Movement>, m: Movement)
    requires DistinctKeys(side) && (side == bank || side == ledger)
    requires Count(Unmatched(before, side, bank, ledger), m) > 0
    ensures KindOf(bank, ledger, m.reference) == Open
  {
    UnmatchedCount(before, side, bank, ledger, m);
    ReferencesAreDistinct(bank, ledger);
    assert m in side;
  }

  /**
   A reference with several movements on a side appears in a conflict and nowhere else; other conflicts
   do not exist.
   */
  lemma AmbiguityIsSurfaced(before: KeyOrder, bank: seq<Movement>, ledger: seq<Movement>, d: Difference, book: Book,
                            m: Movement)
    requires DistinctKeys(bank) && DistinctKeys(ledger)
    requires d in Differences(before, bank, ledger) && m in Accounted(d, book)
    ensures d.Conflict? <==> KindOf(bank, ledger, m.reference) == Ambiguous
    ensures d.Conflict? ==> d.reference == m.reference
  {
    var refs, pass := References(bank, ledger), FallbackOf(before, bank, ledger);
    var bs, ls := Unmatched(before, bank, bank, ledger), Unmatched(before, ledger, bank, ledger);
    ReferencePassForms(refs, bank, ledger);
    FallbackForms(bs, ls);
    FallbackPartitions(bs, ls, m);
    if d in Conflicts(refs, bank, ledger) {
      SharingIs(bank, d.reference);
      SharingIs(ledger, d.reference);
    } else if d in ReferenceMatches(refs, bank, ledger) {
      var r :| KindOf(bank, ledger, r) == OneToOne && d == Matched(Sharing(bank, r)[0], Sharing(ledger, r)[0]);
      SharingIs(bank, r);
      SharingIs(ledger, r);
    } else {
      LeftoverIsOpen(before, bank, ledger, d, book, m);
    }
  }

  lemma LeftoverIsOpen(before: KeyOrder, bank: seq<Movement>, ledger: seq<Movement>, d: Difference, book: Book,
                       m: Movement)
    requires DistinctKeys(bank) && DistinctKeys(ledger) && m in Accounted(d, book)
    requires var pass := FallbackOf(before, bank, ledger);
      d in pass.matches || d in pass.bankOnly || d in LedgerOnlies(pass.available)
    ensures KindOf(bank, ledger, m.reference) == Open && !d.Conflict?
  {
    var pass := FallbackOf(before, bank, ledger);
    var bs, ls := Unmatched(before, bank, bank, ledger), Unmatched(before, ledger, bank, ledger);
    FallbackForms(bs, ls);
    FallbackPartitions(bs, ls, m);
    LedgerOnlyTally(pass.available, m);
    if d in pass.matches {
      TallyMember(pass.matches, d, book, m);
    } else if d in pass.bankOnly {
      TallyMember(pass.bankOnly, d, book, m);
    } else {
      TallyMember(LedgerOnlies(pass.available), d, book, m);
    }
    if book == BankBook {
      UnmatchedIsOpen(before, bank, bank, ledger, m);
    } else {
      UnmatchedIsOpen(before, ledger, bank, ledger, m);
    }
  }
}
