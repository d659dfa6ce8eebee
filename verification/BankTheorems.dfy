/**
 What a reconciliation guarantees: it partitions both sides, its fallback pass is an optimal pairing,
 it does not depend on input order, and it conserves cents.
 */
module BankTheorems {
  import opened Ordering
  import opened JsText
  import opened BankCompare

  /** No two movements of a side share a source key: what normalization guarantees. */
  ghost predicate DistinctKeys(ms: seq<Movement>) {
    forall i, j :: 0 <= i < j < |ms| ==> ms[i].sourceKey != ms[j].sourceKey
  }

  /** Which of the two inputs is meant. */
  datatype Book = BankBook | LedgerBook

  function Input(book: Book, bank: seq<Movement>, ledger: seq<Movement>): seq<Movement> {
    if book == BankBook then bank else ledger
  }

  /** The movements of one input that a difference accounts for. */
  function Accounted(d: Difference, book: Book): seq<Movement> {
    match d
    case Conflict(_, bank, ledger) => Input(book, bank, ledger)
    case Matched(b, l) => if book == BankBook then [b] else [l]
    case BankOnly(b) => if book == BankBook then [b] else []
    case LedgerOnly(l) => if book == BankBook then [] else [l]
  }

  function Count<T(==)>(s: seq<T>, x: T): nat {
    multiset(s)[x]
  }

  lemma CountConcat<T>(a: seq<T>, b: seq<T>, x: T)
    ensures Count(a + b, x) == Count(a, x) + Count(b, x)
    ensures Count([], x) == 0
  {
  }

  lemma CountLast<T>(s: seq<T>, x: T)
    requires s != []
    ensures Count(s, x) == Count(s[..|s| - 1], x) + Count([s[|s| - 1]], x)
  {
    assert s == s[..|s| - 1] + [s[|s| - 1]];
  }

  /** How often a list of differences accounts for a movement of one input. */
  function Tally(ds: seq<Difference>, book: Book, m: Movement): nat {
    if ds == [] then 0 else Tally(ds[..|ds| - 1], book, m) + Count(Accounted(ds[|ds| - 1], book), m)
  }

  lemma TallyOneMore(ds: seq<Difference>, d: Difference, book: Book, m: Movement)
    ensures Tally(ds + [d], book, m) == Tally(ds, book, m) + Count(Accounted(d, book), m)
  {
    assert (ds + [d])[..|ds|] == ds;
  }

  lemma {:induction false} TallyConcat(a: seq<Difference>, b: seq<Difference>, book: Book, m: Movement)
    ensures Tally(a + b, book, m) == Tally(a, book, m) + Tally(b, book, m)
  {
    if b == [] {
      assert a + b == a;
    } else {
      TallyConcat(a, b[..|b| - 1], book, m);
      FrontOfConcat(a, b);
    }
  }

  // ------------------------------------------------------------ partition

  /** The movements of a side whose reference is one of `refs` and was settled by the reference pass. */
  function Settled(side: seq<Movement>, refs: seq<Text>, bank: seq<Movement>, ledger: seq<Movement>): seq<Movement> {
    if side == [] then []
    else
      var last := side[|side| - 1];
      Settled(side[..|side| - 1], refs, bank, ledger)
      + (if last.reference in refs && KindOf(bank, ledger, last.reference) != Open then [last] else [])
  }

  lemma {:induction false} SettledCount(side: seq<Movement>, refs: seq<Text>, bank: seq<Movement>,
                                        ledger: seq<Movement>, m: Movement)
    ensures Count(Settled(side, refs, bank, ledger), m) ==
      if m.reference in refs && KindOf(bank, ledger, m.reference) != Open then Count(side, m) else 0
  {
    if side != [] {
      var front, last := side[..|side| - 1], side[|side| - 1];
      SettledCount(front, refs, bank, ledger, m);
      CountLast(side, m);
      CountConcat(Settled(front, refs, bank, ledger), [last], m);
      CountConcat(Settled(front, refs, bank, ledger), [], m);
    }
  }

  lemma {:induction false} SharingCount(side: seq<Movement>, r: Text, m: Movement)
    ensures Count(Sharing(side, r), m) == if m.reference == r then Count(side, m) else 0
  {
    if side != [] {
      var front, last := side[..|side| - 1], side[|side| - 1];
      SharingCount(front, r, m);
      CountLast(side, m);
      CountConcat(Sharing(front, r), [last], m);
      CountConcat(Sharing(front, r), [], m);
    }
  }

  /** The reference pass accounts for exactly the movements it settles. */
  lemma {:induction false} ReferencePassSettles(
    refs: seq<Text>, bank: seq<Movement>, ledger: seq<Movement>, book: Book, m: Movement)
    requires Distinct(refs)
    ensures Tally(Conflicts(refs, bank, ledger), book, m) + Tally(ReferenceMatches(refs, bank, ledger), book, m)
         == if m.reference in refs && KindOf(bank, ledger, m.reference) != Open then Count(Input(book, bank, ledger), m)
            else 0
  {
    if refs != [] {
      var front, r := refs[..|refs| - 1], refs[|refs| - 1];
      ReferencePassSettles(front, bank, ledger, book, m);
      assert refs == front + [r];
      OneReferenceTally(refs, bank, ledger, book, m);
      SharingCount(Input(book, bank, ledger), r, m);
    }
  }

  lemma OneReferenceTally(refs: seq<Text>, bank: seq<Movement>, ledger: seq<Movement>, book: Book, m: Movement)
    requires refs != []
    ensures var front, r := refs[..|refs| - 1], refs[|refs| - 1];
      Tally(Conflicts(refs, bank, ledger), book, m) + Tally(ReferenceMatches(refs, bank, ledger), book, m)
      == Tally(Conflicts(front, bank, ledger), book, m) + Tally(ReferenceMatches(front, bank, ledger), book, m)
         + (if KindOf(bank, ledger, r) == Open then 0 else Count(Sharing(Input(book, bank, ledger), r), m))
  {
    var front, r := refs[..|refs| - 1], refs[|refs| - 1];
    var c, d := Conflicts(front, bank, ledger), ReferenceMatches(front, bank, ledger);
    assert c + [] == c && d + [] == d;
    match KindOf(bank, ledger, r)
    case Ambiguous =>
      TallyOneMore(c, Conflict(r, Sharing(bank, r), Sharing(ledger, r)), book, m);
    case OneToOne =>
      MatchAccounts(bank, ledger, r, book);
      TallyOneMore(d, Matched(Sharing(bank, r)[0], Sharing(ledger, r)[0]), book, m);
    case Open =>
  }

  lemma MatchAccounts(bank: seq<Movement>, ledger: seq<Movement>, r: Text, book: Book)
    requires KindOf(bank, ledger, r) == OneToOne
    ensures Accounted(Matched(Sharing(bank, r)[0], Sharing(ledger, r)[0]), book)
            == Sharing(Input(book, bank, ledger), r)
  {
  }

  /** With distinct source keys, a key is taken exactly when its own movement's reference was settled. */
  lemma {:induction false} TakenMeansSettled(side: seq<Movement>, refs: seq<Text>, bank: seq<Movement>,
                                             ledger: seq<Movement>, m: Movement)
    requires DistinctKeys(side) && m in side
    ensures m.sourceKey in TakenKeys(side, refs, bank, ledger) <==>
            m.reference in refs && KindOf(bank, ledger, m.reference) != Open
  {
    if refs != [] {
      var r := refs[|refs| - 1];
      TakenMeansSettled(side, refs[..|refs| - 1], bank, ledger, m);
      KeyAmongSharing(side, r, m);
    }
  }

  lemma KeyAmongSharing(side: seq<Movement>, r: Text, m: Movement)
    requires DistinctKeys(side) && m in side
    ensures m.sourceKey in KeysOf(Sharing(side, r)) <==> m.reference == r
  {
    SharingIs(side, r);
    if m.sourceKey in KeysOf(Sharing(side, r)) {
      var x :| x in Sharing(side, r) && x.sourceKey == m.sourceKey;
      assert x == m;
    }
  }

  lemma {:induction false} SharingIs(side: seq<Movement>, r: Text)
    ensures forall m :: m in Sharing(side, r) <==> m in side && m.reference == r
  {
    if side != [] {
      SharingIs(side[..|side| - 1], r);
      assert side == side[..|side| - 1] + [side[|side| - 1]];
    }
  }

  lemma {:induction false} WithoutCount(ms: seq<Movement>, taken: set<Text>, m: Movement)
    ensures Count(Without(ms, taken), m) == if m.sourceKey in taken then 0 else Count(ms, m)
  {
    if ms != [] {
      var front, last := ms[..|ms| - 1], ms[|ms| - 1];
      WithoutCount(front, taken, m);
      CountLast(ms, m);
      CountConcat(Without(front, taken), [last], m);
      CountConcat(Without(front, taken), [], m);
    }
  }

  /** What is not settled by reference is left to the fallback pass, and nothing else. */
  lemma UnmatchedCount(before: KeyOrder, side: seq<Movement>, bank: seq<Movement>, ledger: seq<Movement>, m: Movement)
    requires DistinctKeys(side)
    ensures Count(Unmatched(before, side, bank, ledger), m) ==
      if m.reference in References(bank, ledger) && KindOf(bank, ledger, m.reference) != Open then 0 else Count(side, m)
  {
    var refs := References(bank, ledger);
    var taken := TakenKeys(side, refs, bank, ledger);
    WithoutCount(side, taken, m);
    SortPermutes(ByKey(before), Without(side, taken));
    if m in side {
      TakenMeansSettled(side, refs, bank, ledger, m);
    }
  }

  /** The fallback pass loses nothing: what it pairs and what it leaves is what it was given. */
  lemma {:induction false} FallbackPartitions(bs: seq<Movement>, ls: seq<Movement>, m: Movement)
    ensures var pass := Fallback(bs, ls);
      && Tally(pass.matches, BankBook, m) + Tally(pass.bankOnly, BankBook, m) == Count(bs, m)
      && Tally(pass.matches, LedgerBook, m) + Count(pass.available, m) == Count(ls, m)
      && Tally(pass.bankOnly, LedgerBook, m) == 0
  {
    if bs != [] {
      var front, b := bs[..|bs| - 1], bs[|bs| - 1];
      FallbackPartitions(front, ls, m);
      CountLast(bs, m);
      FallbackStepTally(Fallback(front, ls), b, m);
    }
  }

  lemma FallbackStepTally(pass: Pass, b: Movement, m: Movement)
    ensures var pass' := FallbackStep(pass, b);
      && Tally(pass'.matches, BankBook, m) + Tally(pass'.bankOnly, BankBook, m)
         == Tally(pass.matches, BankBook, m) + Tally(pass.bankOnly, BankBook, m) + Count([b], m)
      && Tally(pass'.matches, LedgerBook, m) + Count(pass'.available, m)
         == Tally(pass.matches, LedgerBook, m) + Count(pass.available, m)
      && Tally(pass'.bankOnly, LedgerBook, m) == Tally(pass.bankOnly, LedgerBook, m)
  {
    var index := FindCandidate(pass.available, KeyOf(b));
    if index == -1 {
      TallyOneMore(pass.bankOnly, BankOnly(b), BankBook, m);
      TallyOneMore(pass.bankOnly, BankOnly(b), LedgerBook, m);
    } else {
      var l := pass.available[index];
      TallyOneMore(pass.matches, Matched(b, l), BankBook, m);
      TallyOneMore(pass.matches, Matched(b, l), LedgerBook, m);
      RemovesOne(pass.available, index, m);
    }
  }

  lemma RemovesOne<T>(s: seq<T>, index: nat, x: T)
    requires index < |s|
    ensures Count(s, x) == Count(RemoveAt(s, index), x) + Count([s[index]], x)
  {
    assert s == s[..index] + [s[index]] + s[index + 1..];
  }

  lemma {:induction false} LedgerOnlyTally(ms: seq<Movement>, m: Movement)
    ensures Tally(LedgerOnlies(ms), BankBook, m) == 0 && Tally(LedgerOnlies(ms), LedgerBook, m) == Count(ms, m)
  {
    if ms != [] {
      var front, last := ms[..|ms| - 1], ms[|ms| - 1];
      LedgerOnlyTally(front, m);
      assert LedgerOnlies(ms)[..|ms| - 1] == LedgerOnlies(front);
      CountLast(ms, m);
    }
  }

  lemma {:induction false} UnionDistinct(known: seq<Text>, more: seq<Text>)
    requires Distinct(known)
    ensures Distinct(Union(known, more))
    ensures forall r :: r in Union(known, more) <==> r in known || r in more
  {
    if more != [] {
      UnionDistinct(known, more[..|more| - 1]);
      assert more == more[..|more| - 1] + [more[|more| - 1]];
    }
  }

  lemma {:induction false} ReferencesOfSide(ms: seq<Movement>)
    ensures Distinct(ReferencesOf(ms))
    ensures forall r :: r in ReferencesOf(ms) <==> exists m :: m in ms && m.reference == r
  {
    if ms != [] {
      var front, last := ms[..|ms| - 1], ms[|ms| - 1];
      ReferencesOfSide(front);
      UnionDistinct(ReferencesOf(front), [last.reference]);
      assert ms == front + [last];
      forall r ensures r in ReferencesOf(ms) <==> exists m :: m in ms && m.reference == r {
        assert last in ms;
        assert r in ReferencesOf(ms) <==> r in ReferencesOf(front) || r == last.reference;
      }
    }
  }

  lemma ReferencesAreDistinct(bank: seq<Movement>, ledger: seq<Movement>)
    ensures Distinct(References(bank, ledger))
    ensures forall r :: r in References(bank, ledger) <==>
              (exists m :: m in bank && m.reference == r) || (exists m :: m in ledger && m.reference == r)
  {
    var refs := Union(ReferencesOf(bank), ReferencesOf(ledger));
    ReferencesOfSide(bank);
    ReferencesOfSide(ledger);
    UnionDistinct(ReferencesOf(bank), ReferencesOf(ledger));
    SortPermutes(LexLess, refs);
    DistinctAnyOrder(refs, References(bank, ledger));
    forall r ensures r in References(bank, ledger) <==> r in refs {
      assert r in multiset(References(bank, ledger)) <==> r in multiset(refs);
    }
  }

  lemma TallyOfDifferences(before: KeyOrder, bank: seq<Movement>, ledger: seq<Movement>, book: Book, m: Movement)
    ensures var refs, pass := References(bank, ledger), FallbackOf(before, bank, ledger);
      Tally(Differences(before, bank, ledger), book, m) ==
      Tally(Conflicts(refs, bank, ledger), book, m) + Tally(ReferenceMatches(refs, bank, ledger), book, m)
      + Tally(pass.matches, book, m) + Tally(pass.bankOnly, book, m) + Tally(LedgerOnlies(pass.available), book, m)
  {
    var refs, pass := References(bank, ledger), FallbackOf(before, bank, ledger);
    var c, r, o := Conflicts(refs, bank, ledger), ReferenceMatches(refs, bank, ledger), LedgerOnlies(pass.available);
    TallyConcat(c, r, book, m);
    TallyConcat(c + r, pass.matches, book, m);
    TallyConcat(c + r + pass.matches, pass.bankOnly, book, m);
    TallyConcat(c + r + pass.matches + pass.bankOnly, o, book, m);
  }

  /**
   The differences account for every movement of either input exactly as often as it occurs there:
   once, its source key being distinct, so each movement is placed in exactly one difference.
   */
  lemma ReconciliationPartitions(before: KeyOrder, bank: seq<Movement>, ledger: seq<Movement>, book: Book, m: Movement)
    requires DistinctKeys(bank) && DistinctKeys(ledger)
    ensures Tally(Differences(before, bank, ledger), book, m) == Count(Input(book, bank, ledger), m)
  {
    var refs, pass := References(bank, ledger), FallbackOf(before, bank, ledger);
    ReferencesAreDistinct(bank, ledger);
    ReferencePassSettles(refs, bank, ledger, book, m);
    UnmatchedCount(before, bank, bank, ledger, m);
    UnmatchedCount(before, ledger, bank, ledger, m);
    FallbackPartitions(Unmatched(before, bank, bank, ledger), Unmatched(before, ledger, bank, ledger), m);
    LedgerOnlyTally(pass.available, m);
    TallyOfDifferences(before, bank, ledger, book, m);
  }
}
