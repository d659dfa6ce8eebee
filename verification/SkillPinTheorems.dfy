/**
 What a mission skill pin guarantees: exact acceptance, soundness, the create/verify round trip,
 canonical denials, and when the entry order is independent of the input order.
 */
module SkillPinTheorems {
  import opened Ordering
  import opened Wrappers
  import opened JsText
  import opened SkillPins

  // ------------------------------------------------------- canonical denials

  lemma {:induction false} UniqueIsDistinct(items: seq<Denial>)
    ensures Distinct(Unique(items)) && forall d :: d in Unique(items) <==> d in items
  {
    if items != [] {
      var front, last := items[..|items| - 1], items[|items| - 1];
      UniqueIsDistinct(front);
      assert items == front + [last];
    }
  }

  lemma OrderIdentifies(a: Code, b: Code)
    ensures Order(a) == Order(b) ==> a == b
  {
  }

  lemma DenialOrder()
    ensures StrictTotalOrder(DenialBefore) && StrictWeakOrder(DenialBefore)
  {
    LexIsStrictTotalOrder();
    forall a: Denial, b: Denial | a != b ensures DenialBefore(a, b) || DenialBefore(b, a) {
      OrderIdentifies(a.code, b.code);
    }
  }

  /** A denial lists each reason once, by code and then identity, whatever order the checks found them in. */
  lemma DenialIsCanonical(found: seq<Denial>, again: seq<Denial>)
    requires forall d :: d in found <==> d in again
    ensures Canonical(found) == Canonical(again)
    ensures forall d :: d in Canonical(found) <==> d in found
    ensures forall i, j :: 0 <= i < j < |Canonical(found)| ==> DenialBefore(Canonical(found)[i], Canonical(found)[j])
  {
    DenialOrder();
    UniqueIsDistinct(found);
    UniqueIsDistinct(again);
    SameMembersSameMultiset(Unique(found), Unique(again));
    SortIgnoresInputOrder(DenialBefore, Unique(found), Unique(again));
    var sorted := Canonical(found);
    SortPermutes(DenialBefore, Unique(found));
    SortSorted(DenialBefore, Unique(found));
    DistinctAnyOrder(Unique(found), sorted);
    forall d ensures d in sorted <==> d in found {
      assert d in multiset(sorted) <==> d in multiset(Unique(found));
    }
  }

  // ------------------------------------------------------ exact acceptance

  lemma {:induction false} FlatMapMember<S, T>(f: S -> seq<T>, s: seq<S>, x: T)
    ensures x in FlatMap(f, s) <==> exists y :: y in s && x in f(y)
  {
    if s != [] {
      var front, last := s[..|s| - 1], s[|s| - 1];
      FlatMapMember(f, front, x);
      assert s == front + [last];
      if y :| y in s && x in f(y) {
        assert y in front || y == last;
      }
    }
  }

  lemma FlatMapEmpty<S, T>(f: S -> seq<T>, s: seq<S>)
    ensures FlatMap(f, s) == [] <==> forall y :: y in s ==> f(y) == []
  {
    if FlatMap(f, s) == [] {
      forall y | y in s ensures f(y) == [] {
        if f(y) != [] { FlatMapMember(f, s, f(y)[0]); }
      }
    } else {
      var x := FlatMap(f, s)[0];
      FlatMapMember(f, s, x);
    }
  }

  /** Different positions hold different identities. */
  ghost predicate DistinctIdentities(skills: seq<Skill>) {
    Distinct(Identities(skills))
  }

  lemma {:induction false} RepeatsEmpty(skills: seq<Skill>)
    ensures Repeats(skills) == [] <==> DistinctIdentities(skills)
  {
    if skills != [] {
      var front, last := skills[..|skills| - 1], skills[|skills| - 1];
      RepeatsEmpty(front);
      assert Identities(skills) == Identities(front) + [Identity(last)];
      DistinctOneMore(Identities(front), Identity(last));
    }
  }

  lemma DistinctOneMore<T>(s: seq<T>, x: T)
    ensures Distinct(s + [x]) <==> Distinct(s) && x !in s
  {
    if Distinct(s + [x]) {
      forall i, j | 0 <= i < j < |s| ensures s[i] != s[j] {
        assert (s + [x])[i] == s[i] && (s + [x])[j] == s[j];
      }
      forall i | 0 <= i < |s| ensures s[i] != x {
        assert (s + [x])[i] == s[i] && (s + [x])[|s|] == x;
      }
    }
  }

  /** Every candidate has an identity. */
  ghost predicate AllNamed(packs: seq<Candidate>) {
    forall c <- packs :: ExtractSkill(c).Some?
  }

  lemma {:induction false} CandidateRepeatsEmpty(packs: seq<Candidate>)
    ensures CandidateRepeats(packs) == [] <==> AllNamed(packs) && DistinctIdentities(Named(packs))
  {
    if packs != [] {
      var front, last := packs[..|packs| - 1], packs[|packs| - 1];
      CandidateRepeatsEmpty(front);
      assert packs == front + [last];
      if ExtractSkill(last).Some? {
        var skill := ExtractSkill(last).value;
        assert Identities(Named(front) + [skill]) == Identities(Named(front)) + [Identity(skill)];
        DistinctOneMore(Identities(Named(front)), Identity(skill));
      } else {
        assert last in packs;
      }
    }
  }

  lemma {:induction false} NamedAll(packs: seq<Candidate>)
    requires AllNamed(packs)
    ensures |Named(packs)| == |packs|
    ensures forall i :: 0 <= i < |packs| ==> ExtractSkill(packs[i]) == Some(Named(packs)[i])
  {
    if packs != [] {
      var front, last := packs[..|packs| - 1], packs[|packs| - 1];
      assert packs == front + [last];
      NamedAll(front);
    }
  }

  ghost predicate InForceAt(c: Candidate, date: Text) {
    ExtractSkill(c).Some? && InForce(ExtractSkill(c).value.vigencia, date)
  }

  /** A candidate verifies and is in force at the date. */
  ghost predicate Stands(env: Environment, date: Text, c: Candidate) {
    env.verify(c) == [] && InForceAt(c, date)
  }

  /** A candidate set that creation accepts. */
  ghost predicate Sound(env: Environment, packs: seq<Candidate>, date: Text) {
    (forall c <- packs :: Stands(env, date, c)) && DistinctIdentities(Named(packs))
  }

  lemma CandidatesAcceptedExactly(env: Environment, packs: seq<Candidate>, date: Text)
    ensures CandidateProblems(env, packs, date) == [] <==> Sound(env, packs, date)
  {
    CandidateRepeatsEmpty(packs);
    FlatMapEmpty(PackProblems(env, date), packs);
    if AllNamed(packs) {
      forall c | c in packs ensures PackProblems(env, date)(c) == [] <==> Stands(env, date, c) {
      }
    }
  }

  /** A pinned skill and a candidate agree on everything the pin binds. */
  ghost predicate Agrees(s: Skill, t: Skill) {
    Identity(s) == Identity(t) && s.checksum == t.checksum && s.jurisdiction == t.jurisdiction
      && s.vigencia == t.vigencia
  }

  ghost predicate NamesWithin(skills: seq<Skill>, other: seq<Skill>) {
    forall k :: k in Identities(skills) ==> k in Identities(other)
  }

  ghost predicate AgreeWhereShared(pin: seq<Skill>, offered: seq<Skill>) {
    forall s, t :: s in pin && t in offered && Identity(s) == Identity(t) ==> Agrees(s, t)
  }

  /** Both sides name the same identities, and agree wherever they name the same one. */
  ghost predicate Consistent(pin: seq<Skill>, offered: seq<Skill>) {
    NamesWithin(pin, offered) && NamesWithin(offered, pin) && AgreeWhereShared(pin, offered)
  }

  lemma SameIdentitySameSkill(skills: seq<Skill>, a: Skill, b: Skill)
    requires DistinctIdentities(skills) && a in skills && b in skills && Identity(a) == Identity(b)
    ensures a == b
  {
    var i :| 0 <= i < |skills| && skills[i] == a;
    var j :| 0 <= j < |skills| && skills[j] == b;
    assert Identities(skills)[i] == Identities(skills)[j];
  }

  lemma IdentityListed(skills: seq<Skill>, k: Text)
    ensures k in Identities(skills) <==> exists s :: s in skills && Identity(s) == k
  {
    if k in Identities(skills) {
      var i :| 0 <= i < |skills| && Identities(skills)[i] == k;
      assert skills[i] in skills;
    }
    if s :| s in skills && Identity(s) == k {
      var i :| 0 <= i < |skills| && skills[i] == s;
      assert Identities(skills)[i] == k;
    }
  }

  /** Under distinct identities the indexes hold the very skills that share an identity. */
  lemma IndexedSkill(skills: seq<Skill>, s: Skill)
    requires DistinctIdentities(skills) && s in skills
    ensures Identity(s) in IndexOf(skills).keys
    ensures Identity(s) in IndexOf(skills).first && IndexOf(skills).first[Identity(s)] == s
  {
    IndexKeys(skills);
    IdentityListed(skills, Identity(s));
    SameIdentitySameSkill(skills, s, IndexOf(skills).first[Identity(s)]);
  }

  lemma DriftAt(pin: seq<Skill>, offered: seq<Skill>, s: Skill, t: Skill)
    requires DistinctIdentities(pin) && DistinctIdentities(offered)
    requires s in pin && t in offered && Identity(s) == Identity(t)
    ensures Drift(IndexOf(pin).first, IndexOf(offered).first)(Identity(s)) == [] <==> Agrees(s, t)
    ensures Identity(s) in IndexOf(pin).keys
  {
    IndexedSkill(pin, s);
    IndexedSkill(offered, t);
    NoFieldDrift(t, s, Identity(s));
  }

  lemma NoFieldDrift(candidate: Skill, entry: Skill, k: Text)
    ensures FieldDrift(candidate, entry, k) == [] <==>
            && candidate.checksum == entry.checksum && candidate.jurisdiction == entry.jurisdiction
            && candidate.vigencia == entry.vigencia
  {
  }

  lemma DriftEmpty(pin: seq<Skill>, offered: seq<Skill>)
    requires DistinctIdentities(pin) && DistinctIdentities(offered)
    ensures FlatMap(Drift(IndexOf(pin).first, IndexOf(offered).first), IndexOf(pin).keys) == [] <==>
            AgreeWhereShared(pin, offered)
  {
    var drift, keys := Drift(IndexOf(pin).first, IndexOf(offered).first), IndexOf(pin).keys;
    FlatMapEmpty(drift, keys);
    if forall k :: k in keys ==> drift(k) == [] {
      forall s, t | s in pin && t in offered && Identity(s) == Identity(t) ensures Agrees(s, t) {
        DriftAt(pin, offered, s, t);
      }
    }
    if AgreeWhereShared(pin, offered) {
      forall k | k in keys ensures drift(k) == [] { NoDriftAt(pin, offered, k); }
    }
  }

  lemma NoDriftAt(pin: seq<Skill>, offered: seq<Skill>, k: Text)
    requires AgreeWhereShared(pin, offered)
    ensures Drift(IndexOf(pin).first, IndexOf(offered).first)(k) == []
  {
    var bound, found := IndexOf(pin).first, IndexOf(offered).first;
    IndexKeys(pin);
    IndexKeys(offered);
    if k in bound && k in found { assert Agrees(bound[k], found[k]); }
  }

  lemma AbsentEmpty(skills: seq<Skill>, other: seq<Skill>, code: Code)
    ensures FlatMap(Absent(code, IndexOf(other).first), IndexOf(skills).keys) == [] <==> NamesWithin(skills, other)
  {
    IndexKeys(skills);
    IndexKeys(other);
    FlatMapEmpty(Absent(code, IndexOf(other).first), IndexOf(skills).keys);
    forall k | k in Identities(skills)
      ensures k in IndexOf(skills).keys && (Absent(code, IndexOf(other).first)(k) == [] <==> k in Identities(other)) {
    }
  }

  /** A version can only be reported changed together with its identity being missing. */
  lemma ReversionedIsMissing(pin: seq<Skill>, offered: seq<Skill>, d: Denial)
    requires d in FlatMap(Reversioned(pin, offered), pin)
    ensures d.code == VersionMismatch
    ensures Denial(MissingSkill, d.identity) in FlatMap(Absent(MissingSkill, IndexOf(offered).first), IndexOf(pin).keys)
  {
    FlatMapMember(Reversioned(pin, offered), pin, d);
    var s :| s in pin && d in Reversioned(pin, offered)(s);
    IndexKeys(pin);
    IdentityListed(pin, Identity(s));
    assert Denial(MissingSkill, d.identity) in Absent(MissingSkill, IndexOf(offered).first)(Identity(s));
    FlatMapMember(Absent(MissingSkill, IndexOf(offered).first), IndexOf(pin).keys, Denial(MissingSkill, d.identity));
  }

  /** What verification accepts, said without its checks. */
  ghost predicate Accepted(env: Environment, pin: seq<Skill>, packs: seq<Candidate>, date: Text) {
    && env.isDate(date) && Sound(env, packs, date)
    && DistinctIdentities(pin) && Consistent(pin, Named(packs))
  }

  /** Version reports never decide acceptance. */
  lemma VersionsNeverDecide(pin: seq<Skill>, offered: seq<Skill>)
    ensures NamesWithin(pin, offered) ==> FlatMap(Reversioned(pin, offered), pin) == []
  {
    AbsentEmpty(pin, offered, MissingSkill);
    var versions := FlatMap(Reversioned(pin, offered), pin);
    if versions != [] { ReversionedIsMissing(pin, offered, versions[0]); }
  }

  lemma VerifiesExactly(env: Environment, pin: seq<Skill>, packs: seq<Candidate>, date: Text)
    ensures Verification(env, pin, packs, date).Ok? <==> Accepted(env, pin, packs, date)
  {
    var offered := Named(packs);
    CandidatesAcceptedExactly(env, packs, date);
    RepeatsEmpty(pin);
    AbsentEmpty(pin, offered, MissingSkill);
    AbsentEmpty(offered, pin, AdditionalSkill);
    VersionsNeverDecide(pin, offered);
    if DistinctIdentities(pin) && DistinctIdentities(offered) { DriftEmpty(pin, offered); }
    NothingConcat(Repeats(pin), CandidateProblems(env, packs, date));
  }

  lemma NothingConcat<T>(a: seq<T>, b: seq<T>)
    ensures a + b == [] <==> a == [] && b == []
  {
  }

  /** Creation accepts exactly the sound sets, and pins their skills, all of them, sorted. */
  lemma CreatesExactly(env: Environment, packs: seq<Candidate>, date: Text)
    ensures Creation(env, packs, date).Ok? <==> env.isDate(date) && Sound(env, packs, date)
    ensures Creation(env, packs, date).Ok? ==>
      multiset(Creation(env, packs, date).value) == multiset(Named(packs))
        && |Creation(env, packs, date).value| == |packs|
  {
    CandidatesAcceptedExactly(env, packs, date);
    SortPermutes(CompareEntries(env), Named(packs));
    if Sound(env, packs, date) { NamedAll(packs); }
  }

  // ---------------------------------------------------------------- results

  /** Pin entry `i` binds candidate `j`. */
  ghost predicate Binds(pin: seq<Skill>, packs: seq<Candidate>, i: nat, j: nat) {
    i < |pin| && j < |packs| && ExtractSkill(packs[j]).Some? && Agrees(pin[i], ExtractSkill(packs[j]).value)
  }

  ghost predicate BindsSome(pin: seq<Skill>, packs: seq<Candidate>, i: nat) {
    exists j :: Binds(pin, packs, i, j)
  }

  ghost predicate BoundBySome(pin: seq<Skill>, packs: seq<Candidate>, j: nat) {
    exists i :: Binds(pin, packs, i, j)
  }

  /** An accepted pin and its packs are in bijection, by identity, with equal checksum, jurisdiction and vigencia. */
  lemma AcceptedPinBindsPacks(env: Environment, pin: seq<Skill>, packs: seq<Candidate>, date: Text)
    requires Verification(env, pin, packs, date).Ok?
    ensures forall i :: 0 <= i < |pin| ==> BindsSome(pin, packs, i)
    ensures forall j :: 0 <= j < |packs| ==> BoundBySome(pin, packs, j)
    ensures forall i, j, i', j' :: Binds(pin, packs, i, j) && Binds(pin, packs, i', j') ==> (i == i' <==> j == j')
    ensures forall c :: c in packs ==> Stands(env, date, c)
  {
    var offered := Named(packs);
    VerifiesExactly(env, pin, packs, date);
    NamedAll(packs);
    forall i | 0 <= i < |pin| ensures BindsSome(pin, packs, i) {
      var j := SharedPosition(pin, offered, i);
      assert Binds(pin, packs, i, j);
    }
    forall j | 0 <= j < |packs| ensures BoundBySome(pin, packs, j) {
      var i := SharedPosition(offered, pin, j);
      assert Binds(pin, packs, i, j);
    }
    forall i, j, i', j' | Binds(pin, packs, i, j) && Binds(pin, packs, i', j') ensures i == i' <==> j == j' {
      OnePosition(pin, i, i');
      OnePosition(offered, j, j');
    }
  }

  lemma SharedPosition(s: seq<Skill>, t: seq<Skill>, i: nat) returns (j: nat)
    requires i < |s| && NamesWithin(s, t)
    ensures j < |t| && Identity(t[j]) == Identity(s[i]) && s[i] in s && t[j] in t
  {
    assert Identities(s)[i] in Identities(s);
    j :| 0 <= j < |t| && Identities(t)[j] == Identities(s)[i];
  }

  lemma OnePosition(s: seq<Skill>, i: nat, j: nat)
    requires DistinctIdentities(s) && i < |s| && j < |s|
    ensures Identity(s[i]) == Identity(s[j]) <==> i == j
  {
    assert Identities(s)[i] == Identity(s[i]) && Identities(s)[j] == Identity(s[j]);
  }

  /** Skills with different identities stay so in any order. */
  lemma DistinctIdentitiesAnyOrder(s: seq<Skill>, t: seq<Skill>)
    requires multiset(s) == multiset(t) && DistinctIdentities(s)
    ensures DistinctIdentities(t)
  {
    assert Distinct(s) by {
      forall i, j | 0 <= i < j < |s| ensures s[i] != s[j] {
        assert Identities(s)[i] != Identities(s)[j];
      }
    }
    DistinctAnyOrder(s, t);
    forall i, j | 0 <= i < j < |t| ensures Identities(t)[i] != Identities(t)[j] {
      assert t[i] in multiset(s) && t[j] in multiset(s);
      if Identity(t[i]) == Identity(t[j]) { SameIdentitySameSkill(s, t[i], t[j]); }
    }
  }

  lemma NamedWithout(before: seq<Candidate>, c: Candidate, after: seq<Candidate>)
    ensures multiset(Named(before + [c] + after)) == multiset(Named(before + after)) + multiset(Named([c]))
  {
    NamedConcat(before + [c], after);
    NamedConcat(before, [c]);
    NamedConcat(before, after);
  }

  lemma Cancel<T>(front: seq<T>, x: T, before: seq<T>, after: seq<T>)
    requires multiset(front + [x]) == multiset(before + [x] + after)
    ensures multiset(front) == multiset(before + after)
  {
    assert multiset(front + [x]) == multiset(front) + multiset{x};
    assert multiset(before + [x] + after) == multiset(before + after) + multiset{x};
    assert multiset(front) == multiset(front + [x]) - multiset{x};
    assert multiset(before + after) == multiset(before + [x] + after) - multiset{x};
  }

  lemma NamedStep(front: seq<Candidate>, c: Candidate, before: seq<Candidate>, after: seq<Candidate>)
    requires multiset(Named(front)) == multiset(Named(before + after))
    ensures multiset(Named(front + [c])) == multiset(Named(before + [c] + after))
  {
    NamedWithout(before, c, after);
    NamedConcat(front, [c]);
  }

  lemma Split<T>(s: seq<T>, x: T) returns (before: seq<T>, after: seq<T>)
    requires x in s
    ensures s == before + [x] + after
  {
    var i :| 0 <= i < |s| && s[i] == x;
    before, after := s[..i], s[i + 1..];
  }

  lemma {:induction false} NamedAnyOrder(packs: seq<Candidate>, again: seq<Candidate>)
    requires multiset(packs) == multiset(again)
    ensures multiset(Named(packs)) == multiset(Named(again))
  {
    if packs == [] {
      assert |again| == |multiset(again)| == 0;
    } else {
      var front, last := packs[..|packs| - 1], packs[|packs| - 1];
      assert last in multiset(packs);
      var before, after := Split(again, last);
      assert packs == front + [last];
      Cancel(front, last, before, after);
      NamedAnyOrder(front, before + after);
      NamedStep(front, last, before, after);
    }
  }

  lemma {:induction false} NamedConcat(a: seq<Candidate>, b: seq<Candidate>)
    ensures Named(a + b) == Named(a) + Named(b)
  {
    if b == [] {
      assert a + b == a;
    } else {
      var front, last := b[..|b| - 1], b[|b| - 1];
      assert (a + b)[..|a + b| - 1] == a + front;
      NamedConcat(a, front);
    }
  }

  /** A created pin verifies against the same packs, in any order, at exactly the valid dates when all are in force. */
  lemma PinRoundTrip(env: Environment, packs: seq<Candidate>, created: Text, again: seq<Candidate>, date: Text)
    requires Creation(env, packs, created).Ok? && multiset(again) == multiset(packs)
    ensures Verification(env, Creation(env, packs, created).value, again, date).Ok?
      <==> env.isDate(date) && forall c :: c in packs ==> InForceAt(c, date)
  {
    var pin := Creation(env, packs, created).value;
    CreatesExactly(env, packs, created);
    VerifiesExactly(env, pin, again, date);
    NamedAnyOrder(packs, again);
    DistinctIdentitiesAnyOrder(Named(packs), pin);
    DistinctIdentitiesAnyOrder(Named(packs), Named(again));
    SameSkillsConsistent(pin, Named(again));
    forall c ensures c in again <==> c in packs {
      assert c in multiset(again) <==> c in multiset(packs);
    }
    forall c | c in packs
      ensures Stands(env, date, c) <==> InForceAt(c, date)
    {
      assert Stands(env, created, c);
    }
  }

  lemma SameSkillsConsistent(s: seq<Skill>, t: seq<Skill>)
    requires multiset(s) == multiset(t) && DistinctIdentities(s)
    ensures Consistent(s, t)
  {
    forall a ensures a in s <==> a in t {
      assert a in multiset(s) <==> a in multiset(t);
    }
    forall k ensures k in Identities(s) <==> k in Identities(t) {
      IdentityListed(s, k);
      IdentityListed(t, k);
    }
    forall a, b | a in s && b in t && Identity(a) == Identity(b) ensures Agrees(a, b) {
      SameIdentitySameSkill(s, a, b);
    }
  }

  // ------------------------------------------------------------ entry order

  lemma SemverOrdered(a: (real, real, real), b: (real, real, real), c: (real, real, real))
    ensures !SemverLess(a, a)
    ensures SemverLess(a, b) && SemverLess(b, c) ==> SemverLess(a, c)
    ensures SemverLess(a, c) ==> SemverLess(a, b) || SemverLess(b, c)
  {
  }

  lemma EntriesOrdered(env: Environment, a: Skill, b: Skill, c: Skill)
    ensures !EntryBefore(env, a, a)
    ensures EntryBefore(env, a, b) && EntryBefore(env, b, c) ==> EntryBefore(env, a, c)
    ensures EntryBefore(env, a, c) ==> EntryBefore(env, a, b) || EntryBefore(env, b, c)
  {
    SemverOrdered(env.semver(a.version), env.semver(b.version), env.semver(c.version));
    LexOrdered(a.id, b.id, c.id);
  }

  lemma LexOrdered(a: Text, b: Text, c: Text)
    ensures LexLess(a, b) && LexLess(b, c) ==> LexLess(a, c) && a != c
    ensures a != b && b != c && LexLess(a, c) ==> LexLess(a, b) || LexLess(b, c)
    ensures a == c && a != b ==> LexLess(a, b) || LexLess(b, c)
  {
    LexIsStrictTotalOrder();
  }

  lemma CompareIsWeakOrder(env: Environment)
    ensures StrictWeakOrder(CompareEntries(env))
  {
    forall a, b, c
      ensures !EntryBefore(env, a, a)
      ensures EntryBefore(env, a, b) && EntryBefore(env, b, c) ==> EntryBefore(env, a, c)
      ensures EntryBefore(env, a, c) ==> EntryBefore(env, a, b) || EntryBefore(env, b, c)
    {
      EntriesOrdered(env, a, b, c);
    }
  }

  /** No two skills share an id and have numerically equal versions. */
  ghost predicate NoTies(env: Environment, skills: seq<Skill>) {
    PairwiseComparable(CompareEntries(env), skills)
  }

  /** Taking one named candidate out of a set. */
  lemma TakeOne(packs: seq<Candidate>, c: Candidate, before: seq<Candidate>, after: seq<Candidate>)
    requires packs == before + [c] + after && AllNamed(packs)
    ensures AllNamed(before + after) && AllNamed([c])
    ensures multiset(packs) == multiset(before + after) + multiset{c}
    ensures multiset(Named(packs)) == multiset(Named(before + after)) + multiset{ExtractSkill(c).value}
  {
    assert c in packs;
    NamedWithout(before, c, after);
    assert Named([c]) == [ExtractSkill(c).value];
  }

  lemma SplitLast<T>(s: seq<T>) returns (front: seq<T>, last: T)
    requires s != []
    ensures s == front + [last] && |front| < |s| && multiset(s) == multiset(front) + multiset{last}
  {
    front, last := s[..|s| - 1], s[|s| - 1];
    assert s == front + [last];
  }

  /** Packs in the order of a given arrangement of their skills. */
  lemma {:induction false} Arrange(packs: seq<Candidate>, skills: seq<Skill>) returns (arranged: seq<Candidate>)
    requires AllNamed(packs) && multiset(Named(packs)) == multiset(skills)
    ensures multiset(arranged) == multiset(packs) && Named(arranged) == skills
    decreases |skills|
  {
    if skills == [] {
      NamedAll(packs);
      assert |Named(packs)| == |multiset(Named(packs))| == 0;
      arranged := [];
    } else {
      var front, last := SplitLast(skills);
      assert last in multiset(Named(packs));
      var c := PackOf(packs, last);
      var before, after := Split(packs, c);
      TakeOne(packs, c, before, after);
      CancelMultiset(multiset(front), multiset(Named(before + after)), last);
      var rest := Arrange(before + after, front);
      arranged := rest + [c];
    }
  }

  lemma CancelMultiset<T>(a: multiset<T>, b: multiset<T>, x: T)
    requires a + multiset{x} == b + multiset{x}
    ensures a == b
  {
    assert a == a + multiset{x} - multiset{x} == b;
  }

  lemma PackOf(packs: seq<Candidate>, skill: Skill) returns (c: Candidate)
    requires AllNamed(packs) && skill in Named(packs)
    ensures c in packs && ExtractSkill(c) == Some(skill)
  {
    NamedAll(packs);
    var i :| 0 <= i < |packs| && Named(packs)[i] == skill;
    c := packs[i];
  }

  ghost predicate SamePinAnyOrder(env: Environment, packs: seq<Candidate>, date: Text) {
    forall again :: multiset(again) == multiset(packs) ==> Creation(env, again, date) == Creation(env, packs, date)
  }

  /**
   The entry order does not depend on the order the packs came in exactly when no id occurs with two
   numerically equal versions (`1.0.0` and `01.0.0`, say): such entries stay in input order.
   */
  lemma EntryOrderIsDeterministicExactly(env: Environment, packs: seq<Candidate>, date: Text)
    requires Creation(env, packs, date).Ok?
    ensures SamePinAnyOrder(env, packs, date) <==> NoTies(env, Named(packs))
  {
    var cmp, skills := CompareEntries(env), Named(packs);
    CreatesExactly(env, packs, date);
    CompareIsWeakOrder(env);
    DistinctSkills(skills);
    SortedOneWayExactly(cmp, skills);
    if NoTies(env, skills) {
      forall again | multiset(again) == multiset(packs)
        ensures Creation(env, again, date) == Creation(env, packs, date) {
        SoundAnyOrder(env, packs, again, date);
      }
    }
    if SamePinAnyOrder(env, packs, date) {
      forall t | multiset(t) == multiset(skills) ensures StableSort(cmp, t) == StableSort(cmp, skills) {
        var again := Arrange(packs, t);
        SoundAnyOrder(env, packs, again, date);
        assert Creation(env, again, date) == Creation(env, packs, date);
      }
    }
  }

  lemma DistinctSkills(skills: seq<Skill>)
    requires DistinctIdentities(skills)
    ensures Distinct(skills)
  {
    forall i, j | 0 <= i < j < |skills| ensures skills[i] != skills[j] {
      assert Identities(skills)[i] != Identities(skills)[j];
    }
  }

  lemma SoundAnyOrder(env: Environment, packs: seq<Candidate>, again: seq<Candidate>, date: Text)
    requires Creation(env, packs, date).Ok? && multiset(again) == multiset(packs)
    ensures Creation(env, again, date) == Ok(StableSort(CompareEntries(env), Named(again)))
    ensures multiset(Named(again)) == multiset(Named(packs))
  {
    CreatesExactly(env, packs, date);
    CreatesExactly(env, again, date);
    NamedAnyOrder(packs, again);
    DistinctIdentitiesAnyOrder(Named(packs), Named(again));
    forall c | c in again ensures Stands(env, date, c) {
      assert c in multiset(packs);
    }
  }

  // --------------------------------------------------------------- identity

  /** `w` is what follows some `@` of `v`. */
  ghost predicate EndsAfterAt(v: Text, w: Text) {
    |w| < |v| && v[|v| - |w|..] == w && v[|v| - |w| - 1] == AT_SIGN
  }

  /** Some ids make two different id and version pairs share a key. */
  ghost predicate KeysClash(v: Text, w: Text) {
    exists a, b :: (a != b || v != w) && IdentityKey(a, v) == IdentityKey(b, w)
  }

  /** Two versions can share an identity exactly when one of them ends with an `@` and the other. */
  lemma KeysClashExactly(v: Text, w: Text)
    ensures KeysClash(v, w) <==> EndsAfterAt(v, w) || EndsAfterAt(w, v)
  {
    if a, b :| (a != b || v != w) && IdentityKey(a, v) == IdentityKey(b, w) {
      SameKeyMeans(a, v, b, w);
      SameKeyMeans(b, w, a, v);
    }
    if EndsAfterAt(v, w) { var a, b := ClashOf(v, w); }
    if EndsAfterAt(w, v) { var a, b := ClashOf(w, v); }
  }

  /**
   Equal keys with versions of one length are equal pairs; otherwise the longer version ends with an `@`
   and the other.
   */
  lemma SameKeyMeans(a: Text, v: Text, b: Text, w: Text)
    requires IdentityKey(a, v) == IdentityKey(b, w)
    ensures |v| == |w| ==> a == b && v == w
    ensures |w| < |v| ==> EndsAfterAt(v, w)
  {
    var k := IdentityKey(a, v);
    assert k[|a| + 1..] == v && k[..|a|] == a && k[|b| + 1..] == w && k[..|b|] == b && k[|b|] == AT_SIGN;
    if |w| < |v| {
      assert v[|v| - |w|..] == k[|b| + 1..];
      assert v[|v| - |w| - 1] == k[|b|];
    }
  }

  lemma ClashOf(v: Text, w: Text) returns (a: Text, b: Text)
    requires EndsAfterAt(v, w)
    ensures (a != b || v != w) && IdentityKey(a, v) == IdentityKey(b, w)
  {
    a, b := [], [AT_SIGN] + v[..|v| - |w| - 1];
    assert v == v[..|v| - |w| - 1] + [AT_SIGN] + w;
  }

  /**
   Agreement is by the joined identity, and it is equality of every pinned field for all skills with
   the two versions exactly when neither version ends with an `@` and the other.
   */
  lemma AgreementIsEquality(v: Text, w: Text)
    ensures (forall s: Skill, t: Skill :: s.version == v && t.version == w && Agrees(s, t) ==> s == t)
      <==> !EndsAfterAt(v, w) && !EndsAfterAt(w, v)
  {
    KeysClashExactly(v, w);
    if a, b :| (a != b || v != w) && IdentityKey(a, v) == IdentityKey(b, w) {
      var vigencia := Vigencia([], None);
      var s, t := Skill(a, v, [], [], vigencia), Skill(b, w, [], [], vigencia);
      assert Agrees(s, t) && s != t;
    }
    forall s: Skill, t: Skill | s.version == v && t.version == w && Agrees(s, t) && s != t ensures KeysClash(v, w) {
      assert IdentityKey(s.id, v) == IdentityKey(t.id, w);
    }
  }

  /** Two different skills that share an identity. */
  lemma IdentityIsAmbiguous(checksum: Text, jurisdiction: Text, vigencia: Vigencia)
    ensures var a, at, b := [ZERO], [AT_SIGN], [ZERO + 1];
      var s := Skill(a + at + b, b, checksum, jurisdiction, vigencia);
      var t := Skill(a, b + at + b, checksum, jurisdiction, vigencia);
      s != t && Agrees(s, t)
  {
    var a, at, b := [ZERO], [AT_SIGN], [ZERO + 1];
    assert IdentityKey(a + at + b, b) == IdentityKey(a, b + at + b);
    assert |a + at + b| != |a|;
  }

  // ----------------------------------------------------------- denial codes

  /** The codes about which identities the two sides name. */
  predicate IsAboutSides(code: Code) {
    code == MissingSkill || code == AdditionalSkill || code == IdMismatch || code == VersionMismatch
  }

  ghost predicate NoneAboutSides(found: seq<Denial>) {
    forall d <- found :: !IsAboutSides(d.code)
  }

  lemma {:induction false} RepeatCodes(skills: seq<Skill>)
    ensures NoneAboutSides(Repeats(skills))
  {
    if skills != [] { RepeatCodes(skills[..|skills| - 1]); }
  }

  lemma {:induction false} CandidateRepeatCodes(packs: seq<Candidate>)
    ensures NoneAboutSides(CandidateRepeats(packs))
  {
    if packs != [] { CandidateRepeatCodes(packs[..|packs| - 1]); }
  }

  lemma FlatMapCodes<S>(f: S -> seq<Denial>, s: seq<S>)
    requires forall y :: y in s ==> NoneAboutSides(f(y))
    ensures NoneAboutSides(FlatMap(f, s))
  {
    forall d | d in FlatMap(f, s) ensures !IsAboutSides(d.code) {
      FlatMapMember(f, s, d);
    }
  }

  lemma AbsentMember(skills: seq<Skill>, other: seq<Skill>, code: Code, d: Denial)
    ensures d in FlatMap(Absent(code, IndexOf(other).first), IndexOf(skills).keys)
      <==> d.code == code && d.identity in Identities(skills) && d.identity !in Identities(other)
  {
    var absent := Absent(code, IndexOf(other).first);
    IndexKeys(skills);
    IndexKeys(other);
    FlatMapMember(absent, IndexOf(skills).keys, d);
    if d.code == code && d.identity in Identities(skills) && d.identity !in Identities(other) {
      assert d.identity in IndexOf(skills).keys && d in absent(d.identity);
    }
  }

  lemma ProblemsMember(env: Environment, pin: seq<Skill>, packs: seq<Candidate>, date: Text, d: Denial)
    ensures var offered := Named(packs); d in PinProblems(env, pin, packs, date) <==>
      || d in Repeats(pin)
      || d in CandidateProblems(env, packs, date)
      || d in FlatMap(Absent(MissingSkill, IndexOf(offered).first), IndexOf(pin).keys)
      || d in FlatMap(Absent(AdditionalSkill, IndexOf(pin).first), IndexOf(offered).keys)
      || d in FlatMap(Reversioned(pin, offered), pin)
      || d in FlatMap(Drift(IndexOf(pin).first, IndexOf(offered).first), IndexOf(pin).keys)
  {
  }

  lemma PackProblemCodes(env: Environment, packs: seq<Candidate>, date: Text)
    ensures NoneAboutSides(CandidateProblems(env, packs, date))
  {
    forall c | c in packs ensures NoneAboutSides(PackProblems(env, date)(c)) {
    }
    CandidateRepeatCodes(packs);
    FlatMapCodes(PackProblems(env, date), packs);
  }

  lemma DriftCodes(bound: map<Text, Skill>, found: map<Text, Skill>, keys: seq<Text>)
    ensures NoneAboutSides(FlatMap(Drift(bound, found), keys))
  {
    FlatMapCodes(Drift(bound, found), keys);
  }

  /** What reports a code about which identities the two sides name. */
  lemma ReportedBy(env: Environment, pin: seq<Skill>, packs: seq<Candidate>, date: Text, d: Denial)
    requires IsAboutSides(d.code)
    ensures d in PinProblems(env, pin, packs, date) <==>
      || (d.code == MissingSkill && d.identity in Identities(pin) && d.identity !in Identities(Named(packs)))
      || (d.code == AdditionalSkill && d.identity in Identities(Named(packs)) && d.identity !in Identities(pin))
      || (d.code == VersionMismatch && d in FlatMap(Reversioned(pin, Named(packs)), pin))
  {
    ProblemsMember(env, pin, packs, date, d);
    RepeatCodes(pin);
    PackProblemCodes(env, packs, date);
    DriftCodes(IndexOf(pin).first, IndexOf(Named(packs)).first, IndexOf(pin).keys);
    if d in FlatMap(Reversioned(pin, Named(packs)), pin) { ReversionedIsMissing(pin, Named(packs), d); }
    AbsentMember(pin, Named(packs), MissingSkill, d);
    AbsentMember(Named(packs), pin, AdditionalSkill, d);
  }

  /**
   A denial names exactly the pinned skills that are missing and the offered skills that are not
   pinned; a changed version is always also a missing skill, and `id-mismatch` is never reported.
   */
  lemma DenialNames(env: Environment, pin: seq<Skill>, packs: seq<Candidate>, date: Text, k: Text)
    requires env.isDate(date) && Verification(env, pin, packs, date).Err?
    ensures var reasons := Verification(env, pin, packs, date).error;
      && (Denial(MissingSkill, k) in reasons <==> k in Identities(pin) && k !in Identities(Named(packs)))
      && (Denial(AdditionalSkill, k) in reasons <==> k in Identities(Named(packs)) && k !in Identities(pin))
      && (Denial(VersionMismatch, k) in reasons ==> Denial(MissingSkill, k) in reasons)
      && Denial(IdMismatch, k) !in reasons
  {
    DenialIsCanonical(PinProblems(env, pin, packs, date), PinProblems(env, pin, packs, date));
    ReportedBy(env, pin, packs, date, Denial(MissingSkill, k));
    ReportedBy(env, pin, packs, date, Denial(AdditionalSkill, k));
    ReportedBy(env, pin, packs, date, Denial(IdMismatch, k));
    ReportedBy(env, pin, packs, date, Denial(VersionMismatch, k));
    if d: Denial :| d in FlatMap(Reversioned(pin, Named(packs)), pin) && d.identity == k {
      ReversionedIsMissing(pin, Named(packs), d);
      AbsentMember(pin, Named(packs), MissingSkill, Denial(MissingSkill, k));
    }
  }
}
