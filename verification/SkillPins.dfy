/**
 Mission skill pins (`skills/pinning.ts`): creating a pin over a verified pack set, and verifying a
 pin against a candidate set.  Signature checking, date parsing and version parsing are parameters.
 */
module SkillPins {
  import opened Ordering
  import opened Wrappers
  import opened JsText

  /** From (inclusive) until `to` (exclusive), or for ever. */
  datatype Vigencia = Vigencia(from: Text, to: Option<Text>)

  /** The pinned fields of a skill: a pin entry, or what a pack declares. */
  datatype Skill = Skill(id: Text, version: Text, checksum: Text, jurisdiction: Text, vigencia: Vigencia)

  /** An untrusted candidate: a non-object, or a wrapper whose pack may lack an identity. */
  datatype Candidate = NotObject | Wrapper(skill: Option<Skill>, seal: Text)

  datatype PackReason =
    | MalformedSignedPack | PackChecksumMismatch | MalformedPublicKey
    | PublicKeyMismatch | MalformedSignature | SignatureInvalid

  datatype Code =
    | MalformedPin | MalformedCandidateSet | InvalidReferenceDate | DuplicatePinIdentity | DuplicateCandidateIdentity
    | MissingSkill | AdditionalSkill | IdMismatch | VersionMismatch | ChecksumMismatch | JurisdictionMismatch
    | VigenciaMismatch | SkillOutOfForce | CandidateMalformed | CandidatePublicKeyInvalid | CandidateSignatureInvalid

  /** A denial reason; `identity` is empty when the reason carries none. */
  datatype Denial = Denial(code: Code, identity: Text)

  /** `verify` lists why a pack does not verify, and is empty for a valid one. */
  datatype Environment = Environment(
    isDate: Text -> bool,
    verify: Candidate -> seq<PackReason>,
    semver: Text -> (real, real, real))

  const AT_SIGN: CodeUnit := 0x40

  function IdentityKey(id: Text, version: Text): (key: Text)
    ensures AT_SIGN in key
  {
    assert (id + [AT_SIGN])[|id|] == AT_SIGN;
    id + [AT_SIGN] + version
  }

  function Identity(s: Skill): Text {
    IdentityKey(s.id, s.version)
  }

  function Identities(skills: seq<Skill>): (ids: seq<Text>)
    ensures |ids| == |skills| && forall i :: 0 <= i < |ids| ==> ids[i] == Identity(skills[i])
  {
    seq(|skills|, i requires 0 <= i < |skills| => Identity(skills[i]))
  }

  function ExtractSkill(c: Candidate): Option<Skill> {
    if c.NotObject? then None else c.skill
  }

  predicate InForce(v: Vigencia, at: Text) {
    !LexLess(at, v.from) && (v.to.Some? ==> LexLess(at, v.to.value))
  }

  // ------------------------------------------------------------- ordering

  predicate SemverLess(a: (real, real, real), b: (real, real, real)) {
    || a.0 < b.0
    || (a.0 == b.0 && a.1 < b.1)
    || (a.0 == b.0 && a.1 == b.1 && a.2 < b.2)
  }

  predicate EntryBefore(env: Environment, a: Skill, b: Skill) {
    if a.id != b.id then LexLess(a.id, b.id) else SemverLess(env.semver(a.version), env.semver(b.version))
  }

  function CompareEntries(env: Environment): (Skill, Skill) -> bool {
    (a: Skill, b: Skill) => EntryBefore(env, a, b)
  }

  function Order(code: Code): nat {
    match code
    case MalformedPin => 0
    case MalformedCandidateSet => 1
    case InvalidReferenceDate => 2
    case DuplicatePinIdentity => 3
    case DuplicateCandidateIdentity => 4
    case MissingSkill => 5
    case AdditionalSkill => 6
    case IdMismatch => 7
    case VersionMismatch => 8
    case ChecksumMismatch => 9
    case JurisdictionMismatch => 10
    case VigenciaMismatch => 11
    case SkillOutOfForce => 12
    case CandidateMalformed => 13
    case CandidatePublicKeyInvalid => 14
    case CandidateSignatureInvalid => 15
  }

  predicate DenialBefore(a: Denial, b: Denial) {
    if Order(a.code) != Order(b.code) then Order(a.code) < Order(b.code) else LexLess(a.identity, b.identity)
  }

  /** First occurrences, in order. */
  function Unique(items: seq<Denial>): seq<Denial> {
    if items == [] then []
    else
      var front, last := items[..|items| - 1], items[|items| - 1];
      if last in front then Unique(front) else Unique(front) + [last]
  }

  function Canonical(items: seq<Denial>): seq<Denial> {
    StableSort(DenialBefore, Unique(items))
  }

  method AssembleDenial(items: seq<Denial>) returns (reasons: seq<Denial>)
    ensures reasons == Canonical(items)
  {
    var seen: set<Denial> := {};
    var unique: seq<Denial> := [];
    for i := 0 to |items|
      invariant unique == Unique(items[..i]) && forall d :: d in seen <==> d in items[..i]
    {
      var item := items[i];
      assert items[..i + 1][..i] == items[..i] && items[..i + 1] == items[..i] + [item];
      if item in seen {
        continue;
      }
      seen := seen + {item};
      unique := unique + [item];
    }
    assert items[..|items|] == items;
    reasons := StableSort(DenialBefore, unique);
  }

  // ------------------------------------------------------ candidate checks

  /** The skills of the candidates that have an identity, in order. */
  function Named(packs: seq<Candidate>): seq<Skill> {
    if packs == [] then []
    else
      var last := ExtractSkill(packs[|packs| - 1]);
      Named(packs[..|packs| - 1]) + (if last.Some? then [last.value] else [])
  }

  /** One reason for every entry whose identity already occurred. */
  function Repeats(skills: seq<Skill>): seq<Denial> {
    if skills == [] then []
    else
      var front, identity := skills[..|skills| - 1], Identity(skills[|skills| - 1]);
      Repeats(front) + (if identity in Identities(front) then [Denial(DuplicatePinIdentity, identity)] else [])
  }

  /** One reason for every candidate without an identity or with one that already occurred. */
  function CandidateRepeats(packs: seq<Candidate>): seq<Denial> {
    if packs == [] then []
    else
      var front, last := packs[..|packs| - 1], ExtractSkill(packs[|packs| - 1]);
      CandidateRepeats(front) +
      (if last.None? then [Denial(CandidateMalformed, [])]
       else if Identity(last.value) in Identities(Named(front)) then
         [Denial(DuplicateCandidateIdentity, Identity(last.value))]
       else [])
  }

  function MapReason(reason: PackReason): Code {
    match reason
    case MalformedSignedPack => CandidateMalformed
    case PackChecksumMismatch => ChecksumMismatch
    case MalformedPublicKey => CandidatePublicKeyInvalid
    case PublicKeyMismatch => CandidatePublicKeyInvalid
    case MalformedSignature => CandidateSignatureInvalid
    case SignatureInvalid => CandidateSignatureInvalid
  }

  function MapReasons(reasons: seq<PackReason>, identity: Text): (ds: seq<Denial>)
    ensures |ds| == |reasons|
  {
    seq(|reasons|, i requires 0 <= i < |reasons| => Denial(MapReason(reasons[i]), identity))
  }

  /** Why one candidate does not stand on its own at the date. */
  function PackProblems(env: Environment, date: Text): Candidate -> seq<Denial> {
    (c: Candidate) =>
      if c.NotObject? then []
      else
        var identity := if c.skill.Some? then Identity(c.skill.value) else [];
        if env.verify(c) != [] then MapReasons(env.verify(c), identity)
        else if c.skill.Some? && !InForce(c.skill.value.vigencia, date) then [Denial(SkillOutOfForce, identity)]
        else []
  }

  function FlatMap<S, T>(f: S -> seq<T>, s: seq<S>): seq<T> {
    if s == [] then [] else FlatMap(f, s[..|s| - 1]) + f(s[|s| - 1])
  }

  /** The checks on the candidate set alone, shared by creation and verification. */
  function CandidateProblems(env: Environment, packs: seq<Candidate>, date: Text): seq<Denial> {
    CandidateRepeats(packs) + FlatMap(PackProblems(env, date), packs)
  }

  method CheckRepeats(packs: seq<Candidate>) returns (reasons: seq<Denial>)
    ensures reasons == CandidateRepeats(packs)
  {
    var seen: map<Text, nat> := map[];
    reasons := [];
    for i := 0 to |packs|
      invariant reasons == CandidateRepeats(packs[..i])
      invariant forall k :: k in seen <==> k in Identities(Named(packs[..i]))
      invariant forall k :: k in seen ==> seen[k] >= 1
    {
      assert packs[..i + 1][..i] == packs[..i];
      NamedOneMore(packs, i);
      var skill := ExtractSkill(packs[i]);
      if skill.None? {
        reasons := reasons + [Denial(CandidateMalformed, [])];
        continue;
      }
      var identity := Identity(skill.value);
      var count := if identity in seen then seen[identity] else 0;
      seen := seen[identity := count + 1];
      if count >= 1 {
        reasons := reasons + [Denial(DuplicateCandidateIdentity, identity)];
      }
    }
    assert packs[..|packs|] == packs;
  }

  lemma NamedOneMore(packs: seq<Candidate>, i: nat)
    requires i < |packs|
    ensures var front, last := Named(packs[..i]), ExtractSkill(packs[i]);
      && Named(packs[..i + 1]) == front + (if last.Some? then [last.value] else [])
      && forall k :: k in Identities(Named(packs[..i + 1])) <==>
           k in Identities(front) || (last.Some? && k == Identity(last.value))
  {
    assert packs[..i + 1][..i] == packs[..i];
    var front, last := Named(packs[..i]), ExtractSkill(packs[i]);
    if last.Some? {
      assert Identities(front + [last.value]) == Identities(front) + [Identity(last.value)];
    } else {
      assert front + [] == front;
    }
  }

  method CheckPacks(env: Environment, packs: seq<Candidate>, date: Text) returns (reasons: seq<Denial>)
    ensures reasons == FlatMap(PackProblems(env, date), packs)
  {
    reasons := [];
    for i := 0 to |packs|
      invariant reasons == FlatMap(PackProblems(env, date), packs[..i])
    {
      assert packs[..i + 1][..i] == packs[..i];
      if packs[i].NotObject? {
        continue;
      }
      var identity := if packs[i].skill.Some? then Identity(packs[i].skill.value) else [];
      if env.verify(packs[i]) != [] {
        reasons := reasons + MapReasons(env.verify(packs[i]), identity);
        continue;
      }
      if packs[i].skill.Some? && !InForce(packs[i].skill.value.vigencia, date) {
        reasons := reasons + [Denial(SkillOutOfForce, identity)];
      }
    }
    assert packs[..|packs|] == packs;
  }

  /** The pin, or the denial: canonical reasons. */
  method CreateMissionSkillPin(env: Environment, packs: seq<Candidate>, date: Text)
    returns (r: Result<seq<Skill>, seq<Denial>>)
    ensures r == Creation(env, packs, date)
  {
    if !env.isDate(date) {
      var reasons := AssembleDenial([Denial(InvalidReferenceDate, [])]);
      return Err(reasons);
    }
    var repeats := CheckRepeats(packs);
    var problems := CheckPacks(env, packs, date);
    if |repeats + problems| > 0 {
      var reasons := AssembleDenial(repeats + problems);
      return Err(reasons);
    }
    var entries: seq<Skill> := [];
    for i := 0 to |packs|
      invariant entries == Named(packs[..i])
    {
      NamedOneMore(packs, i);
      NoProblemsMeansNamed(packs, i);
      entries := entries + [packs[i].skill.value];
    }
    assert packs[..|packs|] == packs;
    r := Ok(StableSort(CompareEntries(env), entries));
  }

  lemma {:induction false} NoProblemsMeansNamed(packs: seq<Candidate>, i: nat)
    requires i < |packs| && CandidateRepeats(packs) == []
    ensures ExtractSkill(packs[i]).Some?
  {
    if i < |packs| - 1 { NoProblemsMeansNamed(packs[..|packs| - 1], i); }
  }

  function Creation(env: Environment, packs: seq<Candidate>, date: Text): Result<seq<Skill>, seq<Denial>> {
    if !env.isDate(date) then Err(Canonical([Denial(InvalidReferenceDate, [])]))
    else
      var problems := CandidateProblems(env, packs, date);
      if problems == [] then Ok(StableSort(CompareEntries(env), Named(packs))) else Err(Canonical(problems))
  }

  // ---------------------------------------------------------- comparisons

  /** A JavaScript `Map` from identity to the first skill that has it: its keys in insertion order, and its values. */
  datatype Index = Index(keys: seq<Text>, first: map<Text, Skill>)

  function IndexOf(skills: seq<Skill>): Index {
    if skills == [] then Index([], map[])
    else
      var front, last := IndexOf(skills[..|skills| - 1]), skills[|skills| - 1];
      if Identity(last) in front.first then front
      else Index(front.keys + [Identity(last)], front.first[Identity(last) := last])
  }

  method IndexSkills(skills: seq<Skill>) returns (index: Index)
    ensures index == IndexOf(skills)
  {
    var keys: seq<Text>, first: map<Text, Skill> := [], map[];
    for i := 0 to |skills|
      invariant Index(keys, first) == IndexOf(skills[..i])
    {
      assert skills[..i + 1][..i] == skills[..i];
      var identity := Identity(skills[i]);
      if identity !in first {
        keys, first := keys + [identity], first[identity := skills[i]];
      }
    }
    assert skills[..|skills|] == skills;
    index := Index(keys, first);
  }

  /** The candidates that have an identity, projected. */
  method ProjectNamed(packs: seq<Candidate>) returns (skills: seq<Skill>)
    ensures skills == Named(packs)
  {
    skills := [];
    for i := 0 to |packs|
      invariant skills == Named(packs[..i])
    {
      NamedOneMore(packs, i);
      var skill := ExtractSkill(packs[i]);
      if skill.Some? {
        skills := skills + [skill.value];
      }
    }
    assert packs[..|packs|] == packs;
  }

  function Absent(code: Code, other: map<Text, Skill>): Text -> seq<Denial> {
    (k: Text) => if k in other then [] else [Denial(code, k)]
  }

  method CheckAbsent(keys: seq<Text>, other: map<Text, Skill>, code: Code) returns (reasons: seq<Denial>)
    ensures reasons == FlatMap(Absent(code, other), keys)
  {
    reasons := [];
    for i := 0 to |keys|
      invariant reasons == FlatMap(Absent(code, other), keys[..i])
    {
      assert keys[..i + 1][..i] == keys[..i];
      if keys[i] !in other {
        reasons := reasons + [Denial(code, keys[i])];
      }
    }
    assert keys[..|keys|] == keys;
  }

  /** The part of an identity before its last `@`. */
  function IdPart(identity: Text): Text {
    if identity == [] then []
    else if identity[|identity| - 1] == AT_SIGN then identity[..|identity| - 1]
    else IdPart(identity[..|identity| - 1])
  }

  function Ids(skills: seq<Skill>): (ids: seq<Text>)
    ensures |ids| == |skills|
  {
    seq(|skills|, i requires 0 <= i < |skills| => skills[i].id)
  }

  function IdParts(skills: seq<Skill>): (ids: seq<Text>)
    ensures |ids| == |skills|
  {
    seq(|skills|, i requires 0 <= i < |skills| => IdPart(Identity(skills[i])))
  }

  function Count(ids: seq<Text>, id: Text): nat {
    if ids == [] then 0 else Count(ids[..|ids| - 1], id) + (if ids[|ids| - 1] == id then 1 else 0)
  }

  /** How often each id occurs; an absent id occurs zero times. */
  method CountIds(ids: seq<Text>) returns (counts: map<Text, nat>)
    ensures forall id :: (if id in counts then counts[id] else 0) == Count(ids, id)
  {
    counts := map[];
    for i := 0 to |ids|
      invariant forall id :: (if id in counts then counts[id] else 0) == Count(ids[..i], id)
    {
      assert ids[..i + 1][..i] == ids[..i];
      var before := if ids[i] in counts then counts[ids[i]] else 0;
      counts := counts[ids[i] := before + 1];
    }
    assert ids[..|ids|] == ids;
  }

  /** An id that is pinned once and offered once, but under another version. */
  function Reversioned(pin: seq<Skill>, offered: seq<Skill>): Skill -> seq<Denial> {
    (s: Skill) =>
      if Count(Ids(pin), s.id) == 1 && Count(IdParts(offered), s.id) == 1 && Identity(s) !in IndexOf(offered).first
      then [Denial(VersionMismatch, Identity(s))]
      else []
  }

  method CheckVersions(pin: seq<Skill>, offered: seq<Skill>, candidates: map<Text, Skill>)
    returns (reasons: seq<Denial>)
    requires candidates == IndexOf(offered).first
    ensures reasons == FlatMap(Reversioned(pin, offered), pin)
  {
    var bound := CountIds(Ids(pin));
    var found := CountIds(IdParts(offered));
    reasons := [];
    for i := 0 to |pin|
      invariant reasons == FlatMap(Reversioned(pin, offered), pin[..i])
    {
      assert pin[..i + 1][..i] == pin[..i];
      if (if pin[i].id in bound then bound[pin[i].id] else 0) != 1 {
        continue;
      }
      if (if pin[i].id in found then found[pin[i].id] else 0) != 1 {
        continue;
      }
      if Identity(pin[i]) in candidates {
        continue;
      }
      reasons := reasons + [Denial(VersionMismatch, Identity(pin[i]))];
    }
    assert pin[..|pin|] == pin;
  }

  /** The fields of a pinned skill that its candidate does not share. */
  function Drift(bound: map<Text, Skill>, candidates: map<Text, Skill>): Text -> seq<Denial> {
    (k: Text) =>
      if k !in bound || k !in candidates then []
      else FieldDrift(candidates[k], bound[k], k)
  }

  function FieldDrift(candidate: Skill, entry: Skill, k: Text): seq<Denial> {
    (if candidate.checksum != entry.checksum then [Denial(ChecksumMismatch, k)] else [])
    + (if candidate.jurisdiction != entry.jurisdiction then [Denial(JurisdictionMismatch, k)] else [])
    + (if candidate.vigencia != entry.vigencia then [Denial(VigenciaMismatch, k)] else [])
  }

  method CheckFields(candidate: Skill, entry: Skill, k: Text) returns (found: seq<Denial>)
    ensures found == FieldDrift(candidate, entry, k)
  {
    found := [];
    if candidate.checksum != entry.checksum {
      found := found + [Denial(ChecksumMismatch, k)];
    }
    if candidate.jurisdiction != entry.jurisdiction {
      found := found + [Denial(JurisdictionMismatch, k)];
    }
    if candidate.vigencia != entry.vigencia {
      found := found + [Denial(VigenciaMismatch, k)];
    }
  }

  method CheckDrift(keys: seq<Text>, bound: map<Text, Skill>, candidates: map<Text, Skill>)
    returns (reasons: seq<Denial>)
    requires forall k :: k in keys ==> k in bound
    ensures reasons == FlatMap(Drift(bound, candidates), keys)
  {
    reasons := [];
    for i := 0 to |keys|
      invariant reasons == FlatMap(Drift(bound, candidates), keys[..i])
    {
      assert keys[..i + 1][..i] == keys[..i];
      var k := keys[i];
      if k !in candidates {
        continue;
      }
      var found := CheckFields(candidates[k], bound[k], k);
      reasons := reasons + found;
    }
    assert keys[..|keys|] == keys;
  }

  method CheckPinRepeats(pin: seq<Skill>) returns (reasons: seq<Denial>)
    ensures reasons == Repeats(pin)
  {
    var seen: map<Text, nat> := map[];
    reasons := [];
    for i := 0 to |pin|
      invariant reasons == Repeats(pin[..i])
      invariant forall k :: k in seen <==> k in Identities(pin[..i])
      invariant forall k :: k in seen ==> seen[k] >= 1
    {
      assert pin[..i + 1][..i] == pin[..i];
      assert Identities(pin[..i + 1]) == Identities(pin[..i]) + [Identity(pin[i])];
      var identity := Identity(pin[i]);
      var count := if identity in seen then seen[identity] else 0;
      seen := seen[identity := count + 1];
      if count >= 1 {
        reasons := reasons + [Denial(DuplicatePinIdentity, identity)];
      }
    }
    assert pin[..|pin|] == pin;
  }

  /** Everything a verification finds, in the order it finds it. */
  function PinProblems(env: Environment, pin: seq<Skill>, packs: seq<Candidate>, date: Text): seq<Denial> {
    var bound, candidates := IndexOf(pin), IndexOf(Named(packs));
    Repeats(pin) + CandidateProblems(env, packs, date)
    + FlatMap(Absent(MissingSkill, candidates.first), bound.keys)
    + FlatMap(Absent(AdditionalSkill, bound.first), candidates.keys)
    + FlatMap(Reversioned(pin, Named(packs)), pin)
    + FlatMap(Drift(bound.first, candidates.first), bound.keys)
  }

  function Verification(env: Environment, pin: seq<Skill>, packs: seq<Candidate>, date: Text): Result<(), seq<Denial>> {
    if !env.isDate(date) then Err(Canonical([Denial(InvalidReferenceDate, [])]))
    else
      var problems := PinProblems(env, pin, packs, date);
      if problems == [] then Ok(()) else Err(Canonical(problems))
  }

  method VerifyMissionSkillPin(env: Environment, pin: seq<Skill>, packs: seq<Candidate>, date: Text)
    returns (r: Result<(), seq<Denial>>)
    ensures r == Verification(env, pin, packs, date)
  {
    if !env.isDate(date) {
      var reasons := AssembleDenial([Denial(InvalidReferenceDate, [])]);
      return Err(reasons);
    }
    var pinRepeats := CheckPinRepeats(pin);
    var repeats := CheckRepeats(packs);
    var problems := CheckPacks(env, packs, date);
    var offered := ProjectNamed(packs);
    var bound := IndexSkills(pin);
    var candidates := IndexSkills(offered);
    var missing := CheckAbsent(bound.keys, candidates.first, MissingSkill);
    var additional := CheckAbsent(candidates.keys, bound.first, AdditionalSkill);
    var versions := CheckVersions(pin, offered, candidates.first);
    IndexKeys(pin);
    var drift := CheckDrift(bound.keys, bound.first, candidates.first);
    var all := pinRepeats + (repeats + problems) + missing + additional + versions + drift;
    if |all| == 0 {
      return Ok(());
    }
    var reasons := AssembleDenial(all);
    r := Err(reasons);
  }

  /** One key per identity, each holding a skill with that identity. */
  ghost predicate Indexes(index: Index, skills: seq<Skill>) {
    && (forall k :: k in index.keys <==> k in index.first)
    && (forall k :: k in index.first <==> k in Identities(skills))
    && (forall k :: k in index.first ==> index.first[k] in skills && Identity(index.first[k]) == k)
  }

  lemma {:induction false} IndexKeys(skills: seq<Skill>)
    ensures Indexes(IndexOf(skills), skills)
  {
    if skills != [] {
      var front, last := skills[..|skills| - 1], skills[|skills| - 1];
      IndexKeys(front);
      assert skills == front + [last];
      IndexOneMore(IndexOf(front), front, last);
    }
  }

  lemma IndexOneMore(index: Index, skills: seq<Skill>, last: Skill)
    requires Indexes(index, skills)
    ensures Identity(last) in index.first ==> Indexes(index, skills + [last])
    ensures Identity(last) !in index.first ==>
      Indexes(Index(index.keys + [Identity(last)], index.first[Identity(last) := last]), skills + [last])
  {
    assert Identities(skills + [last]) == Identities(skills) + [Identity(last)];
  }
}
