/**
 Walking an append-only ledger chain once (`ledger/validate.ts`): every violation of the nine chain
 rules, and the first divergence.
 */
module Ledger {
  import opened Wrappers
  import opened Hex

  datatype EntryType = Genesis | ReceiptRecorded | AttestationAdded | EntrySuperseded | EntryRevoked | CheckpointCreated

  datatype Entry = Entry(ledgerId: string, sequence: int, entryType: EntryType, previousEntryHash: string,
                         payloadHash: string, receiptHash: string, schemaVersion: string, signerKeyId: string,
                         signature: Option<string>, signerPublicKey: Option<string>)

  datatype Reason =
    | ChainEmpty
    | WrongLedger
    | NotGenesis | GenesisLink | GenesisSequence
    | BrokenLink | SequenceGap
    | PayloadHashFormat | ReceiptHashFormat | PreviousHashFormat
    | HashOnlySigned | SignatureMissing | PublicKeyMissing
    | ReceiptNotBacked
    | SchemaChanged

  datatype Finding = Finding(index: int, reason: Reason)

  datatype Validation = Validation(valid: bool, firstDivergence: Option<Finding>, reasons: seq<Finding>)

  const GENESIS_EMPTY_HASH := "e3b0c44298fc1c149afbf4c8996fb92427ae41e4649b934ca495991b7852b855"

  const HASH_ONLY_SIGNER := "hash-only"

  /** `(text ?? "").length === 0` */
  predicate Blank(text: Option<string>) {
    text.None? || text.value == ""
  }

  // ------------------------------------------------------ the stated rules

  ghost predicate Anchored(e: Entry) {
    e.entryType == Genesis && e.previousEntryHash == GENESIS_EMPTY_HASH && e.sequence == 1
  }

  ghost predicate Continues(e: Entry, previous: Entry) {
    e.previousEntryHash == previous.payloadHash && e.sequence == previous.sequence + 1
  }

  ghost predicate HashesWellFormed(e: Entry) {
    IsHex64(e.payloadHash) && IsHex64(e.receiptHash) && IsHex64(e.previousEntryHash)
  }

  ghost predicate SignerMaterial(e: Entry) {
    if e.signerKeyId == HASH_ONLY_SIGNER then
      e.signature.None? && e.signerPublicKey.None?
    else
      && e.signature.Some? && e.signature.value != ""
      && e.signerPublicKey.Some? && e.signerPublicKey.value != ""
  }

  /** Entry `i` keeps rules 2 to 9 of the chain contract. */
  ghost predicate KeepsRules(ledgerId: string, entries: seq<Entry>, i: nat)
    requires i < |entries|
  {
    var e := entries[i];
    && e.ledgerId == ledgerId
    && (if i == 0 then Anchored(e) else Continues(e, entries[i - 1]))
    && HashesWellFormed(e)
    && SignerMaterial(e)
    && (e.entryType == ReceiptRecorded ==> e.receiptHash != GENESIS_EMPTY_HASH)
    && e.schemaVersion == entries[0].schemaVersion
  }

  ghost predicate ValidChain(ledgerId: string, entries: seq<Entry>) {
    entries != [] && forall i :: 0 <= i < |entries| ==> KeepsRules(ledgerId, entries, i)
  }

  // ------------------------------------------------------------- the report

  /** Entry `i` violates the rule the reason names. */
  predicate Breaks(ledgerId: string, entries: seq<Entry>, i: nat, reason: Reason)
    requires i < |entries|
  {
    var e := entries[i];
    match reason
    case ChainEmpty => false
    case WrongLedger => e.ledgerId != ledgerId
    case NotGenesis => i == 0 && e.entryType != Genesis
    case GenesisLink => i == 0 && e.previousEntryHash != GENESIS_EMPTY_HASH
    case GenesisSequence => i == 0 && e.sequence != 1
    case BrokenLink => i > 0 && e.previousEntryHash != entries[i - 1].payloadHash
    case SequenceGap => i > 0 && e.sequence != entries[i - 1].sequence + 1
    case PayloadHashFormat => !IsHex64(e.payloadHash)
    case ReceiptHashFormat => !IsHex64(e.receiptHash)
    case PreviousHashFormat => !IsHex64(e.previousEntryHash)
    case HashOnlySigned => e.signerKeyId == HASH_ONLY_SIGNER && (e.signature.Some? || e.signerPublicKey.Some?)
    case SignatureMissing => e.signerKeyId != HASH_ONLY_SIGNER && Blank(e.signature)
    case PublicKeyMissing => e.signerKeyId != HASH_ONLY_SIGNER && Blank(e.signerPublicKey)
    case ReceiptNotBacked => e.entryType == ReceiptRecorded && e.receiptHash == GENESIS_EMPTY_HASH
    case SchemaChanged => i > 0 && e.schemaVersion != entries[0].schemaVersion
  }

  lemma KeptRuleUnbroken(ledgerId: string, entries: seq<Entry>, i: nat, reason: Reason)
    requires i < |entries| && KeepsRules(ledgerId, entries, i)
    ensures !Breaks(ledgerId, entries, i, reason)
  {
  }

  lemma UnbrokenMeansKept(ledgerId: string, entries: seq<Entry>, i: nat)
    requires i < |entries| && forall reason :: !Breaks(ledgerId, entries, i, reason)
    ensures KeepsRules(ledgerId, entries, i)
  {
    var e := entries[i];
    assert e.ledgerId == ledgerId by { assert !Breaks(ledgerId, entries, i, WrongLedger); }
    assert HashesWellFormed(e) by {
      assert !Breaks(ledgerId, entries, i, PayloadHashFormat) && !Breaks(ledgerId, entries, i, ReceiptHashFormat);
      assert !Breaks(ledgerId, entries, i, PreviousHashFormat);
    }
    assert SignerMaterial(e) by {
      assert !Breaks(ledgerId, entries, i, HashOnlySigned);
      assert !Breaks(ledgerId, entries, i, SignatureMissing) && !Breaks(ledgerId, entries, i, PublicKeyMissing);
    }
    assert !Breaks(ledgerId, entries, i, ReceiptNotBacked) && !Breaks(ledgerId, entries, i, SchemaChanged);
    if i == 0 {
      assert !Breaks(ledgerId, entries, i, NotGenesis) && !Breaks(ledgerId, entries, i, GenesisLink);
      assert !Breaks(ledgerId, entries, i, GenesisSequence);
    } else {
      assert !Breaks(ledgerId, entries, i, BrokenLink) && !Breaks(ledgerId, entries, i, SequenceGap);
    }
  }

  /** An entry breaks some rule exactly when it fails one of the stated ones. */
  lemma RulesAreExact(ledgerId: string, entries: seq<Entry>, i: nat)
    requires i < |entries|
    ensures KeepsRules(ledgerId, entries, i) <==> forall reason :: !Breaks(ledgerId, entries, i, reason)
  {
    if KeepsRules(ledgerId, entries, i) {
      forall reason ensures !Breaks(ledgerId, entries, i, reason) { KeptRuleUnbroken(ledgerId, entries, i, reason); }
    }
    if forall reason :: !Breaks(ledgerId, entries, i, reason) {
      UnbrokenMeansKept(ledgerId, entries, i);
    }
  }

  /** Where a rule stands in the order the walk checks them. */
  function Rank(reason: Reason): nat {
    match reason
    case ChainEmpty => 0
    case WrongLedger => 1
    case NotGenesis => 2
    case GenesisLink => 3
    case GenesisSequence => 4
    case BrokenLink => 5
    case SequenceGap => 6
    case PayloadHashFormat => 7
    case ReceiptHashFormat => 8
    case PreviousHashFormat => 9
    case HashOnlySigned => 10
    case SignatureMissing => 11
    case PublicKeyMissing => 12
    case ReceiptNotBacked => 13
    case SchemaChanged => 14
  }

  ghost predicate Before(a: Finding, b: Finding) {
    a.index < b.index || (a.index == b.index && Rank(a.reason) < Rank(b.reason))
  }

  /** Earlier entries first, and the rules of one entry in checking order; no finding twice. */
  ghost predicate InOrder(found: seq<Finding>) {
    forall i, j :: 0 <= i < j < |found| ==> Before(found[i], found[j])
  }

  /** The findings are the violations of entry `i` with ranks from `low` to `high`. */
  ghost predicate Covers(ledgerId: string, entries: seq<Entry>, i: nat, low: int, high: int, found: seq<Finding>)
    requires i < |entries|
  {
    && InOrder(found)
    && (forall f <- found :: f.index == i && low <= Rank(f.reason) <= high)
    && (forall reason :: low <= Rank(reason) <= high ==>
          (Finding(i, reason) in found <==> Breaks(ledgerId, entries, i, reason)))
  }

  /** All violations of the first `n` entries, in order. */
  ghost predicate CoversPrefix(ledgerId: string, entries: seq<Entry>, n: nat, found: seq<Finding>)
    requires n <= |entries|
  {
    && InOrder(found)
    && (forall f <- found :: 0 <= f.index < n && Breaks(ledgerId, entries, f.index, f.reason))
    && (forall i, reason :: 0 <= i < n && Breaks(ledgerId, entries, i, reason) ==> Finding(i, reason) in found)
  }

  lemma InOrderConcat(a: seq<Finding>, b: seq<Finding>)
    requires InOrder(a) && InOrder(b)
    requires forall x <- a, y <- b :: Before(x, y)
    ensures InOrder(a + b)
  {
  }

  lemma CoversConcat(ledgerId: string, entries: seq<Entry>, i: nat, low: nat, mid: nat, high: nat,
                     a: seq<Finding>, b: seq<Finding>)
    requires i < |entries| && low <= mid <= high
    requires Covers(ledgerId, entries, i, low, mid, a) && Covers(ledgerId, entries, i, mid + 1, high, b)
    ensures Covers(ledgerId, entries, i, low, high, a + b)
  {
    InOrderConcat(a, b);
  }

  lemma CoversOneMore(ledgerId: string, entries: seq<Entry>, n: nat, a: seq<Finding>, b: seq<Finding>)
    requires n < |entries|
    requires CoversPrefix(ledgerId, entries, n, a) && Covers(ledgerId, entries, n, 1, 14, b)
    ensures CoversPrefix(ledgerId, entries, n + 1, a + b)
  {
    InOrderConcat(a, b);
    forall f <- a + b ensures 0 <= f.index < n + 1 && Breaks(ledgerId, entries, f.index, f.reason) {
      if f !in a { assert f in b && f == Finding(n, f.reason); }
    }
    forall i, reason | 0 <= i < n + 1 && Breaks(ledgerId, entries, i, reason) ensures Finding(i, reason) in a + b {
      if i < n { assert Finding(i, reason) in a; } else { assert Finding(n, reason) in b; }
    }
  }

  /** Rules with the ranks after `mid` hold, so there is nothing to add for them. */
  lemma CoversSkip(ledgerId: string, entries: seq<Entry>, i: nat, low: nat, mid: nat, high: nat, found: seq<Finding>)
    requires i < |entries| && low <= mid + 1 <= high + 1
    requires Covers(ledgerId, entries, i, low, mid, found)
    requires forall reason :: mid < Rank(reason) <= high ==> !Breaks(ledgerId, entries, i, reason)
    ensures Covers(ledgerId, entries, i, low, high, found)
  {
  }

  lemma RankIdentifies(a: Reason, b: Reason)
    ensures Rank(a) == Rank(b) ==> a == b
  {
  }

  // --------------------------------------------------------------- the walk

  /** One check of the walk: the violation is added when the rule is broken. */
  method Check(ledgerId: string, entries: seq<Entry>, i: nat, ghost low: nat, reason: Reason, broken: bool,
               found: seq<Finding>)
    returns (found': seq<Finding>)
    requires i < |entries| && low <= Rank(reason) && broken == Breaks(ledgerId, entries, i, reason)
    requires Covers(ledgerId, entries, i, low, Rank(reason) - 1, found)
    ensures Covers(ledgerId, entries, i, low, Rank(reason), found')
  {
    found' := found;
    if broken {
      found' := found + [Finding(i, reason)];
    }
    forall other | low <= Rank(other) <= Rank(reason)
      ensures Finding(i, other) in found' <==> Breaks(ledgerId, entries, i, other)
    {
      RankIdentifies(other, reason);
    }
  }

  /** Rules 7, 2, 3 and 4: the ledger, the anchor and the link to the entry before. */
  method CheckLink(ledgerId: string, entries: seq<Entry>, i: nat) returns (found: seq<Finding>)
    requires i < |entries|
    ensures Covers(ledgerId, entries, i, 1, 6, found)
  {
    var entry := entries[i];
    found := Check(ledgerId, entries, i, 1, WrongLedger, entry.ledgerId != ledgerId, []);
    if i == 0 {
      found := Check(ledgerId, entries, i, 1, NotGenesis, entry.entryType != Genesis, found);
      found := Check(ledgerId, entries, i, 1, GenesisLink, entry.previousEntryHash != GENESIS_EMPTY_HASH, found);
      found := Check(ledgerId, entries, i, 1, GenesisSequence, entry.sequence != 1, found);
      CoversSkip(ledgerId, entries, i, 1, 4, 6, found);
    } else {
      var previous := entries[i - 1];
      CoversSkip(ledgerId, entries, i, 1, 1, 4, found);
      found := Check(ledgerId, entries, i, 1, BrokenLink, entry.previousEntryHash != previous.payloadHash, found);
      found := Check(ledgerId, entries, i, 1, SequenceGap, entry.sequence != previous.sequence + 1, found);
    }
  }

  /** Rule 5: hash formats. */
  method CheckHashes(ledgerId: string, entries: seq<Entry>, i: nat) returns (found: seq<Finding>)
    requires i < |entries|
    ensures Covers(ledgerId, entries, i, 7, 9, found)
  {
    var entry := entries[i];
    found := Check(ledgerId, entries, i, 7, PayloadHashFormat, !IsHex64(entry.payloadHash), []);
    found := Check(ledgerId, entries, i, 7, ReceiptHashFormat, !IsHex64(entry.receiptHash), found);
    found := Check(ledgerId, entries, i, 7, PreviousHashFormat, !IsHex64(entry.previousEntryHash), found);
  }

  /** Rule 6: signer material, or none for a hash-only entry. */
  method CheckSigner(ledgerId: string, entries: seq<Entry>, i: nat) returns (found: seq<Finding>)
    requires i < |entries|
    ensures Covers(ledgerId, entries, i, 10, 12, found)
  {
    var entry := entries[i];
    if entry.signerKeyId == HASH_ONLY_SIGNER {
      var carries := entry.signature.Some? || entry.signerPublicKey.Some?;
      found := Check(ledgerId, entries, i, 10, HashOnlySigned, carries, []);
      CoversSkip(ledgerId, entries, i, 10, 10, 12, found);
    } else {
      CoversSkip(ledgerId, entries, i, 10, 9, 10, []);
      found := Check(ledgerId, entries, i, 10, SignatureMissing, Blank(entry.signature), []);
      found := Check(ledgerId, entries, i, 10, PublicKeyMissing, Blank(entry.signerPublicKey), found);
    }
  }

  /** Rules 8 and 9: the backing receipt and one schema version. */
  method CheckContent(ledgerId: string, entries: seq<Entry>, i: nat) returns (found: seq<Finding>)
    requires i < |entries|
    ensures Covers(ledgerId, entries, i, 13, 14, found)
  {
    var entry := entries[i];
    var unbacked := entry.entryType == ReceiptRecorded && entry.receiptHash == GENESIS_EMPTY_HASH;
    found := Check(ledgerId, entries, i, 13, ReceiptNotBacked, unbacked, []);
    var changed := i > 0 && entry.schemaVersion != entries[0].schemaVersion;
    found := Check(ledgerId, entries, i, 13, SchemaChanged, changed, found);
  }

  method CheckEntry(ledgerId: string, entries: seq<Entry>, i: nat) returns (found: seq<Finding>)
    requires i < |entries|
    ensures Covers(ledgerId, entries, i, 1, 14, found)
  {
    var link := CheckLink(ledgerId, entries, i);
    var hashes := CheckHashes(ledgerId, entries, i);
    var signer := CheckSigner(ledgerId, entries, i);
    var content := CheckContent(ledgerId, entries, i);
    CoversConcat(ledgerId, entries, i, 1, 6, 9, link, hashes);
    CoversConcat(ledgerId, entries, i, 1, 9, 12, link + hashes, signer);
    CoversConcat(ledgerId, entries, i, 1, 12, 14, link + hashes + signer, content);
    found := link + hashes + signer + content;
  }

  /** The first finding of a non-empty report is the least violation of the least violating entry. */
  ghost predicate Diverges(ledgerId: string, entries: seq<Entry>, f: Finding) {
    && 0 <= f.index < |entries| && Breaks(ledgerId, entries, f.index, f.reason)
    && (forall i :: 0 <= i < f.index ==> KeepsRules(ledgerId, entries, i))
    && (forall reason :: Rank(reason) < Rank(f.reason) ==> !Breaks(ledgerId, entries, f.index, reason))
  }

  lemma FirstFinding(ledgerId: string, entries: seq<Entry>, found: seq<Finding>)
    requires entries != [] && CoversPrefix(ledgerId, entries, |entries|, found)
    ensures found == [] <==> ValidChain(ledgerId, entries)
    ensures found != [] ==> Diverges(ledgerId, entries, found[0])
  {
    forall i | 0 <= i < |entries| { RulesAreExact(ledgerId, entries, i); }
    if found != [] {
      var f := found[0];
      assert f in found;
      assert !KeepsRules(ledgerId, entries, f.index);
      forall i, reason | 0 <= i < |entries| && Breaks(ledgerId, entries, i, reason)
        ensures !Before(Finding(i, reason), f)
      {
        var k :| 0 <= k < |found| && found[k] == Finding(i, reason);
      }
      forall reason | Rank(reason) < Rank(f.reason) ensures !Breaks(ledgerId, entries, f.index, reason) {
        assert Before(Finding(f.index, reason), f);
      }
      forall i | 0 <= i < f.index ensures KeepsRules(ledgerId, entries, i) {
        forall reason ensures !Breaks(ledgerId, entries, i, reason) {
          assert Before(Finding(i, reason), f);
        }
      }
    }
  }

  method ValidateLedger(ledgerId: string, entries: seq<Entry>) returns (r: Validation)
    ensures r.valid <==> ValidChain(ledgerId, entries)
    ensures r.valid <==> r.firstDivergence.None?
    ensures entries == [] ==>
            r.firstDivergence == Some(Finding(-1, ChainEmpty)) && r.reasons == [Finding(-1, ChainEmpty)]
    ensures entries != [] ==> CoversPrefix(ledgerId, entries, |entries|, r.reasons)
    ensures entries != [] && !r.valid ==>
      r.firstDivergence.Some? && Diverges(ledgerId, entries, r.firstDivergence.value)
        && r.firstDivergence.value == r.reasons[0]
  {
    if |entries| == 0 {
      return Validation(false, Some(Finding(-1, ChainEmpty)), [Finding(-1, ChainEmpty)]);
    }
    var reasons: seq<Finding> := [];
    for i := 0 to |entries|
      invariant CoversPrefix(ledgerId, entries, i, reasons)
    {
      var found := CheckEntry(ledgerId, entries, i);
      CoversOneMore(ledgerId, entries, i, reasons, found);
      reasons := reasons + found;
    }
    FirstFinding(ledgerId, entries, reasons);
    var firstDivergence := if reasons == [] then None else Some(reasons[0]);
    r := Validation(firstDivergence.None?, firstDivergence, reasons);
  }

  // ------------------------------------------------------------- properties

  /** The walk is single-pass: the entries up to the divergence are the longest valid chain. */
  lemma LongestValidPrefix(ledgerId: string, entries: seq<Entry>, f: Finding, n: nat)
    requires Diverges(ledgerId, entries, f) && n <= |entries|
    ensures ValidChain(ledgerId, entries[..n]) <==> 0 < n <= f.index
  {
    forall i | 0 <= i < n
      ensures KeepsRules(ledgerId, entries[..n], i) <==> KeepsRules(ledgerId, entries, i) {
    }
    RulesAreExact(ledgerId, entries, f.index);
  }

  /** A valid chain counts its entries from 1 and links each one to the payload before. */
  lemma {:induction false} ValidChainCounts(ledgerId: string, entries: seq<Entry>, i: nat)
    requires ValidChain(ledgerId, entries) && i < |entries|
    ensures entries[i].sequence == i + 1
    ensures entries[i].previousEntryHash == if i == 0 then GENESIS_EMPTY_HASH else entries[i - 1].payloadHash
  {
    assert KeepsRules(ledgerId, entries, i);
    if i > 0 { ValidChainCounts(ledgerId, entries, i - 1); }
  }

  /** Only one entry can follow a valid chain under a given type and content: the chain fixes its place. */
  lemma AppendExtends(ledgerId: string, entries: seq<Entry>, e: Entry)
    requires ValidChain(ledgerId, entries)
    ensures ValidChain(ledgerId, entries + [e]) <==>
            && e.ledgerId == ledgerId && e.schemaVersion == entries[0].schemaVersion
            && e.sequence == |entries| + 1 && e.previousEntryHash == entries[|entries| - 1].payloadHash
            && HashesWellFormed(e) && SignerMaterial(e)
            && (e.entryType == ReceiptRecorded ==> e.receiptHash != GENESIS_EMPTY_HASH)
  {
    var longer := entries + [e];
    forall i | 0 <= i < |entries|
      ensures KeepsRules(ledgerId, longer, i) <==> KeepsRules(ledgerId, entries, i) {
    }
    ValidChainCounts(ledgerId, entries, |entries| - 1);
    assert longer[|entries|] == e;
    assert ValidChain(ledgerId, longer) <==> KeepsRules(ledgerId, longer, |entries|);
  }
}
