/**
 The key-sorted JSON printer behind command idempotency hashes (`missions/runtime.ts`), and the
 proof that its text identifies a value exactly up to the order in which object keys were inserted.
 */
module CanonicalJson {
  import opened Ordering
  import opened JsText

  /** A JSON value; an object lists its entries in insertion order. */
  datatype Json =
    | JNull
    | JBool(b: bool)
    | JInt(n: int)
    | JString(s: Text)
    | JArray(items: seq<Json>)
    | JObject(entries: seq<Entry>)

  datatype Entry = Entry(key: Text, value: Json)

  function Keys(entries: seq<Entry>): (ks: seq<Text>)
    ensures |ks| == |entries| && forall i :: 0 <= i < |ks| ==> ks[i] == entries[i].key
  {
    if entries == [] then [] else [entries[0].key] + Keys(entries[1..])
  }

  /** `record[key]` for a key the object has. */
  function Lookup(entries: seq<Entry>, key: Text): (v: Json)
    requires key in Keys(entries)
    ensures exists i :: 0 <= i < |entries| && entries[i] == Entry(key, v)
  {
    if entries[0].key == key then
      assert entries[0] == Entry(key, entries[0].value);
      entries[0].value
    else
      var v := Lookup(entries[1..], key);
      assert exists i :: 0 <= i < |entries[1..]| && entries[1..][i] == entries[i + 1] == Entry(key, v);
      v
  }

  /** No object, at any depth, has two entries under one key. */
  ghost predicate WellFormed(v: Json) {
    match v
    case JArray(items) => WellFormedItems(items)
    case JObject(entries) =>
      Distinct(Keys(entries)) && forall i :: 0 <= i < |entries| ==> WellFormed(entries[i].value)
    case _ => true
  }

  ghost predicate WellFormedItems(items: seq<Json>) {
    forall i :: 0 <= i < |items| ==> WellFormed(items[i])
  }

  /** What a value means when objects are read as maps: insertion order is gone. */
  datatype Meaning =
    | MNull
    | MBool(b: bool)
    | MInt(n: int)
    | MString(s: Text)
    | MArray(items: seq<Meaning>)
    | MObject(fields: map<Text, Meaning>)

  ghost function Denote(v: Json): Meaning {
    match v
    case JNull => MNull
    case JBool(b) => MBool(b)
    case JInt(n) => MInt(n)
    case JString(s) => MString(s)
    case JArray(items) => MArray(seq(|items|, i requires 0 <= i < |items| => Denote(items[i])))
    case JObject(entries) => MObject(map k | k in Keys(entries) :: Denote(Lookup(entries, k)))
  }

  // ---------------------------------------------------------------- printing

  function HexDigit(d: CodeUnit): CodeUnit
    requires d < 16
  {
    if d < 10 then 0x30 + d else 0x57 + d
  }

  predicate IsLead(c: CodeUnit) {
    0xD800 <= c < 0xDC00
  }

  predicate IsTrail(c: CodeUnit) {
    0xDC00 <= c < 0xE000
  }

  predicate LoneSurrogate(s: Text, i: nat)
    requires i < |s|
  {
    || (IsLead(s[i]) && !(i + 1 < |s| && IsTrail(s[i + 1])))
    || (IsTrail(s[i]) && !(0 < i && IsLead(s[i - 1])))
  }

  /** The text of one code unit inside a JSON string (section 7 of RFC 8259). */
  function UnitText(c: CodeUnit, lone: bool): Text {
    if c == 0x08 then [BACKSLASH, 0x62]
    else if c == 0x09 then [BACKSLASH, 0x74]
    else if c == 0x0A then [BACKSLASH, 0x6E]
    else if c == 0x0C then [BACKSLASH, 0x66]
    else if c == 0x0D then [BACKSLASH, 0x72]
    else if c == QUOTE then [BACKSLASH, QUOTE]
    else if c == BACKSLASH then [BACKSLASH, BACKSLASH]
    else if c < 0x20 || lone then
      [BACKSLASH, 0x75, HexDigit(c / 4096), HexDigit(c / 256 % 16), HexDigit(c / 16 % 16), HexDigit(c % 16)]
    else [c]
  }

  function Escape(s: Text, i: nat): Text
    requires i <= |s|
    decreases |s| - i
  {
    if i == |s| then [] else UnitText(s[i], LoneSurrogate(s, i)) + Escape(s, i + 1)
  }

  /** `JSON.stringify` of a string. */
  function Quoted(s: Text): Text {
    [QUOTE] + Escape(s, 0) + [QUOTE]
  }

  /** `JSON.stringify` of an integer. */
  function IntText(n: int): Text {
    if n < 0 then [MINUS] + Decimal(-n) else Decimal(n)
  }

  function SortedKeys(entries: seq<Entry>): (ks: seq<Text>)
    ensures multiset(ks) == multiset(Keys(entries)) && |ks| == |entries|
    ensures forall k :: k in ks <==> k in Keys(entries)
  {
    SortPermutes(LexLess, Keys(entries));
    var ks := StableSort(LexLess, Keys(entries));
    assert forall k :: k in ks <==> k in multiset(ks);
    ks
  }

  function SortedStringify(v: Json): Text
    decreases v, 1, 0
  {
    match v
    case JNull => [0x6E, 0x75, 0x6C, 0x6C]
    case JBool(b) => if b then [0x74, 0x72, 0x75, 0x65] else [0x66, 0x61, 0x6C, 0x73, 0x65]
    case JInt(n) => IntText(n)
    case JString(s) => Quoted(s)
    case JArray(items) => [OPEN_BRACKET] + ItemsFrom(v, 0) + [CLOSE_BRACKET]
    case JObject(entries) => [OPEN_BRACE] + MembersFrom(v, SortedKeys(entries), 0) + [CLOSE_BRACE]
  }

  function Separator(i: nat): Text {
    if i == 0 then [] else [COMMA]
  }

  /** The comma-joined text of the array items from `i` on, with the comma that precedes them. */
  function ItemsFrom(v: Json, i: nat): Text
    requires v.JArray? && i <= |v.items|
    decreases v, 0, |v.items| - i
  {
    if i == |v.items| then [] else Separator(i) + SortedStringify(v.items[i]) + ItemsFrom(v, i + 1)
  }

  /** The comma-joined `key:value` text of the keys from `i` on, with the comma that precedes them. */
  function MembersFrom(v: Json, keys: seq<Text>, i: nat): Text
    requires v.JObject? && i <= |keys| && forall k :: k in keys ==> k in Keys(v.entries)
    decreases v, 0, |keys| - i
  {
    if i == |keys| then []
    else
      Separator(i) + Quoted(keys[i]) + [COLON] + SortedStringify(Lookup(v.entries, keys[i]))
      + MembersFrom(v, keys, i + 1)
  }

  // ------------------------------------------------- reading a text back

  /** The text that may follow a printed value inside a larger one. */
  ghost predicate EndsValue(rest: Text) {
    rest == [] || rest[0] in {COMMA, CLOSE_BRACKET, CLOSE_BRACE}
  }

  ghost function HexValue(u: CodeUnit): int {
    if u < 0x57 then u as int - 0x30 else u as int - 0x57
  }

  /** The code unit a `UnitText` stands for. */
  ghost function ReadUnit(t: Text): int
    requires |t| in {1, 2, 6}
  {
    if |t| == 1 then t[0] as int
    else if |t| == 2 then
      if t[1] == 0x62 then 0x08
      else if t[1] == 0x74 then 0x09
      else if t[1] == 0x6E then 0x0A
      else if t[1] == 0x66 then 0x0C
      else if t[1] == 0x72 then 0x0D
      else t[1] as int
    else HexValue(t[2]) * 4096 + HexValue(t[3]) * 256 + HexValue(t[4]) * 16 + HexValue(t[5])
  }

  lemma HexDigitValue(d: CodeUnit)
    requires d < 16
    ensures HexValue(HexDigit(d)) == d as int
  {
  }

  lemma LowDigit(n: nat)
    ensures n == n / 16 * 16 + n % 16 && n / 256 == n / 16 / 16 && n / 4096 == n / 256 / 16
  {
  }

  lemma FourHexDigits(c: CodeUnit)
    ensures c as int
            == (c / 4096) as int * 4096 + (c / 256 % 16) as int * 256 + (c / 16 % 16) as int * 16 + (c % 16) as int
  {
    var n := c as int;
    LowDigit(n);
    LowDigit(n / 16);
    LowDigit(n / 256);
    assert (c / 16) as int == n / 16 && (c / 256) as int == n / 256 && (c / 4096) as int == n / 4096;
  }

  lemma UnitTextShape(c: CodeUnit, lone: bool)
    ensures var t := UnitText(c, lone);
      && |t| in {1, 2, 6} && t[0] != QUOTE && ReadUnit(t) == c as int
      && (|t| == 1 <==> t[0] != BACKSLASH) && (|t| == 6 <==> |t| > 1 && t[1] == 0x75)
  {
    HexDigitValue(c / 4096);
    HexDigitValue(c / 256 % 16);
    HexDigitValue(c / 16 % 16);
    HexDigitValue(c % 16);
    FourHexDigits(c);
  }

  lemma UnitReadsBack(c: CodeUnit, x: bool, r: Text, d: CodeUnit, y: bool, q: Text)
    requires UnitText(c, x) + r == UnitText(d, y) + q
    ensures c == d && r == q
  {
    var a, b := UnitText(c, x), UnitText(d, y);
    UnitTextShape(c, x);
    UnitTextShape(d, y);
    assert a[0] == (a + r)[0] == (b + q)[0] == b[0];
    if |a| > 1 && |b| > 1 {
      assert a[1] == (a + r)[1] == (b + q)[1] == b[1];
    }
    SplitEqual(a, r, b, q);
  }

  lemma Associate(a: Text, b: Text, c: Text, d: Text)
    ensures a + b + c + d == a + (b + c + d)
  {
  }

  lemma EscapeStep(s: Text, i: nat, r: Text)
    requires i < |s|
    ensures Escape(s, i) + [QUOTE] + r == UnitText(s[i], LoneSurrogate(s, i)) + (Escape(s, i + 1) + [QUOTE] + r)
  {
    Associate(UnitText(s[i], LoneSurrogate(s, i)), Escape(s, i + 1), [QUOTE], r);
  }

  lemma FirstUnit(a: Text, b: Text)
    requires a != []
    ensures (a + b)[0] == a[0]
  {
  }

  lemma EscapeEnd(s: Text, i: nat, r: Text)
    requires i <= |s|
    ensures (Escape(s, i) + [QUOTE] + r)[0] == QUOTE <==> i == |s|
    ensures i == |s| ==> Escape(s, i) + [QUOTE] + r == [QUOTE] + r
    ensures i < |s| ==>
      Escape(s, i) + [QUOTE] + r == UnitText(s[i], LoneSurrogate(s, i)) + (Escape(s, i + 1) + [QUOTE] + r)
  {
    if i < |s| {
      UnitTextShape(s[i], LoneSurrogate(s, i));
      EscapeStep(s, i, r);
      FirstUnit(UnitText(s[i], LoneSurrogate(s, i)), Escape(s, i + 1) + [QUOTE] + r);
    }
  }

  lemma FirstAndRest(s: Text, i: nat)
    requires i < |s|
    ensures s[i..] == [s[i]] + s[i + 1..]
  {
  }

  lemma {:induction false} EscapeReadsBack(s: Text, i: nat, r: Text, t: Text, j: nat, q: Text)
    requires i <= |s| && j <= |t|
    requires Escape(s, i) + [QUOTE] + r == Escape(t, j) + [QUOTE] + q
    ensures s[i..] == t[j..] && r == q
    decreases |s| - i
  {
    EscapeEnd(s, i, r);
    EscapeEnd(t, j, q);
    if i == |s| {
      SplitEqual([QUOTE], r, [QUOTE], q);
    } else {
      UnitReadsBack(s[i], LoneSurrogate(s, i), Escape(s, i + 1) + [QUOTE] + r,
                    t[j], LoneSurrogate(t, j), Escape(t, j + 1) + [QUOTE] + q);
      EscapeReadsBack(s, i + 1, r, t, j + 1, q);
      FirstAndRest(s, i);
      FirstAndRest(t, j);
    }
  }

  lemma QuotedReadsBack(s: Text, r: Text, t: Text, q: Text)
    requires Quoted(s) + r == Quoted(t) + q
    ensures s == t && r == q
  {
    Associate([QUOTE], Escape(s, 0), [QUOTE], r);
    Associate([QUOTE], Escape(t, 0), [QUOTE], q);
    SplitEqual([QUOTE], Escape(s, 0) + [QUOTE] + r, [QUOTE], Escape(t, 0) + [QUOTE] + q);
    EscapeReadsBack(s, 0, r, t, 0, q);
    assert s[0..] == s && t[0..] == t;
  }

  lemma IntSign(n: int, r: Text)
    ensures (IntText(n) + r)[0] == MINUS <==> n < 0
    ensures n < 0 ==> IntText(n) + r == [MINUS] + (Decimal(-n) + r)
  {
    var t := Decimal(if n < 0 then -n else n);
    assert IsDigit(t[0]);
  }

  lemma IntReadsBack(m: int, r: Text, n: int, q: Text)
    requires IntText(m) + r == IntText(n) + q && EndsValue(r) && EndsValue(q)
    ensures m == n && r == q
  {
    IntSign(m, r);
    IntSign(n, q);
    if m < 0 {
      SplitEqual([MINUS], Decimal(-m) + r, [MINUS], Decimal(-n) + q);
      DecimalReadsBack(-m, r, -n, q);
    } else {
      DecimalReadsBack(m, r, n, q);
    }
  }

  /** The first code unit of a printed value tells which kind of value it is. */
  lemma LeadingUnit(v: Json)
    ensures SortedStringify(v) != []
    ensures var c := SortedStringify(v)[0];
      && (c == 0x6E <==> v.JNull?) && (c == 0x74 <==> v == JBool(true)) && (c == 0x66 <==> v == JBool(false))
      && (c == QUOTE <==> v.JString?) && (c == OPEN_BRACKET <==> v.JArray?) && (c == OPEN_BRACE <==> v.JObject?)
      && (IsDigit(c) || c == MINUS <==> v.JInt?)
      && c !in {COMMA, CLOSE_BRACKET, CLOSE_BRACE}
  {
  }

  lemma SameKind(a: Json, r: Text, b: Json, q: Text)
    requires SortedStringify(a) + r == SortedStringify(b) + q
    ensures a.JNull? == b.JNull? && a.JBool? == b.JBool? && a.JInt? == b.JInt? && a.JString? == b.JString?
    ensures a.JArray? == b.JArray? && a.JObject? == b.JObject?
    ensures a.JBool? ==> a == b
  {
    LeadingUnit(a);
    LeadingUnit(b);
    assert SortedStringify(a)[0] == (SortedStringify(a) + r)[0] == (SortedStringify(b) + q)[0] == SortedStringify(b)[0];
  }

  /** A printed value can be read back, up to key order, from any text it is the beginning of. */
  lemma {:induction false} ValueReadsBack(a: Json, r: Text, b: Json, q: Text)
    requires WellFormed(a) && WellFormed(b)
    requires SortedStringify(a) + r == SortedStringify(b) + q
    requires EndsValue(r) && EndsValue(q)
    ensures Denote(a) == Denote(b) && r == q
    decreases a, 2, 0
  {
    SameKind(a, r, b, q);
    match a
    case JNull | JBool(_) => SplitEqual(SortedStringify(a), r, SortedStringify(b), q);
    case JInt(m) => IntReadsBack(m, r, b.n, q);
    case JString(s) => QuotedReadsBack(s, r, b.s, q);
    case JArray(items) =>
      Associate([OPEN_BRACKET], ItemsFrom(a, 0), [CLOSE_BRACKET], r);
      Associate([OPEN_BRACKET], ItemsFrom(b, 0), [CLOSE_BRACKET], q);
      SplitEqual([OPEN_BRACKET], ItemsThen(a, 0, r), [OPEN_BRACKET], ItemsThen(b, 0, q));
      ItemsReadBack(a, r, b, q, 0);
    case JObject(entries) =>
      var ka, kb := SortedKeys(entries), SortedKeys(b.entries);
      Associate([OPEN_BRACE], MembersFrom(a, ka, 0), [CLOSE_BRACE], r);
      Associate([OPEN_BRACE], MembersFrom(b, kb, 0), [CLOSE_BRACE], q);
      SplitEqual([OPEN_BRACE], MembersThen(a, ka, 0, r), [OPEN_BRACE], MembersThen(b, kb, 0, q));
      MembersReadBack(a, ka, r, b, kb, q, 0);
      SameMembersSameMeaning(a, b, ka, kb);
  }

  /** What is left to read of an array after its first `i` items. */
  ghost function ItemsThen(v: Json, i: nat, r: Text): Text
    requires v.JArray? && i <= |v.items|
  {
    ItemsFrom(v, i) + [CLOSE_BRACKET] + r
  }

  lemma ItemsThenSteps(v: Json, i: nat, r: Text)
    requires v.JArray? && i <= |v.items|
    ensures ItemsThen(v, i, r)[0] == CLOSE_BRACKET <==> i == |v.items|
    ensures i > 0 ==> EndsValue(ItemsThen(v, i, r))
    ensures i == |v.items| ==> ItemsThen(v, i, r) == [CLOSE_BRACKET] + r
    ensures i < |v.items| ==>
      ItemsThen(v, i, r) == Separator(i) + (SortedStringify(v.items[i]) + ItemsThen(v, i + 1, r))
  {
    if i < |v.items| {
      LeadingUnit(v.items[i]);
      var sep, t, rest := Separator(i), SortedStringify(v.items[i]), ItemsFrom(v, i + 1);
      assert sep + t + rest + [CLOSE_BRACKET] + r == sep + (t + (rest + [CLOSE_BRACKET] + r));
    }
  }

  lemma {:induction false} ItemsReadBack(a: Json, r: Text, b: Json, q: Text, i: nat)
    requires a.JArray? && b.JArray? && i <= |a.items| && i <= |b.items|
    requires WellFormedItems(a.items) && WellFormedItems(b.items)
    requires ItemsThen(a, i, r) == ItemsThen(b, i, q)
    ensures |a.items| == |b.items| && r == q
    ensures forall k :: i <= k < |a.items| ==> Denote(a.items[k]) == Denote(b.items[k])
    decreases a, 0, |a.items| - i
  {
    ItemsThenSteps(a, i, r);
    ItemsThenSteps(b, i, q);
    if i == |a.items| {
      SplitEqual([CLOSE_BRACKET], r, [CLOSE_BRACKET], q);
    } else {
      var x, y := a.items[i], b.items[i];
      var r', q' := ItemsThen(a, i + 1, r), ItemsThen(b, i + 1, q);
      ItemsThenSteps(a, i + 1, r);
      ItemsThenSteps(b, i + 1, q);
      SplitEqual(Separator(i), SortedStringify(x) + r', Separator(i), SortedStringify(y) + q');
      ValueReadsBack(x, r', y, q');
      ItemsReadBack(a, r, b, q, i + 1);
      forall k | i <= k < |a.items| ensures Denote(a.items[k]) == Denote(b.items[k]) {
        if k == i { assert a.items[k] == x && b.items[k] == y; }
      }
    }
  }

  /** What is left to read of an object after its first `i` members. */
  ghost function MembersThen(v: Json, keys: seq<Text>, i: nat, r: Text): Text
    requires v.JObject? && i <= |keys| && forall k :: k in keys ==> k in Keys(v.entries)
  {
    MembersFrom(v, keys, i) + [CLOSE_BRACE] + r
  }

  lemma Regroup(a: Text, b: Text, c: Text, d: Text, e: Text, f: Text, g: Text)
    ensures a + b + c + d + e + f + g == a + (b + (c + (d + (e + f + g))))
  {
    assert a + b + c + d + e + f + g == a + b + c + d + (e + f + g);
    assert a + b + c + d + (e + f + g) == a + b + c + (d + (e + f + g));
    assert a + b + c + (d + (e + f + g)) == a + b + (c + (d + (e + f + g)));
  }

  lemma MembersThenSteps(v: Json, keys: seq<Text>, i: nat, r: Text)
    requires v.JObject? && i <= |keys| && forall k :: k in keys ==> k in Keys(v.entries)
    ensures MembersThen(v, keys, i, r)[0] == CLOSE_BRACE <==> i == |keys|
    ensures i > 0 ==> EndsValue(MembersThen(v, keys, i, r))
    ensures i == |keys| ==> MembersThen(v, keys, i, r) == [CLOSE_BRACE] + r
    ensures i < |keys| ==>
      MembersThen(v, keys, i, r) ==
      Separator(i) + (Quoted(keys[i])
        + ([COLON] + (SortedStringify(Lookup(v.entries, keys[i])) + MembersThen(v, keys, i + 1, r))))
  {
    if i < |keys| {
      Regroup(Separator(i), Quoted(keys[i]), [COLON], SortedStringify(Lookup(v.entries, keys[i])),
              MembersFrom(v, keys, i + 1), [CLOSE_BRACE], r);
    }
  }

  /** Two equal remainders run out of members together. */
  lemma BothEnd(a: Json, ka: seq<Text>, r: Text, b: Json, kb: seq<Text>, q: Text, i: nat)
    requires a.JObject? && b.JObject? && i <= |ka| && i <= |kb|
    requires (forall k :: k in ka ==> k in Keys(a.entries)) && forall k :: k in kb ==> k in Keys(b.entries)
    requires MembersThen(a, ka, i, r) == MembersThen(b, kb, i, q)
    ensures i == |ka| <==> i == |kb|
    ensures i == |ka| ==> r == q
  {
    MembersThenSteps(a, ka, i, r);
    MembersThenSteps(b, kb, i, q);
    if i == |ka| {
      SplitEqual([CLOSE_BRACE], r, [CLOSE_BRACE], q);
    }
  }

  lemma {:induction false} MembersReadBack(a: Json, ka: seq<Text>, r: Text, b: Json, kb: seq<Text>, q: Text, i: nat)
    requires a.JObject? && b.JObject? && i <= |ka| && i <= |kb|
    requires (forall k :: k in ka ==> k in Keys(a.entries)) && forall k :: k in kb ==> k in Keys(b.entries)
    requires WellFormed(a) && WellFormed(b)
    requires MembersThen(a, ka, i, r) == MembersThen(b, kb, i, q)
    ensures |ka| == |kb| && r == q && SameMembers(a, ka, b, kb, i)
    decreases a, 1, |ka| - i
  {
    BothEnd(a, ka, r, b, kb, q, i);
    if i < |ka| {
      MemberReadsBack(a, ka, r, b, kb, q, i);
      MembersReadBack(a, ka, r, b, kb, q, i + 1);
      OneMoreMember(a, ka, b, kb, i);
    }
  }

  lemma OneMoreMember(a: Json, ka: seq<Text>, b: Json, kb: seq<Text>, i: nat)
    requires a.JObject? && b.JObject? && i < |ka| == |kb|
    requires (forall k :: k in ka ==> k in Keys(a.entries)) && forall k :: k in kb ==> k in Keys(b.entries)
    requires SameMember(a, ka, b, kb, i) && SameMembers(a, ka, b, kb, i + 1)
    ensures SameMembers(a, ka, b, kb, i)
  {
  }

  lemma {:induction false} MemberReadsBack(a: Json, ka: seq<Text>, r: Text, b: Json, kb: seq<Text>, q: Text, i: nat)
    requires a.JObject? && b.JObject? && i < |ka| && i < |kb|
    requires (forall k :: k in ka ==> k in Keys(a.entries)) && forall k :: k in kb ==> k in Keys(b.entries)
    requires WellFormed(a) && WellFormed(b)
    requires MembersThen(a, ka, i, r) == MembersThen(b, kb, i, q)
    ensures SameMember(a, ka, b, kb, i)
    ensures MembersThen(a, ka, i + 1, r) == MembersThen(b, kb, i + 1, q)
    decreases a, 0, 0
  {
    var x, y := Lookup(a.entries, ka[i]), Lookup(b.entries, kb[i]);
    MemberKeyReadsBack(a, ka, r, b, kb, q, i);
    MembersThenSteps(a, ka, i + 1, r);
    MembersThenSteps(b, kb, i + 1, q);
    ValueReadsBack(x, MembersThen(a, ka, i + 1, r), y, MembersThen(b, kb, i + 1, q));
  }

  ghost predicate SameMember(a: Json, ka: seq<Text>, b: Json, kb: seq<Text>, j: nat)
    requires a.JObject? && b.JObject? && j < |ka| && j < |kb|
    requires ka[j] in Keys(a.entries) && kb[j] in Keys(b.entries)
  {
    ka[j] == kb[j] && MeaningAt(a, ka[j]) == MeaningAt(b, kb[j])
  }

  /** The two objects agree in every member from `i` on. */
  ghost predicate SameMembers(a: Json, ka: seq<Text>, b: Json, kb: seq<Text>, i: nat)
    requires a.JObject? && b.JObject? && |ka| == |kb|
    requires (forall k :: k in ka ==> k in Keys(a.entries)) && forall k :: k in kb ==> k in Keys(b.entries)
  {
    forall j :: i <= j < |ka| ==> SameMember(a, ka, b, kb, j)
  }

  ghost function MeaningAt(v: Json, k: Text): Meaning
    requires v.JObject? && k in Keys(v.entries)
  {
    Denote(Lookup(v.entries, k))
  }

  lemma MemberKeyReadsBack(a: Json, ka: seq<Text>, r: Text, b: Json, kb: seq<Text>, q: Text, i: nat)
    requires a.JObject? && b.JObject? && i < |ka| && i < |kb|
    requires (forall k :: k in ka ==> k in Keys(a.entries)) && forall k :: k in kb ==> k in Keys(b.entries)
    requires MembersThen(a, ka, i, r) == MembersThen(b, kb, i, q)
    ensures ka[i] == kb[i]
    ensures SortedStringify(Lookup(a.entries, ka[i])) + MembersThen(a, ka, i + 1, r)
         == SortedStringify(Lookup(b.entries, kb[i])) + MembersThen(b, kb, i + 1, q)
  {
    MembersThenSteps(a, ka, i, r);
    MembersThenSteps(b, kb, i, q);
    var u := SortedStringify(Lookup(a.entries, ka[i])) + MembersThen(a, ka, i + 1, r);
    var w := SortedStringify(Lookup(b.entries, kb[i])) + MembersThen(b, kb, i + 1, q);
    SplitEqual(Separator(i), Quoted(ka[i]) + ([COLON] + u), Separator(i), Quoted(kb[i]) + ([COLON] + w));
    QuotedReadsBack(ka[i], [COLON] + u, kb[i], [COLON] + w);
    SplitEqual([COLON], u, [COLON], w);
  }

  lemma SameMembersSameMeaning(a: Json, b: Json, ka: seq<Text>, kb: seq<Text>)
    requires a.JObject? && b.JObject? && |ka| == |kb|
    requires (forall k :: k in ka <==> k in Keys(a.entries)) && forall k :: k in kb <==> k in Keys(b.entries)
    requires SameMembers(a, ka, b, kb, 0)
    ensures Denote(a) == Denote(b)
  {
    MembersByKey(a, ka, b, kb);
    ObjectMeaning(a);
    ObjectMeaning(b);
    assert forall k :: k in ka <==> k in kb;
    SameFields(Denote(a), Denote(b));
  }

  lemma MembersByKey(a: Json, ka: seq<Text>, b: Json, kb: seq<Text>)
    requires a.JObject? && b.JObject? && |ka| == |kb|
    requires (forall k :: k in ka ==> k in Keys(a.entries)) && forall k :: k in kb ==> k in Keys(b.entries)
    requires SameMembers(a, ka, b, kb, 0)
    ensures ka == kb && forall k :: k in ka ==> MeaningAt(a, k) == MeaningAt(b, k)
  {
    forall j | 0 <= j < |ka| ensures ka[j] == kb[j] && MeaningAt(a, ka[j]) == MeaningAt(b, ka[j]) {
      assert SameMember(a, ka, b, kb, j);
    }
  }

  lemma SameFields(m: Meaning, n: Meaning)
    requires m.MObject? && n.MObject? && forall k :: k in m.fields <==> k in n.fields
    requires forall k :: k in m.fields ==> m.fields[k] == n.fields[k]
    ensures m == n
  {
    assert m.fields == n.fields;
  }

  lemma ObjectMeaning(v: Json)
    requires v.JObject?
    ensures Denote(v).MObject?
    ensures forall k :: k in Denote(v).fields <==> k in Keys(v.entries)
    ensures forall k :: k in Denote(v).fields ==> Denote(v).fields[k] == MeaningAt(v, k)
  {
  }

  // --------------------------------------- key order does not reach the text

  lemma {:induction false} SameMeaningSameText(a: Json, b: Json)
    requires WellFormed(a) && WellFormed(b) && Denote(a) == Denote(b)
    ensures SortedStringify(a) == SortedStringify(b)
  {
    match a
    case JArray(items) =>
      ItemMeanings(a);
      ItemMeanings(b);
      forall i | 0 <= i < |items| ensures SortedStringify(items[i]) == SortedStringify(b.items[i]) {
        SameMeaningSameText(items[i], b.items[i]);
      }
      SameItemsSameText(a, b, 0);
    case JObject(entries) =>
      SameMeaningSameKeys(a, b);
      var keys := SortedKeys(entries);
      forall j | 0 <= j < |keys| ensures FieldText(a, keys[j]) == FieldText(b, keys[j]) {
        var k := keys[j];
        assert Denote(Lookup(entries, k)) == Denote(a).fields[k] == Denote(b).fields[k] == Denote(Lookup(b.entries, k));
        SameMeaningSameText(Lookup(entries, k), Lookup(b.entries, k));
      }
      SameFieldsSameText(a, b, keys, 0);
    case _ =>
  }

  lemma ItemMeanings(v: Json)
    requires v.JArray?
    ensures |Denote(v).items| == |v.items|
    ensures forall i :: 0 <= i < |v.items| ==> Denote(v.items[i]) == Denote(v).items[i]
  {
  }

  lemma SameMeaningSameKeys(a: Json, b: Json)
    requires a.JObject? && b.JObject? && WellFormed(a) && WellFormed(b) && Denote(a) == Denote(b)
    ensures forall k :: k in Keys(a.entries) <==> k in Keys(b.entries)
    ensures SortedKeys(a.entries) == SortedKeys(b.entries)
  {
    var s, t := Keys(a.entries), Keys(b.entries);
    assert Denote(a).fields.Keys == Denote(b).fields.Keys;
    assert forall k :: k in s <==> k in Denote(a).fields.Keys;
    assert forall k :: k in t <==> k in Denote(b).fields.Keys;
    SortTexts(s, t);
  }

  lemma {:induction false} SameItemsSameText(a: Json, b: Json, i: nat)
    requires a.JArray? && b.JArray? && i <= |a.items| == |b.items|
    requires forall k :: 0 <= k < |a.items| ==> SortedStringify(a.items[k]) == SortedStringify(b.items[k])
    ensures ItemsFrom(a, i) == ItemsFrom(b, i)
    decreases |a.items| - i
  {
    if i < |a.items| { SameItemsSameText(a, b, i + 1); }
  }

  /** What an object prints under one of its keys. */
  ghost function FieldText(v: Json, k: Text): Text
    requires v.JObject? && k in Keys(v.entries)
  {
    SortedStringify(Lookup(v.entries, k))
  }

  lemma {:induction false} SameFieldsSameText(a: Json, b: Json, keys: seq<Text>, i: nat)
    requires a.JObject? && b.JObject? && i <= |keys|
    requires (forall k :: k in keys ==> k in Keys(a.entries)) && forall k :: k in keys ==> k in Keys(b.entries)
    requires forall j :: 0 <= j < |keys| ==> FieldText(a, keys[j]) == FieldText(b, keys[j])
    ensures MembersFrom(a, keys, i) == MembersFrom(b, keys, i)
    decreases |keys| - i
  {
    if i < |keys| {
      SameFieldsSameText(a, b, keys, i + 1);
      SameNextMember(a, b, keys, i);
    }
  }

  lemma SameNextMember(a: Json, b: Json, keys: seq<Text>, i: nat)
    requires a.JObject? && b.JObject? && i < |keys|
    requires (forall k :: k in keys ==> k in Keys(a.entries)) && forall k :: k in keys ==> k in Keys(b.entries)
    requires FieldText(a, keys[i]) == FieldText(b, keys[i])
    requires MembersFrom(a, keys, i + 1) == MembersFrom(b, keys, i + 1)
    ensures MembersFrom(a, keys, i) == MembersFrom(b, keys, i)
  {
    MemberAt(a, keys, i, FieldText(a, keys[i]), MembersFrom(a, keys, i + 1));
    MemberAt(b, keys, i, FieldText(b, keys[i]), MembersFrom(b, keys, i + 1));
  }

  lemma MemberAt(v: Json, keys: seq<Text>, i: nat, text: Text, rest: Text)
    requires v.JObject? && i < |keys| && forall k :: k in keys ==> k in Keys(v.entries)
    requires text == FieldText(v, keys[i]) && rest == MembersFrom(v, keys, i + 1)
    ensures MembersFrom(v, keys, i) == Separator(i) + Quoted(keys[i]) + [COLON] + text + rest
  {
  }

  /** Two values print alike exactly when they are equal up to key order at every depth. */
  lemma CanonicalTextIdentifiesMeaning(a: Json, b: Json)
    requires WellFormed(a) && WellFormed(b)
    ensures SortedStringify(a) == SortedStringify(b) <==> Denote(a) == Denote(b)
  {
    if SortedStringify(a) == SortedStringify(b) {
      ValueReadsBack(a, [], b, []);
    }
    if Denote(a) == Denote(b) {
      SameMeaningSameText(a, b);
    }
  }
}
