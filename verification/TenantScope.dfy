/**
 Tenant scope validation and the length-delimited scope key (`tenant-core/scope.ts`).
 */
module TenantScope {
  import opened JsText

  /** A caller-supplied scope; nothing is known about its three strings. */
  datatype Scope = Scope(companyId: Text, ruc: Text, period: Text)

  datatype ScopeError = InvalidCompany | InvalidRuc | InvalidPeriod

  datatype Validation = Validated(scope: Scope) | Rejected(error: ScopeError)

  predicate IsRuc(t: Text) {
    |t| == 11 && AllDigits(t)
  }

  /** Six digits, YYYYMM, with a month from 01 to 12. */
  predicate IsPeriod(t: Text) {
    && |t| == 6 && AllDigits(t)
    && ((t[4] == ZERO && t[5] != ZERO) || (t[4] == ZERO + 1 && t[5] <= ZERO + 2))
  }

  function ValidateTenantScope(input: Scope): Validation {
    var companyId := Trim(input.companyId);
    if companyId == [] then Rejected(InvalidCompany)
    else if !IsRuc(input.ruc) then Rejected(InvalidRuc)
    else if !IsPeriod(input.period) then Rejected(InvalidPeriod)
    else Validated(Scope(companyId, input.ruc, input.period))
  }

  function Delimited(t: Text): Text {
    Decimal(|t|) + [COLON] + t
  }

  function TenantScopeKey(scope: Scope): Text {
    Delimited(Trim(scope.companyId)) + [SEMICOLON] + Delimited(scope.ruc) + [SEMICOLON] + Delimited(scope.period)
  }

  predicate SameTenantScope(a: Scope, b: Scope) {
    TenantScopeKey(a) == TenantScopeKey(b)
  }

  /** A component can be cut off the front of any text in only one way, whatever it contains. */
  lemma DelimitedReadsBack(s: Text, r: Text, t: Text, q: Text)
    requires Delimited(s) + r == Delimited(t) + q
    ensures s == t && r == q
  {
    assert Delimited(s) + r == Decimal(|s|) + ([COLON] + (s + r));
    assert Delimited(t) + q == Decimal(|t|) + ([COLON] + (t + q));
    DecimalReadsBack(|s|, [COLON] + (s + r), |t|, [COLON] + (t + q));
    SplitEqual([COLON], s + r, [COLON], t + q);
    SplitEqual(s, r, t, q);
  }

  lemma Regroup(x: Text, s: Text, y: Text, t: Text, z: Text)
    ensures x + s + y + t + z == x + (s + (y + (t + (z + []))))
  {
  }

  lemma ThreeComponentsReadBack(x: Text, y: Text, z: Text, x': Text, y': Text, z': Text)
    requires Delimited(x) + [SEMICOLON] + Delimited(y) + [SEMICOLON] + Delimited(z)
          == Delimited(x') + [SEMICOLON] + Delimited(y') + [SEMICOLON] + Delimited(z')
    ensures x == x' && y == y' && z == z'
  {
    Regroup(Delimited(x), [SEMICOLON], Delimited(y), [SEMICOLON], Delimited(z));
    Regroup(Delimited(x'), [SEMICOLON], Delimited(y'), [SEMICOLON], Delimited(z'));
    var z0, z0' := Delimited(z) + [], Delimited(z') + [];
    var y0, y0' := Delimited(y) + ([SEMICOLON] + z0), Delimited(y') + ([SEMICOLON] + z0');
    DelimitedReadsBack(x, [SEMICOLON] + y0, x', [SEMICOLON] + y0');
    SplitEqual([SEMICOLON], y0, [SEMICOLON], y0');
    DelimitedReadsBack(y, [SEMICOLON] + z0, y', [SEMICOLON] + z0');
    SplitEqual([SEMICOLON], z0, [SEMICOLON], z0');
    DelimitedReadsBack(z, [], z', []);
  }

  /** The key identifies a scope up to white space around the company id, for arbitrary strings. */
  lemma ScopeKeyIdentifiesScope(a: Scope, b: Scope)
    ensures SameTenantScope(a, b) <==>
            Trim(a.companyId) == Trim(b.companyId) && a.ruc == b.ruc && a.period == b.period
  {
    if SameTenantScope(a, b) {
      ThreeComponentsReadBack(Trim(a.companyId), a.ruc, a.period, Trim(b.companyId), b.ruc, b.period);
    }
  }

  lemma ValidScopeIsFixed(a: Scope)
    requires ValidateTenantScope(a).Validated?
    ensures var v := ValidateTenantScope(a).scope;
      && v == Scope(Trim(a.companyId), a.ruc, a.period) && Trim(v.companyId) == v.companyId
      && ValidateTenantScope(v) == Validated(v)
  {
    TrimFixpoint(a.companyId);
    TrimFixpoint(Trim(a.companyId));
  }

  /** Validation keeps the key, is idempotent, and on validated scopes equal keys mean equal scopes. */
  lemma ValidationKeepsIdentity(a: Scope, b: Scope)
    requires ValidateTenantScope(a).Validated? && ValidateTenantScope(b).Validated?
    ensures SameTenantScope(a, ValidateTenantScope(a).scope)
    ensures ValidateTenantScope(ValidateTenantScope(a).scope) == ValidateTenantScope(a)
    ensures SameTenantScope(a, b) <==> ValidateTenantScope(a).scope == ValidateTenantScope(b).scope
  {
    ValidScopeIsFixed(a);
    ValidScopeIsFixed(b);
    ScopeKeyIdentifiesScope(a, b);
  }
}
