/**
 One RUC and one YYYYMM period, as the reconciliation and closing engines check them
 (`bank-reconciliation/types.ts`, `close-calculations/types.ts`).
 */
module FiscalScope {
  import opened JsText
  import TenantScope

  datatype Scope = Scope(ruc: Text, period: Text)

  predicate IsRuc(t: Text) {
    |t| == 11 && AllDigits(t)
  }

  predicate IsPeriod(t: Text) {
    |t| == 6 && AllDigits(t) && 1 <= Value(t[4..6]) <= 12
  }

  predicate Valid(scope: Scope) {
    IsRuc(scope.ruc) && IsPeriod(scope.period)
  }

  lemma TwoDigitValue(t: Text)
    requires |t| == 2 && AllDigits(t)
    ensures Value(t) == (t[0] as int - ZERO as int) * 10 + (t[1] as int - ZERO as int)
  {
    assert t[..1][..0] == [] && t[..1][0] == t[0];
    assert Value(t[..1]) == t[0] as int - ZERO as int;
  }

  /** The numeric month check here and the pattern of the tenant scope accept the same periods. */
  lemma PeriodChecksAgree(t: Text)
    ensures IsPeriod(t) <==> TenantScope.IsPeriod(t)
    ensures IsRuc(t) <==> TenantScope.IsRuc(t)
  {
    if |t| == 6 && AllDigits(t) {
      var month := t[4..6];
      assert month[0] == t[4] && month[1] == t[5] && t[4] in t && t[5] in t;
      TwoDigitValue(month);
    }
  }
}
