/**
 Decimal indexes inside generated field names: `positional_<n>` in argument batches and
 `value_<n>`, `type_<n>`, `artifact_<n>`, `__vgi_col_<n>` in filter evaluation.
 */
module Decimal {

  function Digit(n: nat): char
    requires n < 10
  {
    ('0' as int + n) as char
  }

  predicate IsDigit(c: char) { '0' <= c <= '9' }

  predicate AllDigits(s: string) { forall i :: 0 <= i < |s| ==> IsDigit(s[i]) }

  /** `0|[1-9][0-9]*`, matched against the whole text. */
  predicate Canonical(s: string) {
    s != [] && AllDigits(s) && (s[0] == '0' ==> |s| == 1)
  }

  /** `str(n)`. */
  function Render(n: nat): string {
    if n < 10 then [Digit(n)] else Render(n / 10) + [Digit(n % 10)]
  }

  /** `int(s)`. */
  function Value(s: string): nat
    requires AllDigits(s)
  {
    if s == [] then 0 else 10 * Value(s[..|s| - 1]) + (s[|s| - 1] as int - '0' as int)
  }

  lemma {:induction false} RenderRoundTrip(n: nat)
    ensures Canonical(Render(n)) && Value(Render(n)) == n
    ensures n > 0 ==> Render(n)[0] != '0'
  {
    if n < 10 {
      assert Render(n)[..0] == [];
    } else {
      RenderRoundTrip(n / 10);
      var r := Render(n);
      assert r[..|r| - 1] == Render(n / 10);
    }
  }

  lemma RenderInjective(m: nat, n: nat)
    requires Render(m) == Render(n)
    ensures m == n
  {
    RenderRoundTrip(m);
    RenderRoundTrip(n);
  }

  lemma {:induction false} ValueRoundTrip(s: string)
    requires Canonical(s)
    ensures Render(Value(s)) == s
  {
    var last := s[|s| - 1];
    if |s| == 1 {
      assert s[..0] == [];
      assert Value(s) == last as int - '0' as int;
    } else {
      var init := s[..|s| - 1];
      assert Canonical(init);
      ValueRoundTrip(init);
      LeadingNonZero(init);
      assert Value(s) / 10 == Value(init) && Value(s) % 10 == last as int - '0' as int;
      assert s == init + [last];
    }
  }

  lemma {:induction false} LeadingNonZero(s: string)
    requires Canonical(s) && s[0] != '0'
    ensures Value(s) > 0
  {
    if |s| == 1 {
      assert s[..0] == [];
    } else {
      LeadingNonZero(s[..|s| - 1]);
    }
  }

  /** A canonical text longer than another denotes a larger number. */
  lemma {:induction false} LongerIsLarger(s: string, t: string)
    requires Canonical(s) && Canonical(t) && |s| > |t|
    ensures Value(s) > Value(t)
  {
    if |t| == 1 {
      LeadingNonZero(s[..|s| - 1]);
      assert t[..0] == [];
    } else {
      LongerIsLarger(s[..|s| - 1], t[..|t| - 1]);
    }
  }

  /** Decimal notation: appending a digit to a positive number's text multiplies it by ten and adds the digit. */
  lemma RenderDigits(n: nat, d: nat)
    requires d < 10
    ensures |"0123456789"| == 10 && Render(d) == ["0123456789"[d]]
    ensures n > 0 ==> Render(10 * n + d) == Render(n) + ["0123456789"[d]]
  {
    assert (10 * n + d) / 10 == n && (10 * n + d) % 10 == d;
  }
}
