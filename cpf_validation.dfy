/**
 * CpfValidationServiceImpl: a CPF (Brazilian taxpayer number) is valid when its digits are
 * exactly eleven, not all the same, and its last two digits are the mod-11 check digits of the
 * first nine and first ten digits.
 */
module CpfValidation {
  import opened Wrappers
  import opened JavaText

  /** normalize: null becomes "", anything else keeps only its ASCII digits. */
  function Normalize(cpf: Option<string>): (r: string)
    ensures AllDigits(r)
    ensures cpf.None? ==> r == []
    ensures cpf.Some? ==> |r| <= |cpf.value|
    ensures cpf.Some? ==> DigitsOf(cpf.value, r)
    ensures cpf.Some? ==> (r == [] <==> NoDigit(cpf.value))
  {
    match cpf
    case None => []
    case Some(s) =>
      KeepDigitsCounts(s);
      KeepDigits(s)
  }

  /** Normalization keeps the digits in their order: it works piecewise on a concatenation. */
  lemma NormalizeKeepsOrder(a: string, b: string)
    ensures Normalize(Some(a + b)) == Normalize(Some(a)) + Normalize(Some(b))
  {
    KeepDigitsConcat(a, b);
  }

  /** Normalizing a normalized CPF changes nothing. */
  lemma NormalizeIdempotent(cpf: Option<string>)
    ensures Normalize(Some(Normalize(cpf))) == Normalize(cpf)
  {
    KeepDigitsOfDigits(Normalize(cpf));
  }

  /** A non-empty text whose characters all equal the first one. */
  predicate AllSame(s: string) {
    s != [] && forall i :: 0 <= i < |s| ==> s[i] == s[0]
  }

  /** isAllDigitsEqual: the scan from the second character that stops at the first difference. */
  method IsAllDigitsEqual(cpf: string) returns (same: bool)
    ensures same <==> AllSame(cpf)
  {
    if |cpf| == 0 {
      return false;
    }
    var firstChar := cpf[0];
    for i := 1 to |cpf|
      invariant forall j :: 0 <= j < i ==> cpf[j] == firstChar
    {
      if cpf[i] != firstChar {
        return false;
      }
    }
    return true;
  }

  /** Sum of the first `n` digits, digit `i` weighted by `top - i`. */
  function WeightedSum(s: string, n: nat, top: int): int
    requires n <= |s| && AllDigits(s)
  {
    if n == 0 then 0 else WeightedSum(s, n - 1, top) + DigitValue(s[n - 1]) * (top - (n - 1))
  }

  /**
   * The check digit of a weighted sum: 0 when the remainder by 11 is below 2, else 11 minus it.
   * The sums involved are never negative, so Java's `%` agrees with Dafny's here.
   */
  function Verifier(sum: int): (d: nat)
    ensures d <= 9
  {
    var remainder := sum % 11;
    if remainder < 2 then 0 else 11 - remainder
  }

  /** The tenth and eleventh digits are the check digits of the nine and ten digits before them. */
  predicate CheckDigitsMatch(cpf: string)
    requires |cpf| == 11 && AllDigits(cpf)
  {
    Verifier(WeightedSum(cpf, 9, 10)) == DigitValue(cpf[9]) &&
    Verifier(WeightedSum(cpf, 10, 11)) == DigitValue(cpf[10])
  }

  /**
   * validateMod11, whose only caller passes an already normalized (all-digit) text: the two
   * weighted-sum loops, each followed by its comparison.
   */
  method ValidateMod11(cpf: string) returns (ok: bool)
    requires AllDigits(cpf)
    ensures ok <==> |cpf| == 11 && CheckDigitsMatch(cpf)
  {
    if |cpf| != 11 {
      return false;
    }
    var sum := 0;
    for i := 0 to 9
      invariant sum == WeightedSum(cpf, i, 10)
    {
      sum := sum + DigitValue(cpf[i]) * (10 - i);
    }
    var remainder := sum % 11;
    var firstVerifier := if remainder < 2 then 0 else 11 - remainder;
    if firstVerifier != DigitValue(cpf[9]) {
      return false;
    }
    sum := 0;
    for i := 0 to 10
      invariant sum == WeightedSum(cpf, i, 11)
    {
      sum := sum + DigitValue(cpf[i]) * (11 - i);
    }
    remainder := sum % 11;
    var secondVerifier := if remainder < 2 then 0 else 11 - remainder;
    return secondVerifier == DigitValue(cpf[10]);
  }

  /** What isValid accepts. */
  predicate ValidCpf(cpf: Option<string>) {
    cpf.Some? && cpf.value != [] &&
    var normalized := Normalize(cpf);
    |normalized| == 11 && !AllSame(normalized) && CheckDigitsMatch(normalized)
  }

  /** isValid: null or empty, wrong digit count, all digits equal, then the mod-11 check. */
  method IsValid(cpf: Option<string>) returns (valid: bool)
    ensures valid <==> ValidCpf(cpf)
  {
    if cpf.None? || cpf.value == [] {
      return false;
    }
    var normalized := Normalize(cpf);
    if |normalized| != 11 {
      return false;
    }
    var allEqual := IsAllDigitsEqual(normalized);
    if allEqual {
      return false;
    }
    valid := ValidateMod11(normalized);
  }

  /** Punctuation is irrelevant: a CPF is valid exactly when its digits alone are. */
  lemma ValidIgnoresPunctuation(s: string)
    ensures ValidCpf(Some(s)) <==> ValidCpf(Some(KeepDigits(s)))
  {
    KeepDigitsOfDigits(KeepDigits(s));
  }

  /** The weighted sum of the first `n` digits only reads those digits. */
  lemma {:induction false} WeightedSumPrefix(s: string, t: string, n: nat, top: int)
    requires n <= |s| && n <= |t| && AllDigits(s) && AllDigits(t)
    requires s[..n] == t[..n]
    ensures WeightedSum(s, n, top) == WeightedSum(t, n, top)
  {
    if n > 0 {
      assert s[n - 1] == s[..n][n - 1] == t[..n][n - 1] == t[n - 1];
      assert s[..n - 1] == s[..n][..n - 1];
      assert t[..n - 1] == t[..n][..n - 1];
      WeightedSumPrefix(s, t, n - 1, top);
    }
  }

  /** Appends the two mod-11 check digits to nine digits: the inverse view of CheckDigitsMatch. */
  function WithCheckDigits(base: string): (cpf: string)
    requires |base| == 9 && AllDigits(base)
    ensures |cpf| == 11 && AllDigits(cpf) && cpf[..9] == base
    ensures CheckDigitsMatch(cpf)
  {
    var first := DigitChar(Verifier(WeightedSum(base, 9, 10)));
    var ten := base + [first];
    var second := DigitChar(Verifier(WeightedSum(ten, 10, 11)));
    var cpf := ten + [second];
    assert cpf[..9] == base[..9] && ten[..9] == base[..9];
    WeightedSumPrefix(cpf, base, 9, 10);
    assert cpf[..10] == ten[..10];
    WeightedSumPrefix(cpf, ten, 10, 11);
    cpf
  }

  /** The check digits are determined by the first nine digits: no other ending passes. */
  lemma CheckDigitsAreDetermined(cpf: string)
    requires |cpf| == 11 && AllDigits(cpf)
    ensures CheckDigitsMatch(cpf) <==> cpf == WithCheckDigits(cpf[..9])
  {
    var w := WithCheckDigits(cpf[..9]);
    assert w[..9] == cpf[..9];
    WeightedSumPrefix(cpf, w, 9, 10);
    if CheckDigitsMatch(cpf) {
      assert cpf[9] == w[9];
      assert cpf[..10] == w[..10];
      WeightedSumPrefix(cpf, w, 10, 11);
      assert cpf[10] == w[10];
      assert cpf == cpf[..9] + [cpf[9], cpf[10]];
      assert w == w[..9] + [w[9], w[10]];
    }
  }

  /** Eleven copies of one digit. */
  function Repeated(d: nat, n: nat): (s: string)
    requires d <= 9
    ensures |s| == n && AllDigits(s)
    ensures forall i :: 0 <= i < n ==> s[i] == DigitChar(d)
  {
    seq(n, i => DigitChar(d))
  }

  /** The weighted sum of a repeated digit is that digit times the sum of the weights. */
  lemma {:induction false} WeightedSumRepeated(d: nat, m: nat, n: nat, top: int)
    requires d <= 9 && n <= m
    ensures WeightedSum(Repeated(d, m), n, top) == d * (n * top - n * (n - 1) / 2)
  {
    if n > 0 {
      var s := Repeated(d, m);
      WeightedSumRepeated(d, m, n - 1, top);
      assert DigitValue(s[n - 1]) == d;
      RepeatedStep(d, n, top);
    }
  }

  /** The arithmetic of one more weight: d * w(n - 1) + d * (top - (n - 1)) == d * w(n). */
  lemma RepeatedStep(d: int, n: nat, top: int)
    requires n > 0
    ensures d * ((n - 1) * top - (n - 1) * (n - 2) / 2) + d * (top - (n - 1)) == d * (n * top - n * (n - 1) / 2)
  {
    var a, b := (n - 1) * top - (n - 1) * (n - 2) / 2, top - (n - 1);
    TriangleStep(n);
    assert a + b == n * top - n * (n - 1) / 2;
    assert d * a + d * b == d * (a + b);
  }

  /** 0 + 1 + ... + (n - 1), one more term at a time. */
  lemma TriangleStep(n: nat)
    requires n > 0
    ensures n * (n - 1) / 2 == (n - 1) * (n - 2) / 2 + (n - 1)
  {
    var k := n - 1;
    assert n * (n - 1) == k * (k - 1) + 2 * k;
    assert (k * (k - 1) + 2 * k) / 2 == k * (k - 1) / 2 + k;
  }

  /**
   * Every CPF made of one repeated digit passes the mod-11 check, which is why isValid must
   * reject such numbers separately.
   */
  lemma RepeatedDigitsPassMod11(d: nat)
    requires d <= 9
    ensures CheckDigitsMatch(Repeated(d, 11))
    ensures !ValidCpf(Some(Repeated(d, 11)))
  {
    var s := Repeated(d, 11);
    WeightedSumRepeated(d, 11, 9, 10);
    WeightedSumRepeated(d, 11, 10, 11);
    assert WeightedSum(s, 9, 10) == 54 * d;
    assert WeightedSum(s, 10, 11) == 65 * d;
    assert 54 * d % 11 == 65 * d % 11 == (if d == 0 then 0 else 11 - d);
    KeepDigitsOfDigits(s);
  }
}
