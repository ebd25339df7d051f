/**
 * ConsolidationExcelServiceImpl: the arithmetic behind the consolidated spreadsheet — the CPF
 * shown in its header, the yearly total of each pay item (with the rule for "YYYY-13"
 * references), the total of all pay items and the income tax with the table stored for a year.
 * Monetary amounts are exact (`real` for the row values, Dec for the tax).
 */
module ConsolidationExcel {
  import opened Wrappers
  import opened JavaText
  import opened BigDec
  import IrTributacao
  import CpfValidation

  /** formatCPF: "" for null or blank; eleven digits as "ddd.ddd.ddd-dd"; anything else unchanged. */
  function FormatCpf(cpf: Option<string>): (r: string)
    ensures cpf.None? || IsTrimBlank(cpf.value) ==> r == []
    ensures cpf.Some? && !IsTrimBlank(cpf.value) && |KeepDigits(cpf.value)| == 11 ==>
              |r| == 14 && r[3] == '.' && r[7] == '.' && r[11] == '-' && KeepDigits(r) == KeepDigits(cpf.value)
    ensures cpf.Some? && !IsTrimBlank(cpf.value) && |KeepDigits(cpf.value)| != 11 ==> r == cpf.value
  {
    if cpf.None? || IsTrimBlank(cpf.value) then []
    else
      var apenasNumeros := KeepDigits(cpf.value);
      if |apenasNumeros| == 11 then
        FormattedDigits(apenasNumeros);
        Formatted(apenasNumeros)
      else cpf.value
  }

  /** "ddd.ddd.ddd-dd" from eleven digits. */
  function Formatted(d: string): string
    requires |d| == 11
  {
    d[0..3] + "." + d[3..6] + "." + d[6..9] + "-" + d[9..11]
  }

  /** The punctuation of the formatted CPF sits at 3, 7 and 11 and carries no digits. */
  lemma FormattedDigits(d: string)
    requires |d| == 11 && AllDigits(d)
    ensures var f := Formatted(d); |f| == 14 && f[3] == '.' && f[7] == '.' && f[11] == '-'
    ensures KeepDigits(Formatted(d)) == d
  {
    var a, b, c, e := d[0..3], d[3..6], d[6..9], d[9..11];
    var t3 := c + "-" + e;
    var t2 := b + "." + t3;
    var t1 := a + "." + t2;
    assert a + "." + b + "." + c + "-" + e == t1;
    KeepDigitsOfDigits(e);
    DigitGroupThen(c, '-', e);
    DigitGroupThen(b, '.', t3);
    DigitGroupThen(a, '.', t2);
    assert a + (b + (c + e)) == d;
  }

  /** A group of digits followed by a separator keeps only the group, then what follows. */
  lemma DigitGroupThen(x: string, sep: char, rest: string)
    requires AllDigits(x) && !IsDigit(sep)
    ensures KeepDigits(x + [sep] + rest) == x + KeepDigits(rest)
  {
    KeepDigitsConcat(x + [sep], rest);
    DigitGroup(x, sep);
  }

  /** A group of digits followed by a separator keeps only the group. */
  lemma DigitGroup(x: string, sep: char)
    requires AllDigits(x) && !IsDigit(sep)
    ensures KeepDigits(x + [sep]) == x
  {
    KeepDigitsConcat(x, [sep]);
    KeepDigitsOfDigits(x);
    assert KeepDigits([sep]) == [];
  }

  /** Formatting never changes whether the CPF validator accepts the number. */
  lemma FormatCpfKeepsValidity(s: string)
    requires !IsTrimBlank(s)
    ensures CpfValidation.ValidCpf(Some(FormatCpf(Some(s)))) == CpfValidation.ValidCpf(Some(s))
  {
  }

  /** A pay item's value for a reference, zero when absent (`getOrDefault(ref, ZERO)`). */
  function Get(valores: map<string, real>, referencia: string): real {
    if referencia in valores then valores[referencia] else 0.0
  }

  /** The reference of month `mes` of `ano`: `ano + "-" + String.format("%02d", mes)`. */
  function MonthKey(ano: string, mes: nat): string
    requires 1 <= mes <= 12
  {
    ano + "-" + Pad2(mes)
  }

  function MonthValue(valores: map<string, real>, ano: string, mes: nat): real
    requires 1 <= mes <= 12
  {
    Get(valores, MonthKey(ano, mes))
  }

  /** The values of months 1 to `n` of the year, added up. */
  function SumMonths(valores: map<string, real>, ano: string, n: nat): real
    requires n <= 12
  {
    if n == 0 then 0.0 else SumMonths(valores, ano, n - 1) + MonthValue(valores, ano, n)
  }

  /** Some month other than February and November has a positive value. */
  predicate OtherMonthPositive(valores: map<string, real>, ano: string) {
    exists mes :: 1 <= mes <= 12 && mes != 2 && mes != 11 && MonthValue(valores, ano, mes) > 0.0
  }

  /**
   * The yearly total of a pay item: the simple sum, except that an item with positive values in
   * February and November and in no other month counts only its November value.
   */
  function AnnualTotal(valores: map<string, real>, ano: string, somaSimples: real): real {
    if OtherMonthPositive(valores, ano) then somaSimples
    else if MonthValue(valores, ano, 2) > 0.0 && MonthValue(valores, ano, 11) > 0.0 then MonthValue(valores, ano, 11)
    else somaSimples
  }

  /** calcularTotalRubricaAno: the scan of the other months, stopping at the first positive one. */
  method CalcularTotalRubricaAno(valores: map<string, real>, ano: string, somaSimples: real) returns (total: real)
    ensures total == AnnualTotal(valores, ano, somaSimples)
  {
    var valorFev := Get(valores, ano + "-02");
    var valorNov := Get(valores, ano + "-11");
    assert MonthKey(ano, 2) == ano + "-02" && MonthKey(ano, 11) == ano + "-11";
    var temValorOutrosMeses := false;
    var mes := 1;
    while mes <= 12
      invariant 1 <= mes <= 13
      invariant temValorOutrosMeses ==> OtherMonthPositive(valores, ano)
      invariant !temValorOutrosMeses ==>
        forall m :: 1 <= m < mes && m != 2 && m != 11 ==> MonthValue(valores, ano, m) <= 0.0
    {
      if mes == 2 || mes == 11 {
        mes := mes + 1;
        continue;
      }
      var valor := Get(valores, ano + "-" + Pad2(mes));
      if valor > 0.0 {
        assert MonthValue(valores, ano, mes) > 0.0;
        temValorOutrosMeses := true;
        break;
      }
      mes := mes + 1;
    }
    if temValorOutrosMeses {
      return somaSimples;
    }
    assert !OtherMonthPositive(valores, ano);
    if valorFev > 0.0 && valorNov > 0.0 {
      return valorNov;
    }
    return somaSimples;
  }

  /** A single month's non-negative value never exceeds the sum of the first `n` months. */
  lemma {:induction false} MonthAtMostSum(valores: map<string, real>, ano: string, mes: nat, n: nat)
    requires 1 <= mes <= n <= 12
    requires forall m :: 1 <= m <= 12 ==> MonthValue(valores, ano, m) >= 0.0
    ensures MonthValue(valores, ano, mes) <= SumMonths(valores, ano, n)
    ensures SumMonths(valores, ano, n) >= 0.0
  {
    SumNonNegative(valores, ano, n - 1);
    assert MonthValue(valores, ano, n) >= 0.0;
    if mes < n {
      MonthAtMostSum(valores, ano, mes, n - 1);
    }
  }

  lemma {:induction false} SumNonNegative(valores: map<string, real>, ano: string, n: nat)
    requires n <= 12
    requires forall m :: 1 <= m <= 12 ==> MonthValue(valores, ano, m) >= 0.0
    ensures SumMonths(valores, ano, n) >= 0.0
  {
    if n > 0 {
      SumNonNegative(valores, ano, n - 1);
    }
  }

  /**
   * With no negative values, the yearly total lies between zero and the simple sum: the
   * "YYYY-13" rule can only remove the February value.
   */
  lemma AnnualTotalWithinSum(valores: map<string, real>, ano: string)
    requires forall m :: 1 <= m <= 12 ==> MonthValue(valores, ano, m) >= 0.0
    ensures 0.0 <= AnnualTotal(valores, ano, SumMonths(valores, ano, 12)) <= SumMonths(valores, ano, 12)
  {
    MonthAtMostSum(valores, ano, 11, 12);
  }

  /** The grand total: each pay item's yearly total, added up in order. */
  function TotalContracheques(rubricas: seq<map<string, real>>, ano: string): real {
    if rubricas == [] then 0.0
    else TotalContracheques(rubricas[..|rubricas| - 1], ano) +
         AnnualTotal(rubricas[|rubricas| - 1], ano, SumMonths(rubricas[|rubricas| - 1], ano, 12))
  }

  /** The inner loop of calcularTotalContracheques: one pay item's values of months 01 to 12. */
  method SumYear(valores: map<string, real>, ano: string) returns (somaAno: real)
    ensures somaAno == SumMonths(valores, ano, 12)
  {
    somaAno := 0.0;
    var mes := 1;
    while mes <= 12
      invariant 1 <= mes <= 13
      invariant somaAno == SumMonths(valores, ano, mes - 1)
    {
      var referencia := MonthKey(ano, mes);
      somaAno := somaAno + Get(valores, referencia);
      mes := mes + 1;
    }
  }

  /** calcularTotalContracheques: per pay item, the twelve-month sum, then its yearly total. */
  method CalcularTotalContracheques(rubricas: seq<map<string, real>>, ano: string) returns (total: real)
    ensures total == TotalContracheques(rubricas, ano)
  {
    total := 0.0;
    for i := 0 to |rubricas|
      invariant total == TotalContracheques(rubricas[..i], ano)
    {
      var somaAno := SumYear(rubricas[i], ano);
      var totalRubrica := CalcularTotalRubricaAno(rubricas[i], ano, somaAno);
      assert rubricas[..i + 1][..i] == rubricas[..i];
      total := total + totalRubrica;
    }
    assert rubricas[..|rubricas|] == rubricas;
  }

  /** With no negative values the grand total is never negative. */
  lemma {:induction false} TotalContrachequesNonNegative(rubricas: seq<map<string, real>>, ano: string)
    requires forall r, m :: r in rubricas && 1 <= m <= 12 ==> MonthValue(r, ano, m) >= 0.0
    ensures TotalContracheques(rubricas, ano) >= 0.0
  {
    if rubricas != [] {
      var last := rubricas[|rubricas| - 1];
      assert last in rubricas;
      AnnualTotalWithinSum(last, ano);
      assert forall r | r in rubricas[..|rubricas| - 1] :: r in rubricas;
      TotalContrachequesNonNegative(rubricas[..|rubricas| - 1], ano);
    }
  }

  /** The 2016-2022 rate and deduction used when no table is stored for the year: 27.5% and 10432.32. */
  const FallbackAliquota: Dec := Dec(275, 3)
  const FallbackDeducao: Dec := Dec(1043232, 2)

  /** What calcularImpostoComTabelaBanco returns. */
  function TaxWithTable(base: Option<Dec>, ano: string, tabelas: map<string, seq<IrTributacao.Faixa>>): Dec {
    if base.None? || Val(base.value) <= 0.0 then Zero
    else if ano !in tabelas || tabelas[ano] == [] then IrTributacao.BracketTax(base.value, FallbackAliquota, Some(FallbackDeducao))
    else IrTributacao.ProgressiveTax(base.value, tabelas[ano])
  }

  /**
   * calcularImpostoComTabelaBanco: non-positive base gives zero; a year without a stored table
   * uses the fallback rate; otherwise the same bracket loop as IrTributacaoService.
   */
  method CalcularImpostoComTabelaBanco(base: Option<Dec>, ano: string, tabelas: map<string, seq<IrTributacao.Faixa>>)
    returns (imposto: Dec)
    ensures imposto == TaxWithTable(base, ano, tabelas)
    ensures Val(imposto) >= 0.0
  {
    if base.None? || Val(base.value) <= 0.0 {
      return Zero;
    }
    if ano !in tabelas || |tabelas[ano]| == 0 {
      return Max(SetScale(Sub(Mul(base.value, FallbackAliquota), FallbackDeducao), 2), Zero);
    }
    imposto := IrTributacao.CalcularImpostoProgressivo(base.value, tabelas[ano]);
  }

  /**
   * Without a table the tax is a whole number of cents: 27.5% of the base minus 10432.32, floored
   * at zero, to within half a cent, a tie going up.
   */
  lemma FallbackTaxValue(base: Dec, ano: string, tabelas: map<string, seq<IrTributacao.Faixa>>)
    requires Val(base) > 0.0
    requires ano !in tabelas || tabelas[ano] == []
    ensures var t := Val(TaxWithTable(Some(base), ano, tabelas));
            t >= 0.0 && 200.0 * Abs(t - IrTributacao.RealMax(0.275 * Val(base) - 10432.32, 0.0)) <= 1.0
    ensures var t, x := Val(TaxWithTable(Some(base), ano, tabelas)), 0.275 * Val(base) - 10432.32;
            x > 0.0 && 200.0 * Abs(t - x) == 1.0 ==> t > x
    ensures var t := Val(TaxWithTable(Some(base), ano, tabelas)); (100.0 * t).Floor as real == 100.0 * t
  {
    LiteralValues();
  }
}
