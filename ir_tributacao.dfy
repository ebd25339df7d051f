/**
 * IrTributacaoService: the progressive income-tax formula
 * imposto = round2HalfUp(base × aliquota − deducao), never negative,
 * with the bracket chosen as the first one whose limits contain the base.
 */
module IrTributacao {
  import opened Wrappers
  import opened BigDec

  /**
   * One row of the bracket table (IrTabelaTributacao): lower limit, upper limit (None stands for
   * "Acima de", no upper limit), rate (0.275 for 27.5%) and deduction, the last two nullable.
   */
  datatype Faixa = Faixa(limiteInferior: Dec, limiteSuperior: Option<Dec>, aliquota: Option<Dec>, deducao: Option<Dec>)

  /** The base lies inside the bracket: lower <= base and (no upper limit or base <= upper). */
  predicate InFaixa(base: Dec, f: Faixa) {
    Val(base) >= Val(f.limiteInferior) &&
    (f.limiteSuperior.None? || Val(base) <= Val(f.limiteSuperior.value))
  }

  /** The index of the first bracket that contains the base, if there is one. */
  function FirstFaixa(base: Dec, faixas: seq<Faixa>): (r: Option<nat>)
    ensures r.Some? ==> r.value < |faixas| && InFaixa(base, faixas[r.value])
    ensures r.Some? ==> forall j :: 0 <= j < r.value ==> !InFaixa(base, faixas[j])
    ensures r.None? <==> forall j :: 0 <= j < |faixas| ==> !InFaixa(base, faixas[j])
  {
    if faixas == [] then None
    else if InFaixa(base, faixas[0]) then Some(0)
    else
      match FirstFaixa(base, faixas[1..])
      case Some(k) => Some(k + 1)
      case None => None
  }

  /**
   * (base × aliquota − deducao) rounded HALF_UP to two places, then BigDecimal.max with zero.
   * The result is a whole number of cents, is never negative and lies within half a cent of the
   * exact tax floored at zero; a positive tax exactly half a cent from two places is rounded up.
   */
  function BracketTax(base: Dec, aliquota: Dec, deducao: Option<Dec>): (r: Dec)
    ensures Val(r) >= 0.0
    ensures Val(base) * Val(aliquota) <= Val(deducao.GetOr(Zero)) ==> Val(r) == 0.0
    ensures 200.0 * Abs(Val(r) - RealMax(Val(base) * Val(aliquota) - Val(deducao.GetOr(Zero)), 0.0)) <= 1.0
    ensures var x := Val(base) * Val(aliquota) - Val(deducao.GetOr(Zero));
            x > 0.0 && 200.0 * Abs(Val(r) - x) == 1.0 ==> Val(r) > x
    ensures (100.0 * Val(r)).Floor as real == 100.0 * Val(r)
  {
    var exact := Sub(Mul(base, aliquota), deducao.GetOr(Zero));
    var rounded := SetScale(exact, 2);
    SetScaleTiesAwayFromZero(exact, 2);
    assert Pow10(2) == 100;
    HundredthsOfScaleTwo(rounded);
    assert Val(Zero) == 0.0;
    Max(rounded, Zero)
  }

  function RealMax(x: real, y: real): real {
    if x >= y then x else y
  }

  /** A bracket whose rate is null or compares equal to zero is exempt. */
  predicate Exempt(f: Faixa) {
    f.aliquota.None? || Val(f.aliquota.value) == 0.0
  }

  /**
   * What calcularImpostoProgressivo returns: zero for an empty table; the tax of the first
   * bracket containing the base (zero if that bracket is exempt); otherwise the tax computed with
   * the last bracket, a null rate or deduction counting as zero.
   */
  function ProgressiveTax(base: Dec, faixas: seq<Faixa>): Dec {
    if faixas == [] then Zero
    else
      match FirstFaixa(base, faixas)
      case Some(i) =>
        if Exempt(faixas[i]) then Zero else BracketTax(base, faixas[i].aliquota.value, faixas[i].deducao)
      case None =>
        var ultima := faixas[|faixas| - 1];
        BracketTax(base, ultima.aliquota.GetOr(Zero), ultima.deducao)
  }

  /** calcularImpostoProgressivo: the loop over the brackets with its early returns. */
  method CalcularImpostoProgressivo(base: Dec, faixas: seq<Faixa>) returns (imposto: Dec)
    ensures imposto == ProgressiveTax(base, faixas)
    ensures Val(imposto) >= 0.0
  {
    if |faixas| == 0 {
      return Zero;
    }
    for i := 0 to |faixas|
      invariant forall j :: 0 <= j < i ==> !InFaixa(base, faixas[j])
    {
      var faixa := faixas[i];
      var acimaDeLimiteInferior := Val(base) >= Val(faixa.limiteInferior);
      var abaixoDeLimiteSuperior := faixa.limiteSuperior.None? || Val(base) <= Val(faixa.limiteSuperior.value);
      if acimaDeLimiteInferior && abaixoDeLimiteSuperior {
        FirstContainingBracketDecides(base, faixas, i);
        if faixa.aliquota.None? || Val(faixa.aliquota.value) == 0.0 {
          return Zero;
        }
        var bruto := SetScale(Sub(Mul(base, faixa.aliquota.value), faixa.deducao.GetOr(Zero)), 2);
        imposto := Max(bruto, Zero);
        assert imposto == BracketTax(base, faixa.aliquota.value, faixa.deducao);
        return;
      }
    }
    NoBracketUsesLast(base, faixas);
    var ultimaFaixa := faixas[|faixas| - 1];
    var bruto := SetScale(Sub(Mul(base, ultimaFaixa.aliquota.GetOr(Zero)), ultimaFaixa.deducao.GetOr(Zero)), 2);
    imposto := Max(bruto, Zero);
    assert imposto == BracketTax(base, ultimaFaixa.aliquota.GetOr(Zero), ultimaFaixa.deducao);
  }

  /**
   * calcularImposto: a null or non-positive base owes nothing; otherwise the progressive formula
   * over the brackets the repository returned for the year and incidence type.
   */
  method CalcularImposto(base: Option<Dec>, faixas: seq<Faixa>) returns (imposto: Dec)
    ensures base.None? || Val(base.value) <= 0.0 ==> imposto == Zero
    ensures base.Some? && Val(base.value) > 0.0 ==> imposto == ProgressiveTax(base.value, faixas)
    ensures Val(imposto) >= 0.0
  {
    if base.None? || Val(base.value) <= 0.0 {
      return Zero;
    }
    imposto := CalcularImpostoProgressivo(base.value, faixas);
  }

  /**
   * The bracket that decides the tax is the first one that contains the base: the tax is that
   * bracket's formula (or zero when it is exempt), whatever the later brackets say.
   */
  lemma {:induction false} FirstContainingBracketDecides(base: Dec, faixas: seq<Faixa>, i: nat)
    requires i < |faixas| && InFaixa(base, faixas[i])
    requires forall j :: 0 <= j < i ==> !InFaixa(base, faixas[j])
    ensures ProgressiveTax(base, faixas) ==
      if Exempt(faixas[i]) then Zero else BracketTax(base, faixas[i].aliquota.value, faixas[i].deducao)
  {
    var r := FirstFaixa(base, faixas);
    assert r.Some?;
    assert r.value <= i;
    assert r.value >= i;
  }

  /** When no bracket contains the base, the last bracket's rate and deduction are applied. */
  lemma NoBracketUsesLast(base: Dec, faixas: seq<Faixa>)
    requires faixas != []
    requires forall j :: 0 <= j < |faixas| ==> !InFaixa(base, faixas[j])
    ensures ProgressiveTax(base, faixas) ==
      BracketTax(base, faixas[|faixas| - 1].aliquota.GetOr(Zero), faixas[|faixas| - 1].deducao)
    ensures Val(ProgressiveTax(base, faixas)) >= 0.0
  {
  }
}
