/**
 * TaxaSelicService, the Receita Federal SELIC update: the period runs from the month after the
 * payment to the month of the update, and each month multiplies the accumulated factor by
 * 1 + rate/100, the quotient rounded HALF_UP to ten places.
 */
module TaxaSelic {
  import opened Wrappers
  import opened BigDec

  type Month = m: int | 1 <= m <= 12 witness 1

  /** A LocalDate; only its year and month matter here. */
  datatype Date = Date(year: int, month: Month, day: int)

  /** java.time.YearMonth. */
  datatype YearMonth = YearMonth(year: int, month: Month)

  function YearMonthOf(d: Date): YearMonth {
    YearMonth(d.year, d.month)
  }

  /** Months counted from January of year 0. */
  function MonthIndex(ym: YearMonth): int {
    ym.year * 12 + ym.month - 1
  }

  function FromMonthIndex(i: int): (ym: YearMonth)
    ensures MonthIndex(ym) == i
  {
    YearMonth(i / 12, i % 12 + 1)
  }

  /** Numbering months is one-to-one: a YearMonth is recovered from its index. */
  lemma MonthIndexRoundTrip(ym: YearMonth)
    ensures FromMonthIndex(MonthIndex(ym)) == ym
  {
    var i := MonthIndex(ym);
    assert i == ym.year * 12 + (ym.month - 1) && 0 <= ym.month - 1 < 12;
    assert i / 12 == ym.year && i % 12 == ym.month - 1;
  }

  /** YearMonth.plusMonths. */
  function PlusMonths(ym: YearMonth, n: int): (r: YearMonth)
    ensures MonthIndex(r) == MonthIndex(ym) + n
  {
    FromMonthIndex(MonthIndex(ym) + n)
  }

  /** Adding a months and then b months adds a + b months. */
  lemma PlusMonthsAdds(ym: YearMonth, a: int, b: int)
    ensures PlusMonths(PlusMonths(ym, a), b) == PlusMonths(ym, a + b)
  {
    assert MonthIndex(PlusMonths(ym, a)) + b == MonthIndex(ym) + (a + b);
  }

  /** Adding one month moves to the next month of the same year, or to January of the next. */
  lemma PlusOneMonth(ym: YearMonth)
    ensures ym.month < 12 ==> PlusMonths(ym, 1) == YearMonth(ym.year, ym.month + 1)
    ensures ym.month == 12 ==> PlusMonths(ym, 1) == YearMonth(ym.year + 1, 1)
  {
    if ym.month < 12 {
      MonthIndexRoundTrip(YearMonth(ym.year, ym.month + 1));
    } else {
      MonthIndexRoundTrip(YearMonth(ym.year + 1, 1));
    }
  }

  /** YearMonth.isBefore and isAfter: by year, then by month. */
  predicate IsBefore(a: YearMonth, b: YearMonth) {
    a.year < b.year || (a.year == b.year && a.month < b.month)
  }

  predicate IsAfter(a: YearMonth, b: YearMonth) {
    IsBefore(b, a)
  }

  /** Comparing by year and month is comparing the month indices. */
  lemma IsBeforeByIndex(a: YearMonth, b: YearMonth)
    ensures IsBefore(a, b) <==> MonthIndex(a) < MonthIndex(b)
  {
    if a.year < b.year {
      assert MonthIndex(a) <= a.year * 12 + 11 < (a.year + 1) * 12 <= b.year * 12 <= MonthIndex(b);
    } else if a.year > b.year {
      assert MonthIndex(b) <= b.year * 12 + 11 < (b.year + 1) * 12 <= a.year * 12 <= MonthIndex(a);
    }
  }

  /** One row of the SELIC mensal table (series 4390): a monthly rate in percent. */
  datatype SelicMensalEntity = SelicMensalEntity(ano: int, mes: int, taxa: Dec)

  /** One month of the detailed result. */
  datatype SelicMensal = SelicMensal(ano: int, mes: int, taxa: Dec)

  datatype SelicResult = SelicResult(
    dataPagamento: Date,
    dataAtualizacao: Date,
    taxaAcumulada: Dec,
    fatorAcumulado: Dec,
    totalMeses: int,
    meses: seq<SelicMensal>)

  /** The "ANO-MES" key; the string is written as the pair it prints. */
  function Key(t: SelicMensalEntity): (int, int) {
    (t.ano, t.mes)
  }

  /** The rate of the last row with key `k`, scanning from the end. */
  function LastRate(taxas: seq<SelicMensalEntity>, k: (int, int)): Option<Dec> {
    if taxas == [] then None
    else if Key(taxas[|taxas| - 1]) == k then Some(taxas[|taxas| - 1].taxa)
    else LastRate(taxas[..|taxas| - 1], k)
  }

  /** There is no rate for a key exactly when no row has it. */
  lemma {:induction false} LastRateMissing(taxas: seq<SelicMensalEntity>, k: (int, int))
    ensures LastRate(taxas, k).None? <==> forall i | 0 <= i < |taxas| :: Key(taxas[i]) != k
  {
    if taxas != [] && Key(taxas[|taxas| - 1]) != k {
      var earlier := taxas[..|taxas| - 1];
      LastRateMissing(earlier, k);
      assert forall i | 0 <= i < |earlier| :: earlier[i] == taxas[i];
    }
  }

  /** Last write wins: a rate found for a key is that of a row with the key no later row overwrites. */
  lemma {:induction false} LastRateIsLastWrite(taxas: seq<SelicMensalEntity>, k: (int, int))
    ensures LastRate(taxas, k).Some? ==>
              exists i | 0 <= i < |taxas| :: Key(taxas[i]) == k && taxas[i].taxa == LastRate(taxas, k).value &&
                                            forall j | i < j < |taxas| :: Key(taxas[j]) != k
  {
    if taxas != [] && Key(taxas[|taxas| - 1]) != k {
      var earlier := taxas[..|taxas| - 1];
      LastRateIsLastWrite(earlier, k);
      if LastRate(earlier, k).Some? {
        var v := LastRate(earlier, k).value;
        var i :| 0 <= i < |earlier| && Key(earlier[i]) == k && earlier[i].taxa == v &&
                 forall j | i < j < |earlier| :: Key(earlier[j]) != k;
        assert taxas[i] == earlier[i];
        assert forall j | i < j < |taxas| :: Key(taxas[j]) != k by {
          forall j | i < j < |taxas| ensures Key(taxas[j]) != k {
            if j < |earlier| {
              assert taxas[j] == earlier[j];
            }
          }
        }
      }
    }
  }

  /** The lookup map of calcularSelicMensalReal, keyed by the rows' "ANO-MES". */
  function RatesOf(taxas: seq<SelicMensalEntity>): (r: map<(int, int), Dec>)
    ensures forall k :: k in r <==> LastRate(taxas, k).Some?
    ensures forall k | k in r :: r[k] == LastRate(taxas, k).value
  {
    if taxas == [] then map[]
    else
      var earlier := taxas[..|taxas| - 1];
      RatesOf(earlier)[Key(taxas[|taxas| - 1]) := taxas[|taxas| - 1].taxa]
  }

  /** The loop that fills mapaTaxas. */
  method BuildRateMap(taxasMensais: seq<SelicMensalEntity>) returns (mapaTaxas: map<(int, int), Dec>)
    ensures mapaTaxas == RatesOf(taxasMensais)
  {
    mapaTaxas := map[];
    for i := 0 to |taxasMensais|
      invariant mapaTaxas == RatesOf(taxasMensais[..i])
    {
      var taxa := taxasMensais[i];
      assert taxasMensais[..i + 1][..i] == taxasMensais[..i];
      mapaTaxas := mapaTaxas[Key(taxa) := taxa.taxa];
    }
    assert taxasMensais[..|taxasMensais|] == taxasMensais;
  }

  /** `getOrDefault(chave, ZERO)`. */
  function Rate(mapaTaxas: map<(int, int), Dec>, ym: YearMonth): Dec {
    if (ym.year, ym.month) in mapaTaxas then mapaTaxas[(ym.year, ym.month)] else Zero
  }

  const Hundred: Dec := Dec(100, 0)

  /** The exact quotient by 100: the same digits, two more places. */
  function Percent(d: Dec): (r: Dec)
    ensures Val(r) == Val(d) / 100.0
  {
    ValShift(d.unscaled, d.scale, 2);
    assert Pow10(2) == 100;
    Dec(d.unscaled, d.scale + 2)
  }

  /** `ONE.add(taxa.divide(100, 10, HALF_UP))`: at least 1 when the rate is not negative. */
  function MonthlyFactor(taxa: Dec): (r: Dec)
    ensures Val(taxa) >= 0.0 ==> Val(r) >= 1.0
    ensures Val(taxa) == 0.0 ==> Val(r) == 1.0
  {
    Add(One, SetScale(Percent(taxa), 10))
  }

  /** The monthly factor is 1 + taxa/100 to within half of 10^-10. */
  lemma MonthlyFactorIsOnePlusRate(taxa: Dec)
    ensures 2.0 * Abs(Val(MonthlyFactor(taxa)) - (1.0 + Val(taxa) / 100.0)) * Pow10(10) as real <= 1.0
  {
    var q := SetScale(Percent(taxa), 10);
    assert Val(MonthlyFactor(taxa)) - (1.0 + Val(taxa) / 100.0) == Val(q) - Val(Percent(taxa));
  }

  /** The rates of the first `n` months of the period, a missing month counting as zero. */
  function MonthRates(mapaTaxas: map<(int, int), Dec>, inicio: YearMonth, n: nat): (r: seq<Dec>)
    ensures |r| == n
    ensures forall k | 0 <= k < n :: r[k] == Rate(mapaTaxas, PlusMonths(inicio, k))
  {
    if n == 0 then [] else MonthRates(mapaTaxas, inicio, n - 1) + [Rate(mapaTaxas, PlusMonths(inicio, n - 1))]
  }

  /** The factor accumulated over a run of monthly rates, multiplied in order. */
  function Compound(taxas: seq<Dec>): Dec {
    if taxas == [] then One
    else Mul(Compound(taxas[..|taxas| - 1]), MonthlyFactor(taxas[|taxas| - 1]))
  }

  /** With no negative rate, the accumulated factor is at least 1. */
  lemma {:induction false} CompoundAtLeastOne(taxas: seq<Dec>)
    requires forall k | 0 <= k < |taxas| :: Val(taxas[k]) >= 0.0
    ensures Val(Compound(taxas)) >= 1.0
  {
    if taxas != [] {
      var earlier := taxas[..|taxas| - 1];
      CompoundAtLeastOne(earlier);
      MulAtLeastOne(Compound(earlier), MonthlyFactor(taxas[|taxas| - 1]));
    }
  }

  /** With every rate zero, the accumulated factor is exactly 1. */
  lemma {:induction false} CompoundOfZeroRates(taxas: seq<Dec>)
    requires forall k | 0 <= k < |taxas| :: Val(taxas[k]) == 0.0
    ensures Val(Compound(taxas)) == 1.0
  {
    if taxas != [] {
      var earlier := taxas[..|taxas| - 1];
      CompoundOfZeroRates(earlier);
      MulByOne(Compound(earlier), MonthlyFactor(taxas[|taxas| - 1]));
    }
  }

  /** The detail rows of the first `n` months of the period. */
  function Details(mapaTaxas: map<(int, int), Dec>, inicio: YearMonth, n: nat): (r: seq<SelicMensal>)
    ensures |r| == n
    ensures forall k | 0 <= k < n :: r[k] == SelicMensal(PlusMonths(inicio, k).year, PlusMonths(inicio, k).month,
                                                         Rate(mapaTaxas, PlusMonths(inicio, k)))
  {
    if n == 0 then []
    else
      var m := PlusMonths(inicio, n - 1);
      Details(mapaTaxas, inicio, n - 1) + [SelicMensal(m.year, m.month, Rate(mapaTaxas, m))]
  }

  /** The number of months from `inicio` to `fim`, both included; zero when `fim` comes first. */
  function MonthCount(inicio: YearMonth, fim: YearMonth): nat {
    if MonthIndex(fim) < MonthIndex(inicio) then 0 else MonthIndex(fim) - MonthIndex(inicio) + 1
  }

  /** What calcularSelicMensalReal returns. */
  function SelicMensalReal(taxasMensais: seq<SelicMensalEntity>, inicio: YearMonth, fim: YearMonth,
                           dataPagamento: Date, dataAtualizacao: Date): SelicResult
  {
    var mapaTaxas := RatesOf(taxasMensais);
    var n := MonthCount(inicio, fim);
    var fator := Compound(MonthRates(mapaTaxas, inicio, n));
    SelicResult(dataPagamento, dataAtualizacao, SetScale(Mul(Sub(fator, One), Hundred), 2), SetScale(fator, 8),
                n, Details(mapaTaxas, inicio, n))
  }

  /** calcularSelicMensalReal: the month-by-month loop. */
  method CalcularSelicMensalReal(taxasMensais: seq<SelicMensalEntity>, mesInicio: YearMonth, mesFim: YearMonth,
                                 dataPagamento: Date, dataAtualizacao: Date) returns (r: SelicResult)
    ensures r == SelicMensalReal(taxasMensais, mesInicio, mesFim, dataPagamento, dataAtualizacao)
  {
    var mapaTaxas := BuildRateMap(taxasMensais);
    var fatorAcumulado := One;
    var mesesDetalhados: seq<SelicMensal> := [];
    var totalMeses: nat := 0;
    var mesAtual := mesInicio;
    LoopGuard(mesInicio, mesFim, 0);
    while !IsAfter(mesAtual, mesFim)
      invariant mesAtual == PlusMonths(mesInicio, totalMeses)
      invariant totalMeses <= MonthCount(mesInicio, mesFim)
      invariant IsAfter(mesAtual, mesFim) <==> totalMeses == MonthCount(mesInicio, mesFim)
      invariant fatorAcumulado == Compound(MonthRates(mapaTaxas, mesInicio, totalMeses))
      invariant mesesDetalhados == Details(mapaTaxas, mesInicio, totalMeses)
      decreases MonthCount(mesInicio, mesFim) - totalMeses
    {
      var taxaMes := if (mesAtual.year, mesAtual.month) in mapaTaxas then mapaTaxas[(mesAtual.year, mesAtual.month)] else Zero;
      var fatorMes := Add(One, SetScale(Percent(taxaMes), 10));
      CompoundStep(mapaTaxas, mesInicio, totalMeses);
      fatorAcumulado := Mul(fatorAcumulado, fatorMes);
      mesesDetalhados := mesesDetalhados + [SelicMensal(mesAtual.year, mesAtual.month, taxaMes)];
      totalMeses := totalMeses + 1;
      PlusMonthsAdds(mesInicio, totalMeses - 1, 1);
      mesAtual := PlusMonths(mesAtual, 1);
      LoopGuard(mesInicio, mesFim, totalMeses);
    }
    var taxaAcumulada := SetScale(Mul(Sub(fatorAcumulado, One), Hundred), 2);
    return SelicResult(dataPagamento, dataAtualizacao, taxaAcumulada, SetScale(fatorAcumulado, 8),
                       totalMeses, mesesDetalhados);
  }

  /** One more month multiplies the accumulated factor by that month's factor. */
  lemma CompoundStep(mapaTaxas: map<(int, int), Dec>, inicio: YearMonth, n: nat)
    ensures Compound(MonthRates(mapaTaxas, inicio, n + 1)) ==
            Mul(Compound(MonthRates(mapaTaxas, inicio, n)), MonthlyFactor(Rate(mapaTaxas, PlusMonths(inicio, n))))
  {
    var taxas := MonthRates(mapaTaxas, inicio, n + 1);
    assert taxas[..n] == MonthRates(mapaTaxas, inicio, n);
  }

  /** The loop of calcularSelicMensalReal stops exactly after the months of the period. */
  lemma LoopGuard(inicio: YearMonth, fim: YearMonth, n: nat)
    requires n <= MonthCount(inicio, fim)
    ensures IsAfter(PlusMonths(inicio, n), fim) <==> n == MonthCount(inicio, fim)
  {
    IsBeforeByIndex(fim, PlusMonths(inicio, n));
  }

  /** The period of calcularSelicReceitaFederal: from the month after payment to the update month. */
  function PeriodStart(dataPagamento: Date): YearMonth {
    PlusMonths(YearMonthOf(dataPagamento), 1)
  }

  function PeriodEnd(dataAtualizacao: Date): YearMonth {
    YearMonthOf(dataAtualizacao)
  }

  /**
   * calcularSelicReceitaFederal: an update month before the first month of the period gives rate
   * 0, factor 1 and no months; otherwise the monthly computation over the stored rates.
   */
  method CalcularSelicReceitaFederal(dataPagamento: Date, dataAtualizacao: Date, taxasMensais: seq<SelicMensalEntity>)
    returns (r: SelicResult)
    ensures IsBefore(PeriodEnd(dataAtualizacao), PeriodStart(dataPagamento)) ==>
              r == SelicResult(dataPagamento, dataAtualizacao, Zero, One, 0, [])
    ensures !IsBefore(PeriodEnd(dataAtualizacao), PeriodStart(dataPagamento)) ==>
              r == SelicMensalReal(taxasMensais, PeriodStart(dataPagamento), PeriodEnd(dataAtualizacao),
                                   dataPagamento, dataAtualizacao)
  {
    var mesInicio := PlusMonths(YearMonthOf(dataPagamento), 1);
    var mesFim := YearMonthOf(dataAtualizacao);
    if IsBefore(mesFim, mesInicio) {
      return SelicResult(dataPagamento, dataAtualizacao, Zero, One, 0, []);
    }
    r := CalcularSelicMensalReal(taxasMensais, mesInicio, mesFim, dataPagamento, dataAtualizacao);
  }

  /**
   * The period is visited month by month: one detail row per month from the start to the end
   * month, in order, each the month after the previous, and totalMeses counts them.
   */
  lemma PeriodVisitedInOrder(taxasMensais: seq<SelicMensalEntity>, inicio: YearMonth, fim: YearMonth, dp: Date, da: Date)
    requires !IsBefore(fim, inicio)
    ensures var r := SelicMensalReal(taxasMensais, inicio, fim, dp, da);
            r.totalMeses == |r.meses| == MonthIndex(fim) - MonthIndex(inicio) + 1 &&
            r.meses[0].ano == inicio.year && r.meses[0].mes == inicio.month &&
            r.meses[|r.meses| - 1].ano == fim.year && r.meses[|r.meses| - 1].mes == fim.month &&
            forall k | 0 <= k < |r.meses| - 1 ::
              (r.meses[k + 1].ano, r.meses[k + 1].mes) == NextMonth(r.meses[k].ano, r.meses[k].mes)
  {
    IsBeforeByIndex(fim, inicio);
    DetailsInOrder(RatesOf(taxasMensais), inicio, fim);
  }

  lemma DetailsInOrder(mapaTaxas: map<(int, int), Dec>, inicio: YearMonth, fim: YearMonth)
    requires MonthIndex(inicio) <= MonthIndex(fim)
    ensures var d := Details(mapaTaxas, inicio, MonthCount(inicio, fim));
            |d| == MonthIndex(fim) - MonthIndex(inicio) + 1 &&
            d[0].ano == inicio.year && d[0].mes == inicio.month &&
            d[|d| - 1].ano == fim.year && d[|d| - 1].mes == fim.month &&
            forall k | 0 <= k < |d| - 1 :: (d[k + 1].ano, d[k + 1].mes) == NextMonth(d[k].ano, d[k].mes)
  {
    var n := MonthCount(inicio, fim);
    var d := Details(mapaTaxas, inicio, n);
    MonthIndexRoundTrip(inicio);
    MonthIndexRoundTrip(fim);
    assert PlusMonths(inicio, 0) == inicio;
    assert PlusMonths(inicio, n - 1) == fim;
    forall k | 0 <= k < n - 1
      ensures (d[k + 1].ano, d[k + 1].mes) == NextMonth(d[k].ano, d[k].mes)
    {
      var m := PlusMonths(inicio, k);
      PlusOneMonth(m);
      assert PlusMonths(m, 1) == PlusMonths(inicio, k + 1);
    }
  }

  /** The calendar month after (ano, mes). */
  function NextMonth(ano: int, mes: int): (int, int) {
    if mes == 12 then (ano + 1, 1) else (ano, mes + 1)
  }

  /** A period with no stored rate at all has factor exactly 1 and accumulated rate 0. */
  lemma NoRatesNoUpdate(inicio: YearMonth, fim: YearMonth, dp: Date, da: Date)
    ensures Val(SelicMensalReal([], inicio, fim, dp, da).fatorAcumulado) == 1.0
    ensures Val(SelicMensalReal([], inicio, fim, dp, da).taxaAcumulada) == 0.0
  {
    var n := MonthCount(inicio, fim);
    assert RatesOf([]) == map[];
    var taxas := MonthRates(map[], inicio, n);
    forall k | 0 <= k < n ensures Val(taxas[k]) == 0.0 {
      ValSign(Zero);
    }
    CompoundOfZeroRates(taxas);
    RoundedFactor(Compound(taxas));
    RoundedRate(Compound(taxas));
  }

  /**
   * Non-negative monthly rates give a factor of at least 1 and a non-negative accumulated rate,
   * also after rounding.
   */
  lemma NonNegativeRatesNeverDecrease(taxasMensais: seq<SelicMensalEntity>, inicio: YearMonth, fim: YearMonth, dp: Date, da: Date)
    requires forall t | t in taxasMensais :: Val(t.taxa) >= 0.0
    ensures Val(SelicMensalReal(taxasMensais, inicio, fim, dp, da).fatorAcumulado) >= 1.0
    ensures Val(SelicMensalReal(taxasMensais, inicio, fim, dp, da).taxaAcumulada) >= 0.0
  {
    var taxas := MonthRates(RatesOf(taxasMensais), inicio, MonthCount(inicio, fim));
    MonthRatesNonNegative(taxasMensais, inicio, MonthCount(inicio, fim));
    CompoundAtLeastOne(taxas);
    RoundedFactor(Compound(taxas));
    RoundedRate(Compound(taxas));
  }

  lemma MonthRatesNonNegative(taxasMensais: seq<SelicMensalEntity>, inicio: YearMonth, n: nat)
    requires forall t | t in taxasMensais :: Val(t.taxa) >= 0.0
    ensures forall k | 0 <= k < n :: Val(MonthRates(RatesOf(taxasMensais), inicio, n)[k]) >= 0.0
  {
    var taxas := MonthRates(RatesOf(taxasMensais), inicio, n);
    forall k | 0 <= k < n ensures Val(taxas[k]) >= 0.0 {
      RateNonNegative(taxasMensais, PlusMonths(inicio, k));
    }
  }

  lemma RateNonNegative(taxasMensais: seq<SelicMensalEntity>, m: YearMonth)
    requires forall t | t in taxasMensais :: Val(t.taxa) >= 0.0
    ensures Val(Rate(RatesOf(taxasMensais), m)) >= 0.0
  {
    var v := Rate(RatesOf(taxasMensais), m);
    RateIsStored(taxasMensais, m);
    if v != Zero {
      var i :| 0 <= i < |taxasMensais| && v == taxasMensais[i].taxa;
      assert taxasMensais[i] in taxasMensais;
    }
  }

  /** The factor rounded to eight places stays on the same side of 1 and keeps an exact 1. */
  lemma RoundedFactor(fator: Dec)
    ensures Val(fator) >= 1.0 ==> Val(SetScale(fator, 8)) >= 1.0
    ensures Val(fator) == 1.0 ==> Val(SetScale(fator, 8)) == 1.0
  {
    assert Pow10(8) == 100000000;
    assert Val(Dec(100000000, 8)) == 1.0;
    SetScaleKeepsSide(fator, 8, 100000000);
  }

  /** The accumulated rate (factor - 1) * 100 is not negative when the factor is at least 1. */
  lemma RoundedRate(fator: Dec)
    ensures Val(fator) >= 1.0 ==> Val(SetScale(Mul(Sub(fator, One), Hundred), 2)) >= 0.0
    ensures Val(fator) == 1.0 ==> Val(SetScale(Mul(Sub(fator, One), Hundred), 2)) == 0.0
  {
    LiteralValues();
    MulSign(Sub(fator, One), Hundred);
  }

  /** A month's rate is zero or the rate of one of the stored rows. */
  lemma RateIsStored(taxasMensais: seq<SelicMensalEntity>, m: YearMonth)
    ensures Rate(RatesOf(taxasMensais), m) == Zero ||
            exists i | 0 <= i < |taxasMensais| :: Rate(RatesOf(taxasMensais), m) == taxasMensais[i].taxa
  {
    LastRateIsLastWrite(taxasMensais, (m.year, m.month));
  }

  /** The example of the service's documentation: paid in April 2017, updated in August 2025, 100 months. */
  lemma HundredMonthExample(taxasMensais: seq<SelicMensalEntity>)
    ensures var dp, da := Date(2017, 4, 30), Date(2025, 8, 31);
            !IsBefore(PeriodEnd(da), PeriodStart(dp)) &&
            SelicMensalReal(taxasMensais, PeriodStart(dp), PeriodEnd(da), dp, da).totalMeses == 100
  {
    var start := PeriodStart(Date(2017, 4, 30));
    PlusOneMonth(YearMonth(2017, 4));
    assert start == YearMonth(2017, 5);
  }
}
