/**
 * ConsolidationUseCase: request validation, entry filtering, reference normalization, the
 * "YYYY-13" month-adjustment rule and the ordering of the consolidated rows. The money sums,
 * which the code does in floating point, are not part of this module.
 */
module Consolidation {
  import opened Wrappers
  import opened JavaText
  import ReferenceNormalizer

  /** A payroll entry (PayrollEntry); equality is value equality, as for the Lombok class. */
  datatype PayrollEntry = PayrollEntry(
    id: Option<string>,
    tenantId: Option<string>,
    documentoId: Option<string>,
    rubricaCodigo: string,
    rubricaDescricao: Option<string>,
    referencia: Option<string>,
    mesPagamento: Option<string>,
    valor: Option<real>,
    origem: Option<string>,
    pagina: Option<int>)

  /** An optional request parameter that is present and non-empty. */
  predicate Given(p: Option<string>) {
    p.Some? && p.value != []
  }

  /** The request's failures: a bad origem or ano, or no entry left once the filters ran. */
  datatype RequestError = InvalidOrigin(origem: string) | InvalidYear(ano: string) | NoEntriesFound

  /** A year parameter Integer.parseInt reads as a number from 2000 to 2100. */
  predicate YearInRange(ano: string) {
    ParseInt(ano).Some? && 2000 <= ParseInt(ano).value <= 2100
  }

  /**
   * The checks at the start of consolidate: a given origem must be "CAIXA" or "FUNCEF", then a
   * given ano must parse as an integer from 2000 to 2100.
   */
  function ValidateRequest(ano: Option<string>, origem: Option<string>): (r: Option<RequestError>)
    ensures Given(origem) && origem.value != "CAIXA" && origem.value != "FUNCEF" ==> r == Some(InvalidOrigin(origem.value))
    ensures r.Some? && r.value.InvalidYear? ==> Given(ano) && r.value.ano == ano.value && !YearInRange(ano.value)
    ensures (!Given(origem) || origem.value == "CAIXA" || origem.value == "FUNCEF") && Given(ano) && !YearInRange(ano.value) ==>
              r == Some(InvalidYear(ano.value))
    ensures r != Some(NoEntriesFound)
    ensures r.None? <==> (!Given(origem) || origem.value == "CAIXA" || origem.value == "FUNCEF") &&
                         (!Given(ano) || YearInRange(ano.value))
  {
    if Given(origem) && origem.value != "CAIXA" && origem.value != "FUNCEF" then Some(InvalidOrigin(origem.value))
    else if Given(ano) then
      match ParseInt(ano.value)
      case None => Some(InvalidYear(ano.value))
      case Some(yearInt) => if yearInt < 2000 || yearInt > 2100 then Some(InvalidYear(ano.value)) else None
    else None
  }

  /** Every four-digit year from 2000 to 2100 passes the year check. */
  lemma FourDigitYearsAccepted(ano: string)
    requires |ano| == 4 && AllDigits(ano) && 2000 <= NatValue(ano) <= 2100
    ensures ValidateRequest(Some(ano), None).None?
  {
  }

  /** What the stream filter of applyFilters keeps. */
  predicate PassesFilters(e: PayrollEntry, ano: Option<string>, origem: Option<string>) {
    (Given(ano) ==>
       var normalizedRef := ReferenceNormalizer.Normalize(e.referencia);
       normalizedRef.Some? && ReferenceNormalizer.ExtractYear(normalizedRef) == Ok(Some(ano.value))) &&
    (Given(origem) ==> e.origem == Some(origem.value))
  }

  /** `a` is `b` with some elements left out, the rest in their order. */
  predicate IsSubsequence<T(==)>(a: seq<T>, b: seq<T>)
    decreases |b|
  {
    a == [] || (b != [] && ((a[0] == b[0] && IsSubsequence(a[1..], b[1..])) || IsSubsequence(a, b[1..])))
  }

  /** applyFilters: the entries that pass both optional filters, in their original order. */
  function ApplyFilters(entries: seq<PayrollEntry>, ano: Option<string>, origem: Option<string>): (r: seq<PayrollEntry>)
    ensures IsSubsequence(r, entries)
    ensures forall e :: e in r <==> e in entries && PassesFilters(e, ano, origem)
    ensures forall e :: multiset(r)[e] == if PassesFilters(e, ano, origem) then multiset(entries)[e] else 0
  {
    if entries == [] then []
    else
      var rest := ApplyFilters(entries[1..], ano, origem);
      assert entries == [entries[0]] + entries[1..];
      if PassesFilters(entries[0], ano, origem) then [entries[0]] + rest else rest
  }

  /** Filtering works piecewise on a concatenation, so the kept entries keep their order. */
  lemma {:induction false} ApplyFiltersConcat(a: seq<PayrollEntry>, b: seq<PayrollEntry>, ano: Option<string>, origem: Option<string>)
    ensures ApplyFilters(a + b, ano, origem) == ApplyFilters(a, ano, origem) + ApplyFilters(b, ano, origem)
  {
    if a == [] {
      assert a + b == b;
    } else {
      var x := a[0];
      assert (a + b)[0] == x;
      assert (a + b)[1..] == a[1..] + b;
      ApplyFiltersConcat(a[1..], b, ano, origem);
      if PassesFilters(x, ano, origem) {
        var fa, fb := ApplyFilters(a[1..], ano, origem), ApplyFilters(b, ano, origem);
        assert ApplyFilters(a + b, ano, origem) == [x] + (fa + fb);
        assert ApplyFilters(a, ano, origem) == [x] + fa;
        PrependAssociates(x, fa, fb);
      } else {
        assert ApplyFilters(a + b, ano, origem) == ApplyFilters(a[1..] + b, ano, origem);
        assert ApplyFilters(a, ano, origem) == ApplyFilters(a[1..], ano, origem);
      }
    }
  }

  /** Putting an element before a concatenation is putting it before the first part. */
  lemma PrependAssociates<T>(x: T, p: seq<T>, q: seq<T>)
    ensures [x] + (p + q) == ([x] + p) + q
  {
  }

  /** Filtering again with the same parameters removes nothing more. */
  lemma {:induction false} ApplyFiltersIdempotent(entries: seq<PayrollEntry>, ano: Option<string>, origem: Option<string>)
    ensures ApplyFilters(ApplyFilters(entries, ano, origem), ano, origem) == ApplyFilters(entries, ano, origem)
  {
    if entries != [] {
      ApplyFiltersIdempotent(entries[1..], ano, origem);
      var rest := ApplyFilters(entries[1..], ano, origem);
      if PassesFilters(entries[0], ano, origem) {
        assert ([entries[0]] + rest)[1..] == rest;
      }
    }
  }

  /** With an ano filter, every kept entry's reference normalizes to that year. */
  lemma FilteredEntriesHaveTheYear(entries: seq<PayrollEntry>, ano: string, origem: Option<string>, e: PayrollEntry)
    requires ano != [] && e in ApplyFilters(entries, Some(ano), origem)
    ensures ReferenceNormalizer.Normalize(e.referencia).Some?
    ensures ReferenceNormalizer.Normalize(e.referencia).value[..4] == ano
  {
    ReferenceNormalizer.ExtractIsoRoundTrip(ReferenceNormalizer.Normalize(e.referencia).value);
  }

  /**
   * The normalized reference buildConsolidatedResponse keeps for an entry: the trimmed reference
   * when it already passes isValid, else normalize of it, and only when the outcome passes isValid.
   * This inline version always agrees with ReferenceNormalizer.normalize.
   */
  function NormalizedRef(e: PayrollEntry): (r: Option<string>)
    ensures r == ReferenceNormalizer.Normalize(e.referencia)
  {
    if e.referencia.None? then None
    else
      var trimmedRef := Trim(e.referencia.value);
      var normalized := if ReferenceNormalizer.IsValid(Some(trimmedRef)) then Some(trimmedRef)
                        else ReferenceNormalizer.Normalize(Some(trimmedRef));
      InlineNormalizeAgrees(e.referencia.value);
      if normalized.Some? && ReferenceNormalizer.IsValid(normalized) then normalized else None
  }

  /** Trimming first, keeping a valid reference and re-checking the outcome is normalize itself. */
  lemma InlineNormalizeAgrees(referencia: string)
    ensures var t := Trim(referencia);
            var n := if ReferenceNormalizer.IsValid(Some(t)) then Some(t) else ReferenceNormalizer.Normalize(Some(t));
            (if n.Some? && ReferenceNormalizer.IsValid(n) then n else None) == ReferenceNormalizer.Normalize(Some(referencia))
  {
    var t := Trim(referencia);
    TrimIdempotent(referencia);
    assert ReferenceNormalizer.Normalize(Some(t)) == ReferenceNormalizer.Normalize(Some(referencia));
    ReferenceNormalizer.IsValidIffNormalizeKeepsTrimmed(t);
    if ReferenceNormalizer.Normalize(Some(t)).Some? {
      ReferenceNormalizer.NormalizeResultIsValid(Some(t));
    }
  }

  /** The years of the entries' normalized references; each is four digits. */
  function YearsOf(entries: seq<PayrollEntry>): (r: set<string>)
    ensures forall y | y in r :: |y| == 4 && AllDigits(y)
  {
    set e | e in entries && NormalizedRef(e).Some? :: NormalizedRef(e).value[..4]
  }

  lemma YearsOfAppend(earlier: seq<PayrollEntry>, e: PayrollEntry)
    ensures YearsOf(earlier + [e]) ==
            YearsOf(earlier) + (if NormalizedRef(e).Some? then {NormalizedRef(e).value[..4]} else {})
  {
    assert forall x :: x in earlier + [e] <==> x in earlier || x == e;
  }

  /**
   * The first loop of buildConsolidatedResponse: the normalized reference of every entry that has
   * one, and the set of years, replaced by the ano filter when one is given.
   */
  method NormalizeReferences(entries: seq<PayrollEntry>, anoFiltro: Option<string>)
    returns (entryToNormalizedRef: map<PayrollEntry, string>, allYears: set<string>)
    ensures forall e :: e in entryToNormalizedRef <==> e in entries && NormalizedRef(e).Some?
    ensures forall e | e in entryToNormalizedRef :: entryToNormalizedRef[e] == NormalizedRef(e).value
    ensures Given(anoFiltro) ==> allYears == {anoFiltro.value}
    ensures !Given(anoFiltro) ==> allYears == YearsOf(entries)
  {
    entryToNormalizedRef := map[];
    allYears := {};
    for i := 0 to |entries|
      invariant forall e :: e in entryToNormalizedRef <==> e in entries[..i] && NormalizedRef(e).Some?
      invariant forall e | e in entryToNormalizedRef :: entryToNormalizedRef[e] == NormalizedRef(e).value
      invariant allYears == YearsOf(entries[..i])
    {
      var entry := entries[i];
      assert entries[..i + 1][..i] == entries[..i];
      assert entries[..i + 1] == entries[..i] + [entry];
      var normalized := NormalizedRef(entry);
      YearsOfAppend(entries[..i], entry);
      if normalized.Some? {
        entryToNormalizedRef := entryToNormalizedRef[entry := normalized.value];
        ReferenceNormalizer.ExtractIsoRoundTrip(normalized.value);
        var year := ReferenceNormalizer.ExtractYear(normalized).value.value;
        allYears := allYears + {year};
      }
    }
    assert entries[..|entries|] == entries;
    if Given(anoFiltro) {
      allYears := {anoFiltro.value};
    }
  }

  /** `\d{4}-13`: the thirteenth-salary reference of a year. */
  predicate IsThirteenth(s: string) {
    |s| == 7 && AllDigits(s[..4]) && s[4] == '-' && s[5..] == "13"
  }

  /** The entries of one document page that have a reference, in list order. */
  function SamePage(entries: seq<PayrollEntry>, documentoId: string, pagina: int): (r: seq<PayrollEntry>)
    ensures forall e :: e in r <==> e in entries && e.documentoId == Some(documentoId) && e.pagina == Some(pagina) && e.referencia.Some?
  {
    if entries == [] then []
    else
      var e := entries[0];
      var rest := SamePage(entries[1..], documentoId, pagina);
      if e.documentoId == Some(documentoId) && e.pagina == Some(pagina) && e.referencia.Some? then [e] + rest else rest
  }

  /**
   * The month another entry of the page offers for year `ano`: its reference, unless it is itself
   * "YYYY-13", taken as it is when "YYYY-MM" or else normalized, and used when its year is `ano`
   * and its month is not "13".
   */
  function MonthOffered(other: PayrollEntry, ano: string): (r: Option<string>)
    ensures r.Some? ==> |r.value| == 2 && AllDigits(r.value) && r.value != "13"
  {
    if other.referencia.None? || IsThirteenth(other.referencia.value) then None
    else
      var refOriginal := other.referencia.value;
      var refParaUsar := if ReferenceNormalizer.IsIso(refOriginal) then Some(refOriginal)
                         else ReferenceNormalizer.Normalize(Some(refOriginal));
      if refParaUsar.Some? && ReferenceNormalizer.IsIso(refParaUsar.value) then
        ReferenceNormalizer.SplitIso(refParaUsar.value);
        var partes := Split(refParaUsar.value, '-');
        if ano == partes[0] && partes[1] != "13" then Some(partes[1]) else None
      else None
  }

  /** SamePage keeps the list order: it works piecewise on a concatenation. */
  lemma {:induction false} SamePageConcat(a: seq<PayrollEntry>, b: seq<PayrollEntry>, documentoId: string, pagina: int)
    ensures SamePage(a + b, documentoId, pagina) == SamePage(a, documentoId, pagina) + SamePage(b, documentoId, pagina)
  {
    if a == [] {
      assert a + b == b;
    } else {
      assert (a + b)[0] == a[0];
      assert (a + b)[1..] == a[1..] + b;
      SamePageConcat(a[1..], b, documentoId, pagina);
    }
  }

  /** Entry `k` of `s` offers a month for `ano` and no entry before it does. */
  predicate OffersFirst(s: seq<PayrollEntry>, ano: string, k: int) {
    0 <= k < |s| && MonthOffered(s[k], ano).Some? && forall j :: 0 <= j < k ==> MonthOffered(s[j], ano).None?
  }

  /** The month offered by the first entry of the page that offers one. */
  function FirstMonthOffered(entriesMesmaPagina: seq<PayrollEntry>, ano: string): (r: Option<string>)
    ensures r.Some? ==> |r.value| == 2 && AllDigits(r.value) && r.value != "13"
    ensures r.Some? ==> exists e :: e in entriesMesmaPagina && MonthOffered(e, ano) == r
    ensures r.None? <==> forall e :: e in entriesMesmaPagina ==> MonthOffered(e, ano).None?
    ensures r.Some? ==> exists k :: OffersFirst(entriesMesmaPagina, ano, k) && MonthOffered(entriesMesmaPagina[k], ano) == r
  {
    if entriesMesmaPagina == [] then None
    else if MonthOffered(entriesMesmaPagina[0], ano).Some? then
      assert OffersFirst(entriesMesmaPagina, ano, 0);
      MonthOffered(entriesMesmaPagina[0], ano)
    else
      FirstOfferShifts(entriesMesmaPagina, ano);
      FirstMonthOffered(entriesMesmaPagina[1..], ano)
  }

  /** When the head offers nothing, the first offer of the tail is the first offer of the list. */
  lemma FirstOfferShifts(s: seq<PayrollEntry>, ano: string)
    requires s != [] && MonthOffered(s[0], ano).None?
    ensures forall k :: OffersFirst(s[1..], ano, k) ==> OffersFirst(s, ano, k + 1) && s[k + 1] == s[1..][k]
  {
    forall k | OffersFirst(s[1..], ano, k) ensures OffersFirst(s, ano, k + 1) && s[k + 1] == s[1..][k] {
      forall j | 0 <= j < k + 1 ensures MonthOffered(s[j], ano).None? {
        if j > 0 {
          assert s[j] == s[1..][j - 1];
        }
      }
    }
  }

  /** The scan of the page's entries that stops at the first one offering a month. */
  method FindMonthOnPage(entriesMesmaPagina: seq<PayrollEntry>, ano: string) returns (mes: Option<string>)
    ensures mes == FirstMonthOffered(entriesMesmaPagina, ano)
  {
    for i := 0 to |entriesMesmaPagina|
      invariant FirstMonthOffered(entriesMesmaPagina, ano) == FirstMonthOffered(entriesMesmaPagina[i..], ano)
    {
      assert entriesMesmaPagina[i..][1..] == entriesMesmaPagina[i + 1..];
      var offered := MonthOffered(entriesMesmaPagina[i], ano);
      if offered.Some? {
        return offered;
      }
    }
    return None;
  }

  /** A `mesPagamento` in the form `\d{4}-\d{2}`. */
  predicate HasPaymentMonth(e: PayrollEntry) {
    e.mesPagamento.Some? && ReferenceNormalizer.IsIso(e.mesPagamento.value)
  }

  /**
   * The adjusted reference of an entry with a normalized reference: its payment month when it has
   * one; for "YYYY-13", the month another entry of the same page offers for that year, else
   * November; any other reference stays as it is.
   */
  function AdjustedRef(e: PayrollEntry, normalizedRef: string, entries: seq<PayrollEntry>): string
    requires ReferenceNormalizer.IsIso(normalizedRef)
  {
    if HasPaymentMonth(e) then e.mesPagamento.value
    else if IsThirteenth(normalizedRef) then
      ReferenceNormalizer.SplitIso(normalizedRef);
      var ano := Split(normalizedRef, '-')[0];
      ano + "-" + ThirteenthMonth(e, ano, entries)
    else normalizedRef
  }

  /**
   * The month a "YYYY-13" entry takes: the first month an entry of its own page offers for the
   * year, or November when it has no page or none is offered.
   */
  function ThirteenthMonth(e: PayrollEntry, ano: string, entries: seq<PayrollEntry>): (mes: string)
    ensures |mes| == 2 && AllDigits(mes) && mes != "13"
  {
    var found := if e.pagina.Some? && e.documentoId.Some? then FirstMonthOffered(SamePage(entries, e.documentoId.value, e.pagina.value), ano) else None;
    if found.Some? then found.value else "11"
  }

  /** One pass of the adjustment loop, for one entry. */
  method AdjustReference(e: PayrollEntry, normalizedRef: string, entries: seq<PayrollEntry>) returns (adjustedRef: string)
    requires ReferenceNormalizer.IsIso(normalizedRef)
    ensures adjustedRef == AdjustedRef(e, normalizedRef, entries)
  {
    if HasPaymentMonth(e) {
      return e.mesPagamento.value;
    }
    if IsThirteenth(normalizedRef) {
      ReferenceNormalizer.SplitIso(normalizedRef);
      var ano := Split(normalizedRef, '-')[0];
      var found: Option<string> := None;
      if e.pagina.Some? && e.documentoId.Some? {
        var entriesMesmaPagina := SamePage(entries, e.documentoId.value, e.pagina.value);
        found := FindMonthOnPage(entriesMesmaPagina, ano);
      }
      if found.None? {
        return ano + "-11";
      }
      return ano + "-" + found.value;
    }
    return normalizedRef;
  }

  /** The adjustment loop over the normalized references, in the map's (unspecified) order. */
  method AdjustReferences(entries: seq<PayrollEntry>, entryToNormalizedRef: map<PayrollEntry, string>)
    returns (entryToAdjustedRef: map<PayrollEntry, string>)
    requires forall e | e in entryToNormalizedRef :: ReferenceNormalizer.IsIso(entryToNormalizedRef[e])
    ensures entryToAdjustedRef.Keys == entryToNormalizedRef.Keys
    ensures forall e | e in entryToAdjustedRef :: entryToAdjustedRef[e] == AdjustedRef(e, entryToNormalizedRef[e], entries)
  {
    entryToAdjustedRef := map[];
    var pending := entryToNormalizedRef.Keys;
    while pending != {}
      invariant pending <= entryToNormalizedRef.Keys
      invariant entryToAdjustedRef.Keys == entryToNormalizedRef.Keys - pending
      invariant forall e | e in entryToAdjustedRef :: entryToAdjustedRef[e] == AdjustedRef(e, entryToNormalizedRef[e], entries)
      decreases pending
    {
      var payrollEntry :| payrollEntry in pending;
      var adjustedRef := AdjustReference(payrollEntry, entryToNormalizedRef[payrollEntry], entries);
      entryToAdjustedRef := entryToAdjustedRef[payrollEntry := adjustedRef];
      pending := pending - {payrollEntry};
    }
  }

  /** A valid payment month always wins, whatever the reference says. */
  lemma PaymentMonthWins(e: PayrollEntry, normalizedRef: string, entries: seq<PayrollEntry>)
    requires ReferenceNormalizer.IsIso(normalizedRef) && HasPaymentMonth(e)
    ensures AdjustedRef(e, normalizedRef, entries) == e.mesPagamento.value
  {
  }

  /**
   * A "YYYY-13" reference without a payment month moves to a real month of the same year: the
   * adjusted reference is "YYYY-MM" with MM not "13".
   */
  lemma ThirteenthBecomesMonthOfSameYear(e: PayrollEntry, normalizedRef: string, entries: seq<PayrollEntry>)
    requires ReferenceNormalizer.IsIso(normalizedRef) && IsThirteenth(normalizedRef) && !HasPaymentMonth(e)
    ensures var r := AdjustedRef(e, normalizedRef, entries);
            ReferenceNormalizer.IsIso(r) && r[..4] == normalizedRef[..4] && r[5..] != "13"
  {
    ReferenceNormalizer.SplitIso(normalizedRef);
    var ano := normalizedRef[..4];
    ReferenceNormalizer.JoinIso(ano, ThirteenthMonth(e, ano, entries));
  }

  /** A "YYYY-13" reference falls back to November when no entry of its page offers a month. */
  lemma ThirteenthWithoutPageMonthIsNovember(e: PayrollEntry, normalizedRef: string, entries: seq<PayrollEntry>)
    requires ReferenceNormalizer.IsIso(normalizedRef) && IsThirteenth(normalizedRef) && !HasPaymentMonth(e)
    requires e.pagina.None? || e.documentoId.None? ||
             forall o | o in entries && o.documentoId == e.documentoId && o.pagina == e.pagina && o.referencia.Some? ::
               MonthOffered(o, normalizedRef[..4]).None?
    ensures AdjustedRef(e, normalizedRef, entries) == normalizedRef[..4] + "-11"
  {
    ReferenceNormalizer.SplitIso(normalizedRef);
  }

  /** When a same-page entry offers a month, the first such one decides the adjusted reference. */
  lemma ThirteenthTakesFirstPageMonth(e: PayrollEntry, normalizedRef: string, entries: seq<PayrollEntry>)
    requires ReferenceNormalizer.IsIso(normalizedRef) && IsThirteenth(normalizedRef) && !HasPaymentMonth(e)
    requires e.pagina.Some? && e.documentoId.Some?
    requires FirstMonthOffered(SamePage(entries, e.documentoId.value, e.pagina.value), normalizedRef[..4]).Some?
    ensures exists o :: o in entries && o.documentoId == e.documentoId && o.pagina == e.pagina &&
                        MonthOffered(o, normalizedRef[..4]).Some? &&
                        AdjustedRef(e, normalizedRef, entries) == normalizedRef[..4] + "-" + MonthOffered(o, normalizedRef[..4]).value
    ensures var page := SamePage(entries, e.documentoId.value, e.pagina.value);
            exists k :: OffersFirst(page, normalizedRef[..4], k) &&
                        AdjustedRef(e, normalizedRef, entries) == normalizedRef[..4] + "-" + MonthOffered(page[k], normalizedRef[..4]).value
  {
    ReferenceNormalizer.SplitIso(normalizedRef);
  }

  /** Any other reference without a payment month is kept as it is. */
  lemma OtherReferencesUnchanged(e: PayrollEntry, normalizedRef: string, entries: seq<PayrollEntry>)
    requires ReferenceNormalizer.IsIso(normalizedRef) && !IsThirteenth(normalizedRef) && !HasPaymentMonth(e)
    ensures AdjustedRef(e, normalizedRef, entries) == normalizedRef
  {
  }

  /** One consolidated row: the pay-item code and the description of its first entry. */
  datatype Row = Row(codigo: string, descricao: Option<string>)

  /** `a.compareTo(b) <= 0` for Java strings: lexicographic by character, a prefix first. */
  predicate StrLe(a: string, b: string)
    decreases |a|
  {
    a == [] || (b != [] && (a[0] < b[0] || (a[0] == b[0] && StrLe(a[1..], b[1..]))))
  }

  /** Any two strings are ordered one way or the other. */
  lemma {:induction false} StrLeTotal(a: string, b: string)
    ensures StrLe(a, b) || StrLe(b, a)
    decreases |a|
  {
    if a != [] && b != [] && a[0] == b[0] {
      StrLeTotal(a[1..], b[1..]);
    }
  }

  predicate SortedByCodigo(rows: seq<Row>) {
    forall i :: 0 <= i < |rows| - 1 ==> StrLe(rows[i].codigo, rows[i + 1].codigo)
  }

  /** Puts `row` before the first row whose code is not below its own. */
  function Insert(row: Row, rows: seq<Row>): (r: seq<Row>)
    requires SortedByCodigo(rows)
    ensures SortedByCodigo(r)
    ensures multiset(r) == multiset(rows) + multiset{row}
    ensures r != [] && (r[0] == row || (rows != [] && r[0] == rows[0]))
  {
    if rows == [] then [row]
    else if StrLe(row.codigo, rows[0].codigo) then [row] + rows
    else
      StrLeTotal(row.codigo, rows[0].codigo);
      var tail := Insert(row, rows[1..]);
      assert rows == [rows[0]] + rows[1..];
      [rows[0]] + tail
  }

  /**
   * `rubricas.sort(Comparator.comparing(ConsolidationRow::getCodigo))`: a stable sort by code;
   * the result is ordered and holds exactly the same rows.
   */
  function SortByCodigo(rows: seq<Row>): (r: seq<Row>)
    ensures SortedByCodigo(r)
    ensures multiset(r) == multiset(rows)
  {
    if rows == [] then []
    else
      assert rows == [rows[0]] + rows[1..];
      Insert(rows[0], SortByCodigo(rows[1..]))
  }

  /** The description of the first entry with this code (groupingBy keeps list order). */
  function FirstDescription(entries: seq<PayrollEntry>, codigo: string): Option<string> {
    if entries == [] then None
    else if entries[0].rubricaCodigo == codigo then entries[0].rubricaDescricao
    else FirstDescription(entries[1..], codigo)
  }

  /** No two rows share a code. */
  predicate CodesDistinct(rows: seq<Row>) {
    forall i, j | 0 <= i < |rows| && 0 <= j < |rows| && i != j :: rows[i].codigo != rows[j].codigo
  }

  /** The codes of the rows. */
  function Codes(rows: seq<Row>): (r: set<string>)
    ensures forall row | row in rows :: row.codigo in r
    ensures forall c | c in r :: exists row :: row in rows && row.codigo == c
  {
    if rows == [] then {}
    else
      var earlier := rows[..|rows| - 1];
      assert rows == earlier + [rows[|rows| - 1]];
      Codes(earlier) + {rows[|rows| - 1].codigo}
  }

  /** The codes of the entries: the keys of groupingBy. */
  function CodesOf(entries: seq<PayrollEntry>): set<string> {
    set e | e in entries :: e.rubricaCodigo
  }

  lemma CodesAppend(rows: seq<Row>, row: Row)
    ensures Codes(rows + [row]) == Codes(rows) + {row.codigo}
    ensures forall r :: r in rows + [row] <==> r in rows || r == row
  {
    assert (rows + [row])[..|rows|] == rows;
  }



  /**
   * The rows of buildConsolidatedResponse: the entries that received an adjusted reference
   * (`kept`, see ApplyKept) are grouped by code, each group gives one row with its first entry's description, and the rows
   * are sorted by code; no code repeats.
   */
  method BuildRows(kept: seq<PayrollEntry>) returns (rubricas: seq<Row>)
    ensures SortedByCodigo(rubricas)
    ensures Codes(rubricas) == CodesOf(kept)
    ensures CodesDistinct(rubricas)
    ensures forall r | r in rubricas :: r.descricao == FirstDescription(kept, r.codigo)
  {
    var rows := GroupByCodigo(kept);
    rubricas := SortByCodigo(rows);
    SortKeepsRows(rows, rubricas);
  }

  /** One row per code of `kept`, in the grouping map's (unspecified) order. */
  method GroupByCodigo(kept: seq<PayrollEntry>) returns (rows: seq<Row>)
    ensures Codes(rows) == CodesOf(kept)
    ensures CodesDistinct(rows)
    ensures forall r | r in rows :: r.descricao == FirstDescription(kept, r.codigo)
  {
    var codigos := CodesOf(kept);
    rows := [];
    var pending := codigos;
    while pending != {}
      invariant pending <= codigos
      invariant Codes(rows) == codigos - pending
      invariant CodesDistinct(rows)
      invariant forall r | r in rows :: r.descricao == FirstDescription(kept, r.codigo)
      decreases pending
    {
      var codigo :| codigo in pending;
      var row := Row(codigo, FirstDescription(kept, codigo));
      CodesAppend(rows, row);
      rows := rows + [row];
      pending := pending - {codigo};
    }
  }


  /** The entries that received an adjusted reference, in list order (`filter(containsKey)`). */
  function ApplyKept(entries: seq<PayrollEntry>, entryToAdjustedRef: map<PayrollEntry, string>): (r: seq<PayrollEntry>)
    ensures forall e :: e in r <==> e in entries && e in entryToAdjustedRef
  {
    if entries == [] then []
    else
      var rest := ApplyKept(entries[1..], entryToAdjustedRef);
      if entries[0] in entryToAdjustedRef then [entries[0]] + rest else rest
  }

  /** The entries whose reference normalizes, in list order. */
  function WithReference(entries: seq<PayrollEntry>): (r: seq<PayrollEntry>)
    ensures forall e :: e in r <==> e in entries && NormalizedRef(e).Some?
  {
    if entries == [] then []
    else
      var rest := WithReference(entries[1..]);
      if NormalizedRef(entries[0]).Some? then [entries[0]] + rest else rest
  }

  /** Keeping the entries that received an adjusted reference keeps those whose reference normalizes. */
  lemma {:induction false} ApplyKeptIsWithReference(entries: seq<PayrollEntry>, entryToAdjustedRef: map<PayrollEntry, string>)
    requires forall e | e in entries :: e in entryToAdjustedRef <==> NormalizedRef(e).Some?
    ensures ApplyKept(entries, entryToAdjustedRef) == WithReference(entries)
  {
    if entries != [] {
      ApplyKeptIsWithReference(entries[1..], entryToAdjustedRef);
    }
  }

  /** Sorting keeps the rows: the same elements, the same codes, still no code twice. */
  lemma SortKeepsRows(rows: seq<Row>, sorted: seq<Row>)
    requires multiset(sorted) == multiset(rows) && CodesDistinct(rows)
    ensures forall x :: x in sorted <==> x in rows
    ensures Codes(sorted) == Codes(rows)
    ensures CodesDistinct(sorted)
  {
    forall x ensures x in sorted <==> x in rows {
      assert x in sorted <==> x in multiset(sorted);
    }
    forall i, j | 0 <= i < |sorted| && 0 <= j < |sorted| && i != j
      ensures sorted[i].codigo != sorted[j].codigo
    {
      CountAtTwoPositions(sorted, i, j);
      DistinctCodesCountOnce(rows, sorted[i]);
      assert sorted[i] != sorted[j];
      assert sorted[i] in rows && sorted[j] in rows;
      var k :| 0 <= k < |rows| && rows[k] == sorted[i];
      var m :| 0 <= m < |rows| && rows[m] == sorted[j];
      assert k != m;
    }
  }

  /** An element occurs at least once, twice if it also sits at another position. */
  lemma CountAtTwoPositions(s: seq<Row>, i: nat, j: nat)
    requires i < |s| && j < |s| && i != j
    ensures multiset(s)[s[i]] >= 1 + (if s[j] == s[i] then 1 else 0)
  {
    var lo, hi := if i < j then i else j, if i < j then j else i;
    assert s == s[..lo] + [s[lo]] + s[lo + 1..hi] + [s[hi]] + s[hi + 1..];
  }

  /** Rows whose codes are distinct are themselves distinct. */
  lemma {:induction false} DistinctCodesCountOnce(rows: seq<Row>, x: Row)
    requires CodesDistinct(rows)
    ensures multiset(rows)[x] <= 1
  {
    if rows != [] {
      var earlier, last := rows[..|rows| - 1], rows[|rows| - 1];
      assert rows == earlier + [last];
      assert CodesDistinct(earlier) by {
        forall i, j | 0 <= i < |earlier| && 0 <= j < |earlier| && i != j
          ensures earlier[i].codigo != earlier[j].codigo
        {
          assert earlier[i] == rows[i] && earlier[j] == rows[j];
        }
      }
      DistinctCodesCountOnce(earlier, x);
      forall p | 0 <= p < |earlier| ensures earlier[p] != last {
        assert earlier[p] == rows[p] && rows[p].codigo != rows[|rows| - 1].codigo;
      }
      assert last !in earlier;
    }
  }


  /**
   * consolidate, after the entries of the person's active pay items are fetched: the request is
   * checked, the entries filtered (none left is an error) and the response built with its years
   * and its rows sorted by code.
   */
  method Consolidate(entries: seq<PayrollEntry>, ano: Option<string>, origem: Option<string>)
    returns (r: Result<(set<string>, seq<Row>), RequestError>)
    ensures ValidateRequest(ano, origem).Some? ==> r == Err(ValidateRequest(ano, origem).value)
    ensures ValidateRequest(ano, origem).None? ==> (r.Err? <==> ApplyFilters(entries, ano, origem) == [])
    ensures r.Err? ==> r.error == ValidateRequest(ano, origem).GetOr(NoEntriesFound)
    ensures r.Ok? && Given(ano) ==> r.value.0 == {ano.value}
    ensures r.Ok? && !Given(ano) ==> r.value.0 == YearsOf(ApplyFilters(entries, ano, origem))
    ensures r.Ok? ==> SortedByCodigo(r.value.1)
    ensures r.Ok? ==> forall row | row in r.value.1 ::
              exists e :: e in entries && PassesFilters(e, ano, origem) && NormalizedRef(e).Some? && e.rubricaCodigo == row.codigo
    ensures r.Ok? ==> forall e | e in entries && PassesFilters(e, ano, origem) && NormalizedRef(e).Some? ::
              e.rubricaCodigo in Codes(r.value.1)
    ensures r.Ok? ==> CodesDistinct(r.value.1)
    ensures r.Ok? ==> forall row | row in r.value.1 ::
              row.descricao == FirstDescription(WithReference(ApplyFilters(entries, ano, origem)), row.codigo)
  {
    var error := ValidateRequest(ano, origem);
    if error.Some? {
      return Err(error.value);
    }
    var filtered := ApplyFilters(entries, ano, origem);
    if filtered == [] {
      return Err(NoEntriesFound);
    }
    var entryToNormalizedRef, allYears := NormalizeReferences(filtered, ano);
    var entryToAdjustedRef := AdjustReferences(filtered, entryToNormalizedRef);
    var kept := ApplyKept(filtered, entryToAdjustedRef);
    ApplyKeptIsWithReference(filtered, entryToAdjustedRef);
    var rubricas := BuildRows(kept);
    forall e | e in entries && PassesFilters(e, ano, origem) && NormalizedRef(e).Some?
      ensures e.rubricaCodigo in Codes(rubricas)
    {
      assert e in kept;
      assert e.rubricaCodigo in CodesOf(kept);
    }
    forall row | row in rubricas
      ensures exists e :: e in entries && PassesFilters(e, ano, origem) && NormalizedRef(e).Some? && e.rubricaCodigo == row.codigo
    {
      assert row.codigo in Codes(rubricas);
      var e :| e in kept && e.rubricaCodigo == row.codigo;
      assert e in filtered;
    }
    return Ok((allYears, rubricas));
  }
}
