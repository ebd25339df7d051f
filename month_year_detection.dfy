/**
 * MonthYearDetectionServiceImpl: finds the payment month of a payslip page, either as a
 * Portuguese month name and year (CAIXA layout) or as year and month number (FUNCEF layout).
 * The two regular-expression searches are represented by their first match, given as input.
 */
module MonthYearDetection {
  import opened Wrappers
  import opened JavaText
  import ReferenceNormalizer

  /** MONTH_MAP: the twelve month names, MARÇO also spelt without the cedilla. */
  const MonthMap: map<string, string> := map[
    "JANEIRO" := "01", "FEVEREIRO" := "02", "MAR\U{00C7}O" := "03", "MARCO" := "03",
    "ABRIL" := "04", "MAIO" := "05", "JUNHO" := "06", "JULHO" := "07", "AGOSTO" := "08",
    "SETEMBRO" := "09", "OUTUBRO" := "10", "NOVEMBRO" := "11", "DEZEMBRO" := "12"]

  /** A two-digit month number from 01 to 12. */
  predicate IsMonthNumber(m: string) {
    |m| == 2 && AllDigits(m) && 1 <= NatValue(m) <= 12
  }

  /** The month numbers the map hands out: "01" to "12". */
  const MonthNumbers: set<string> := {"01", "02", "03", "04", "05", "06", "07", "08", "09", "10", "11", "12"}

  /** The names map onto exactly the twelve month numbers, both spellings of March giving "03". */
  lemma MonthMapValues()
    ensures MonthMap.Values == MonthNumbers
    ensures MonthMap["MAR\U{00C7}O"] == MonthMap["MARCO"] == "03"
  {
    MonthMapValuesAreNumbers();
    MonthNumbersAreValues();
  }

  lemma MonthMapValuesAreNumbers()
    ensures MonthMap.Values <= MonthNumbers
  {
    forall v | v in MonthMap.Values ensures v in MonthNumbers {
      var k :| k in MonthMap && MonthMap[k] == v;
    }
  }

  lemma MonthNumbersAreValues()
    ensures MonthNumbers <= MonthMap.Values
  {
    assert MonthMap["JANEIRO"] == "01" && MonthMap["FEVEREIRO"] == "02" && MonthMap["MARCO"] == "03";
    assert MonthMap["ABRIL"] == "04" && MonthMap["MAIO"] == "05" && MonthMap["JUNHO"] == "06";
    assert MonthMap["JULHO"] == "07" && MonthMap["AGOSTO"] == "08" && MonthMap["SETEMBRO"] == "09";
    assert MonthMap["OUTUBRO"] == "10" && MonthMap["NOVEMBRO"] == "11" && MonthMap["DEZEMBRO"] == "12";
  }

  /** Each month number is two digits with a value from 1 to 12. */
  lemma MonthNumbersAreMonths()
    ensures forall m | m in MonthNumbers :: IsMonthNumber(m)
  {
    forall m | m in MonthNumbers ensures IsMonthNumber(m) {
      assert m[..1][..0] == [];
    }
  }

  /** Padding any month from 1 to 12 gives one of the month numbers. */
  lemma PaddedMonthsAreNumbers(n: nat)
    requires 1 <= n <= 12
    ensures Pad2(n) in MonthNumbers
  {
  }

  /** The accent replacements of normalizeMonthName, one character at a time. */
  function StripAccent(c: char): char {
    if c == '\U{00C7}' then 'C'                                        // Ç
    else if c == '\U{00C1}' || c == '\U{00C3}' then 'A'               // Á Ã
    else if c == '\U{00C9}' || c == '\U{00CA}' then 'E'               // É Ê
    else if c == '\U{00CD}' then 'I'                                   // Í
    else if c == '\U{00D3}' || c == '\U{00D4}' then 'O'               // Ó Ô
    else if c == '\U{00DA}' then 'U'                                   // Ú
    else c
  }

  /** Every character of `s` with its accent stripped. */
  function StripAccents(s: string): (r: string)
    ensures |r| == |s|
    ensures forall i :: 0 <= i < |s| ==> r[i] == StripAccent(s[i]) && !IsReplacedAccent(r[i])
  {
    seq(|s|, i requires 0 <= i < |s| => StripAccent(s[i]))
  }

  /** The nine accented capitals that normalizeMonthName replaces. */
  predicate IsReplacedAccent(c: char) {
    c == '\U{00C7}' || c == '\U{00C1}' || c == '\U{00C9}' || c == '\U{00CD}' || c == '\U{00D3}' ||
    c == '\U{00DA}' || c == '\U{00C3}' || c == '\U{00CA}' || c == '\U{00D4}'
  }

  /** `s.replace(from, to)` for single characters. */
  function ReplaceChar(s: string, from: char, to: char): (r: string)
    ensures |r| == |s|
    ensures forall i :: 0 <= i < |s| ==> r[i] == if s[i] == from then to else s[i]
  {
    seq(|s|, i requires 0 <= i < |s| => if s[i] == from then to else s[i])
  }

  /** What normalizeMonthName returns: the upper-cased, trimmed name if the map knows it, else that name with its accents stripped. */
  function NormalizedMonthName(monthName: string): (r: string)
    ensures |r| == |Trim(ToUpper(monthName))|
    ensures Trim(ToUpper(monthName)) in MonthMap ==> r == Trim(ToUpper(monthName))
    ensures Trim(ToUpper(monthName)) !in MonthMap ==> forall i :: 0 <= i < |r| ==> !IsReplacedAccent(r[i])
    ensures Trim(ToUpper(monthName)) !in MonthMap ==>
              forall i :: 0 <= i < |r| ==> (r[i] == Trim(ToUpper(monthName))[i] <==> !IsReplacedAccent(Trim(ToUpper(monthName))[i]))
    ensures Trim(ToUpper(monthName)) !in MonthMap ==>
              forall i :: 0 <= i < |r| ==> r[i] == StripAccent(Trim(ToUpper(monthName))[i])
  {
    var upper := Trim(ToUpper(monthName));
    if upper in MonthMap then upper
    else StripAccents(upper)
  }

  /** normalizeMonthName: upper-case and trim, return early when known, then the replacements. */
  method NormalizeMonthName(monthName: string) returns (name: string)
    ensures name == NormalizedMonthName(monthName)
  {
    name := Trim(ToUpper(monthName));
    if name in MonthMap {
      return;
    }
    name := ReplaceAccents(name);
  }

  /** The nine `replace` calls of normalizeMonthName, in their order. */
  method ReplaceAccents(monthName: string) returns (name: string)
    ensures name == StripAccents(monthName)
  {
    name := ReplaceChar(monthName, '\U{00C7}', 'C');
    name := ReplaceChar(name, '\U{00C1}', 'A');
    name := ReplaceChar(name, '\U{00C9}', 'E');
    name := ReplaceChar(name, '\U{00CD}', 'I');
    name := ReplaceChar(name, '\U{00D3}', 'O');
    name := ReplaceChar(name, '\U{00DA}', 'U');
    name := ReplaceChar(name, '\U{00C3}', 'A');
    name := ReplaceChar(name, '\U{00CA}', 'E');
    name := ReplaceChar(name, '\U{00D4}', 'O');
  }

  /** "março" in lower case is upper-cased to the map's "MARÇO", which is kept as it is. */
  lemma MarchWithCedilla()
    ensures NormalizedMonthName("mar\U{00E7}o") == "MAR\U{00C7}O"
  {
    var upper := "MAR\U{00C7}O";
    UpperCaseWord("mar\U{00E7}o", upper);
    TrimOfTrimmed(upper);
    assert Trim(ToUpper("mar\U{00E7}o")) == upper;
    assert upper in MonthMap;
  }

  /** "marco" in lower case is upper-cased to the map's "MARCO". */
  lemma MarchWithoutCedilla()
    ensures NormalizedMonthName("marco") == "MARCO"
  {
    var upper := "MARCO";
    UpperCaseWord("marco", upper);
    TrimOfTrimmed(upper);
    assert Trim(ToUpper("marco")) == upper;
    assert upper in MonthMap;
  }

  /**
   * A name the map does not know can become one it knows: "abríl" is upper-cased to "ABRÍL",
   * which is not a key, and the accent replacement turns it into the key "ABRIL".
   */
  lemma AccentedNameFindsMonth()
    ensures NormalizedMonthName("abr\U{00ED}l") == "ABRIL"
    ensures "ABRIL" in MonthMap
  {
    UpperAbril();
    StripAbril();
  }

  /** "abríl" upper-cased and trimmed is "ABRÍL". */
  lemma UpperAbril()
    ensures Trim(ToUpper("abr\U{00ED}l")) == "ABR\U{00CD}L"
  {
    var upper := "ABR\U{00CD}L";
    UpperCaseWord("abr\U{00ED}l", upper);
    TrimOfTrimmed(upper);
  }

  /** "ABRÍL" is no key of the month map, and losing its accent makes it "ABRIL". */
  lemma StripAbril()
    ensures "ABR\U{00CD}L" !in MonthMap
    ensures StripAccents("ABR\U{00CD}L") == "ABRIL"
  {
  }

  /** Upper-casing a five-letter word character by character. */
  lemma UpperCaseWord(lower: string, upper: string)
    requires |lower| == 5 && |upper| == 5
    requires forall i :: 0 <= i < 5 ==> UpperChar(lower[i]) == [upper[i]]
    ensures ToUpper(lower) == upper
  {
    assert ToUpper(lower[4..]) == upper[4..];
    assert ToUpper(lower[3..]) == upper[3..];
    assert ToUpper(lower[2..]) == upper[2..];
    assert ToUpper(lower[1..]) == upper[1..];
  }

  /** First match of the CAIXA pattern: group 1 (the month name) and group 2 (the year). */
  datatype CaixaMatch = CaixaMatch(monthName: string, year: string)

  /** First match of the FUNCEF pattern: group 1 (the year) and group 2 (the month number). */
  datatype FuncefMatch = FuncefMatch(year: string, month: string)

  /** What the CAIXA pattern guarantees about its groups: a four-digit year. */
  predicate CaixaShape(m: CaixaMatch) {
    |m.year| == 4 && AllDigits(m.year)
  }

  /** What the FUNCEF pattern guarantees: a four-digit year and a one- or two-digit month. */
  predicate FuncefShape(m: FuncefMatch) {
    |m.year| == 4 && AllDigits(m.year) && 1 <= |m.month| <= 2 && AllDigits(m.month)
  }

  /** The month number of a CAIXA match, when its normalized name is in the map. */
  function CaixaMonth(m: CaixaMatch): (r: Option<string>)
    ensures r.Some? ==> IsMonthNumber(r.value)
  {
    var name := NormalizedMonthName(Trim(ToUpper(m.monthName)));
    if name in MonthMap then
      MonthMapValues();
      MonthNumbersAreMonths();
      assert MonthMap[name] in MonthMap.Values;
      Some(MonthMap[name])
    else None
  }

  /** A "YYYY-MM" text whose month is 01 to 12. */
  predicate IsMonthYear(s: string) {
    ReferenceNormalizer.IsIso(s) && 1 <= NatValue(s[5..]) <= 12
  }

  /**
   * detectMonthYear: empty for null or blank text; else the CAIXA match when its month name is
   * known; else the FUNCEF match when its month is 1 to 12, zero-padded; else empty.
   */
  function DetectMonthYear(pageText: Option<string>, caixa: Option<CaixaMatch>, funcef: Option<FuncefMatch>): (r: Option<string>)
    requires caixa.Some? ==> CaixaShape(caixa.value)
    requires funcef.Some? ==> FuncefShape(funcef.value)
    ensures pageText.None? || IsTrimBlank(pageText.value) ==> r.None?
    ensures r.Some? ==> IsMonthYear(r.value)
    ensures pageText.Some? && !IsTrimBlank(pageText.value) && caixa.Some? && CaixaMonth(caixa.value).Some? ==>
              r == Some(caixa.value.year + "-" + CaixaMonth(caixa.value).value)
    ensures pageText.Some? && !IsTrimBlank(pageText.value) && (caixa.None? || CaixaMonth(caixa.value).None?) ==>
              (r.Some? <==> funcef.Some? && 1 <= NatValue(funcef.value.month) <= 12) &&
              (r.Some? ==> r.value[..4] == funcef.value.year && NatValue(r.value[5..]) == NatValue(funcef.value.month))
  {
    if pageText.None? || IsTrimBlank(pageText.value) then None
    else if caixa.Some? && CaixaMonth(caixa.value).Some? then
      var monthNumber := CaixaMonth(caixa.value).value;
      Some(Join(caixa.value.year, monthNumber))
    else if funcef.Some? && 1 <= NatValue(funcef.value.month) <= 12 then
      var month := NatValue(funcef.value.month);
      Pad2Value(month);
      Some(Join(funcef.value.year, Pad2(month)))
    else None
  }

  /** `year + "-" + month` for a four-digit year and a two-digit month. */
  function Join(year: string, month: string): (r: string)
    requires |year| == 4 && AllDigits(year) && |month| == 2 && AllDigits(month)
    ensures ReferenceNormalizer.IsIso(r) && r[..4] == year && r[5..] == month
  {
    var r := year + "-" + month;
    assert r[..4] == year && r[5..] == month;
    r
  }
}
