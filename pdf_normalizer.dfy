/**
 * PdfNormalizer: cleaning of the reference and description texts extracted from a PDF page.
 */
module PdfNormalizer {
  import opened Wrappers
  import opened JavaText
  import ReferenceNormalizer

  /** `(\d{1,2})/(\d{4})` matched against the whole text: a one- or two-digit month, a slash, a year. */
  predicate IsMonthSlashYear(s: string) {
    (|s| == 6 || |s| == 7) && AllDigits(s[..|s| - 5]) && s[|s| - 5] == '/' && AllDigits(s[|s| - 4..])
  }

  /** `(\d{4})/(\d{1,2})` matched against the whole text. */
  predicate IsYearSlashMonth(s: string) {
    (|s| == 6 || |s| == 7) && AllDigits(s[..4]) && s[4] == '/' && AllDigits(s[5..])
  }

  /** A one-digit month gets a leading zero. */
  function PadMonth(mes: string): (r: string)
    requires (|mes| == 1 || |mes| == 2) && AllDigits(mes)
    ensures |r| == 2 && AllDigits(r) && r[2 - |mes|..] == mes
    ensures |mes| == 1 ==> r[0] == '0'
  {
    if |mes| == 1 then "0" + mes else mes
  }

  /** `String.format("%s-%s", ano, mes)` after padding the month. */
  function Join(ano: string, mes: string): (r: string)
    requires |ano| == 4 && AllDigits(ano)
    requires (|mes| == 1 || |mes| == 2) && AllDigits(mes)
    ensures ReferenceNormalizer.IsIso(r) && r[..4] == ano && r[5..] == PadMonth(mes)
  {
    var r := ano + "-" + PadMonth(mes);
    assert r[..4] == ano && r[5..] == PadMonth(mes);
    r
  }

  /**
   * normalizeReference: null or blank gives null; "YYYY-MM" is kept; "M/YYYY", "MM/YYYY",
   * "YYYY/M" and "YYYY/MM" become "YYYY-MM" with the month padded to two digits; anything else
   * gives null. The month is not range-checked ("2017-13" is kept).
   */
  function NormalizeReference(reference: Option<string>): (r: Option<string>)
    ensures r.Some? ==> ReferenceNormalizer.IsIso(r.value)
    ensures r.None? <==> (reference.None? ||
                          var t := Trim(reference.value);
                          !ReferenceNormalizer.IsIso(t) && !IsMonthSlashYear(t) && !IsYearSlashMonth(t))
  {
    if reference.None? || Trim(reference.value) == [] then None
    else
      var cleaned := Trim(reference.value);
      if ReferenceNormalizer.IsIso(cleaned) then Some(cleaned)
      else if IsMonthSlashYear(cleaned) then Some(Join(cleaned[|cleaned| - 4..], cleaned[..|cleaned| - 5]))
      else if IsYearSlashMonth(cleaned) then Some(Join(cleaned[..4], cleaned[5..]))
      else None
  }

  /**
   * This normalizer accepts every reference ReferenceNormalizer.normalize accepts and gives the
   * same "YYYY-MM" text for it.
   */
  lemma AgreesWithReferenceNormalizer(reference: Option<string>)
    requires ReferenceNormalizer.Normalize(reference).Some?
    ensures NormalizeReference(reference) == ReferenceNormalizer.Normalize(reference)
  {
    var t := Trim(reference.value);
    if !ReferenceNormalizer.IsIso(t) && ReferenceNormalizer.IsMonthSlashYear(t) {
      assert IsMonthSlashYear(t);
    }
  }

  /** A one-digit month before the year is padded: "M/YYYY" becomes "YYYY-0M". */
  lemma PadsOneDigitMonth(d: char, ano: string)
    requires IsDigit(d) && |ano| == 4 && AllDigits(ano)
    ensures NormalizeReference(Some([d] + "/" + ano)) == Some(ano + "-0" + [d])
  {
    var s := [d] + "/" + ano;
    OneDigitMonthShape(d, ano);
    MonthSlashYearIsJoined(s);
    assert Join(ano, [d]) == ano + "-0" + [d];
  }

  /** A one-digit month after the year is padded: "YYYY/M" becomes "YYYY-0M". */
  lemma PadsYearSlashOneDigitMonth(ano: string, d: char)
    requires IsDigit(d) && |ano| == 4 && AllDigits(ano)
    ensures NormalizeReference(Some(ano + "/" + [d])) == Some(ano + "-0" + [d])
  {
    var s := ano + "/" + [d];
    YearSlashOneDigitMonthShape(ano, d);
    YearSlashMonthIsJoined(s);
    assert Join(ano, [d]) == ano + "-0" + [d];
  }

  lemma YearSlashOneDigitMonthShape(ano: string, d: char)
    requires IsDigit(d) && |ano| == 4 && AllDigits(ano)
    ensures var s := ano + "/" + [d];
            Trim(s) == s && |s| == 6 && !IsMonthSlashYear(s) && IsYearSlashMonth(s) && s[..4] == ano && s[5..] == [d]
  {
    var s := ano + "/" + [d];
    assert |s| == 6 && s[0] == ano[0] && s[1] == ano[1] && s[5] == d;
    assert s[..4] == ano && s[4] == '/' && s[5..] == [d];
    TrimOfTrimmed(s);
  }

  lemma YearSlashMonthIsJoined(s: string)
    requires Trim(s) == s && |s| == 6 && !IsMonthSlashYear(s) && IsYearSlashMonth(s)
    ensures NormalizeReference(Some(s)) == Some(Join(s[..4], s[5..]))
  {
  }

  lemma OneDigitMonthShape(d: char, ano: string)
    requires IsDigit(d) && |ano| == 4 && AllDigits(ano)
    ensures var s := [d] + "/" + ano;
            Trim(s) == s && |s| == 6 && IsMonthSlashYear(s) && s[2..] == ano && s[..1] == [d]
  {
    var s := [d] + "/" + ano;
    assert |s| == 6 && s[0] == d && s[5] == ano[3];
    assert s[..1] == [d] && s[1] == '/' && s[2..] == ano;
    TrimOfTrimmed(s);
  }

  lemma MonthSlashYearIsJoined(s: string)
    requires Trim(s) == s && |s| == 6 && IsMonthSlashYear(s)
    ensures NormalizeReference(Some(s)) == Some(Join(s[2..], s[..1]))
  {
  }

  /**
   * normalizeDescription: null stays null; otherwise trimmed and with every whitespace run
   * turned into one space, so the result has no blank at either end and no double space.
   */
  function NormalizeDescription(description: Option<string>): (r: Option<string>)
    ensures r.None? <==> description.None?
    ensures r.Some? ==> Collapsed(r.value)
    ensures r.Some? && r.value != [] ==> !IsTrimmable(r.value[0]) && !IsTrimmable(r.value[|r.value| - 1])
    ensures description.Some? ==> r.value == SquashSpaces(Trim(description.value), " ", false)
    ensures description.Some? ==> NonSpaces(r.value) == NonSpaces(Trim(description.value))
    ensures description.Some? ==>
              (r.value == [] <==> forall i :: 0 <= i < |description.value| ==> IsTrimmable(description.value[i]))
  {
    match description
    case None => None
    case Some(s) =>
      TrimmedTextCollapses(s);
      ReplaceSpaceRunsIsSquash(Trim(s), " ");
      SquashKeepsNonSpaces(Trim(s), false);
      ReplaceSpaceRunsCollapses(Trim(s));
      Some(ReplaceSpaceRuns(Trim(s), " "))
  }

  /** Collapsing the whitespace runs of a trimmed text leaves it trimmed. */
  lemma TrimmedTextCollapses(s: string)
    ensures var r := ReplaceSpaceRuns(Trim(s), " ");
            Collapsed(r) && (r != [] ==> !IsTrimmable(r[0]) && !IsTrimmable(r[|r| - 1]))
  {
    var t := Trim(s);
    ReplaceSpaceRunsCollapses(t);
    if t != [] {
      var last := t[|t| - 1];
      assert !IsTrimmable(last);
      assert !IsRegexSpace(last);
      ReplaceSpaceRunsKeepsLast(t);
    }
  }

  /** Normalizing a normalized description changes nothing. */
  lemma NormalizeDescriptionIdempotent(description: Option<string>)
    ensures NormalizeDescription(NormalizeDescription(description)) == NormalizeDescription(description)
  {
    if description.Some? {
      var r := NormalizeDescription(description).value;
      TrimOfTrimmed(r);
      ReplaceSpaceRunsOfCollapsed(r);
    }
  }
}
