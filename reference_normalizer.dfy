/**
 * ReferenceNormalizer: brings a payroll reference to the canonical "YYYY-MM" text and takes
 * the year and the month back out of it.
 */
module ReferenceNormalizer {
  import opened Wrappers
  import opened JavaText

  /** `^(\d{4})-(\d{2})$`: four digits, a hyphen, two digits. */
  predicate IsIso(s: string) {
    |s| == 7 && AllDigits(s[..4]) && s[4] == '-' && AllDigits(s[5..])
  }

  /** `^(\d{2})/(\d{4})$`. */
  predicate IsMonthSlashYear(s: string) {
    |s| == 7 && AllDigits(s[..2]) && s[2] == '/' && AllDigits(s[3..])
  }

  /** `^(\d{4})/(\d{2})$`. */
  predicate IsYearSlashMonth(s: string) {
    |s| == 7 && AllDigits(s[..4]) && s[4] == '/' && AllDigits(s[5..])
  }

  /**
   * normalize: null or blank gives null; the trimmed text is returned as it is when already
   * "YYYY-MM", rearranged when "MM/YYYY" or "YYYY/MM", and null for any other shape.
   */
  function Normalize(referencia: Option<string>): (r: Option<string>)
    ensures r.Some? ==> IsIso(r.value)
    ensures r.Some? ==> (referencia.Some? &&
                         var t := Trim(referencia.value);
                         (IsIso(t) && r.value == t) ||
                         (IsMonthSlashYear(t) && r.value == t[3..] + "-" + t[..2]) ||
                         (IsYearSlashMonth(t) && r.value == t[..4] + "-" + t[5..]))
    ensures r.None? <==> (referencia.None? ||
                          var t := Trim(referencia.value);
                          !IsIso(t) && !IsMonthSlashYear(t) && !IsYearSlashMonth(t))
  {
    if referencia.None? || Trim(referencia.value) == [] then None
    else
      var trimmed := Trim(referencia.value);
      if IsIso(trimmed) then Some(trimmed)
      else if IsMonthSlashYear(trimmed) then
        var r := trimmed[3..] + "-" + trimmed[..2];
        assert r[..4] == trimmed[3..] && r[5..] == trimmed[..2];
        Some(r)
      else if IsYearSlashMonth(trimmed) then
        var r := trimmed[..4] + "-" + trimmed[5..];
        assert r[..4] == trimmed[..4] && r[5..] == trimmed[5..];
        Some(r)
      else None
  }

  /** isValid: not null, and "YYYY-MM" once trimmed. */
  predicate IsValid(referencia: Option<string>) {
    referencia.Some? && IsIso(Trim(referencia.value))
  }

  /** An ISO reference has no blank at either end, so trimming leaves it unchanged. */
  lemma IsoIsTrimmed(s: string)
    requires IsIso(s)
    ensures Trim(s) == s
  {
    assert s[..4][0] == s[0];
    assert s[5..][1] == s[6];
    TrimOfTrimmed(s);
  }

  /** Whatever normalize returns passes isValid, and normalizing it again changes nothing. */
  lemma NormalizeResultIsValid(referencia: Option<string>)
    requires Normalize(referencia).Some?
    ensures IsValid(Normalize(referencia))
    ensures Normalize(Normalize(referencia)) == Normalize(referencia)
  {
    IsoIsTrimmed(Normalize(referencia).value);
  }

  /** isValid holds exactly when normalize returns the trimmed text unchanged. */
  lemma IsValidIffNormalizeKeepsTrimmed(s: string)
    ensures IsValid(Some(s)) <==> Normalize(Some(s)) == Some(Trim(s))
  {
    var t := Trim(s);
    var n := Normalize(Some(s));
    if !IsIso(t) && n.Some? {
      if IsMonthSlashYear(t) {
        assert t[3..][1] == t[4];
      }
      assert t[4] != n.value[4];
    }
  }

  /** Writing an ISO reference as "MM/YYYY" and normalizing gives it back. */
  lemma MonthSlashYearRoundTrip(iso: string)
    requires IsIso(iso)
    ensures Normalize(Some(iso[5..] + "/" + iso[..4])) == Some(iso)
  {
    var s := iso[5..] + "/" + iso[..4];
    assert s[..2] == iso[5..] && s[3..] == iso[..4];
    assert s[0] == iso[5];
    assert s[6] == iso[3];
    TrimOfTrimmed(s);
    assert s[3..] + "-" + s[..2] == iso;
  }

  /** Failures of extractYear and extractMonth: `split("-")` gave too few pieces. */
  datatype ExtractError = ArrayIndexOutOfBounds

  /** extractYear: null without a hyphen, otherwise the first piece of `split("-")`. */
  function ExtractYear(referencia: Option<string>): (r: Result<Option<string>, ExtractError>)
    ensures r == Ok(None) <==> referencia.None? || '-' !in referencia.value
    ensures r.Err? <==> referencia.Some? && '-' in referencia.value && Split(referencia.value, '-') == []
    ensures r.Ok? && r.value.Some? ==> r.value.value == PrefixBefore(referencia.value, '-')
  {
    if referencia.None? || '-' !in referencia.value then Ok(None)
    else
      var parts := Split(referencia.value, '-');
      PiecesHead(referencia.value, '-');
      if |parts| < 1 then Err(ArrayIndexOutOfBounds) else Ok(Some(parts[0]))
  }

  /** extractMonth: null without a hyphen, otherwise the second piece of `split("-")`. */
  function ExtractMonth(referencia: Option<string>): (r: Result<Option<string>, ExtractError>)
    ensures r == Ok(None) <==> referencia.None? || '-' !in referencia.value
    ensures r.Err? <==> referencia.Some? && '-' in referencia.value && |Split(referencia.value, '-')| < 2
    ensures r.Ok? && r.value.Some? ==>
              var year := PrefixBefore(referencia.value, '-');
              |year| < |referencia.value| && r.value.value == PrefixBefore(referencia.value[|year| + 1..], '-')
  {
    if referencia.None? || '-' !in referencia.value then Ok(None)
    else
      var parts := Split(referencia.value, '-');
      PiecesAfterFirst(referencia.value, '-');
      PiecesHead(referencia.value[|PrefixBefore(referencia.value, '-')| + 1..], '-');
      if |parts| < 2 then Err(ArrayIndexOutOfBounds) else Ok(Some(parts[1]))
  }

  /** An ISO reference splits into its four-digit year and its two-digit month. */
  lemma SplitIso(iso: string)
    requires IsIso(iso)
    ensures Split(iso, '-') == [iso[..4], iso[5..]]
  {
    var year, month := iso[..4], iso[5..];
    assert iso == year + ['-'] + month;
    assert forall i :: 0 <= i < |year| ==> year[i] != '-' by {
      assert forall i :: 0 <= i < |year| ==> IsDigit(year[i]);
    }
    assert forall i :: 0 <= i < |month| ==> month[i] != '-' by {
      assert forall i :: 0 <= i < |month| ==> IsDigit(month[i]);
    }
    PiecesAtFirstSeparator(year, '-', month);
    PiecesWithoutSeparator(month, '-');
    assert Pieces(iso, '-') == [year, month];
    assert month != [];
  }

  /** Four digits, a hyphen and two digits make an ISO reference whose halves are the two parts. */
  lemma JoinIso(year: string, month: string)
    requires |year| == 4 && AllDigits(year) && |month| == 2 && AllDigits(month)
    ensures var iso := year + "-" + month;
            IsIso(iso) && iso[..4] == year && iso[5..] == month
  {
    var iso := year + "-" + month;
    assert iso[..4] == year && iso[5..] == month;
  }

  /** Year and month extraction succeed on an ISO reference and put it back together. */
  lemma ExtractIsoRoundTrip(iso: string)
    requires IsIso(iso)
    ensures ExtractYear(Some(iso)) == Ok(Some(iso[..4]))
    ensures ExtractMonth(Some(iso)) == Ok(Some(iso[5..]))
    ensures iso[..4] + "-" + iso[5..] == iso
  {
    assert iso[4] == '-';
    SplitIso(iso);
  }

  /** A lone hyphen splits into nothing, so both extractors fail on it. */
  lemma LoneHyphenFails()
    ensures ExtractYear(Some("-")).Err?
    ensures ExtractMonth(Some("-")).Err?
  {
    var hyphen: string := "-";
    assert hyphen[0] == '-' && hyphen[1..] == [];
    assert Pieces(hyphen, '-') == [[]] + Pieces([], '-') == [[], []];
    var two: seq<string> := [[], []];
    assert two[..1] == [[]];
    assert DropTrailingEmpty(two) == DropTrailingEmpty([[]]) == DropTrailingEmpty([]) == [];
    assert '-' in hyphen;
  }
}
