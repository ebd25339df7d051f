/**
 * DocumentTypeDetectionServiceImpl: decides whether a PDF text is a CAIXA payslip, a FUNCEF
 * pension statement or both, by counting layout markers in the upper-cased text.
 */
module DocumentTypeDetection {
  import opened Wrappers
  import opened JavaText

  datatype DocumentType = Caixa | Funcef | CaixaFuncef

  /**
   * Two readings of the detector: the code as written, and the intended one. They differ in the
   * FUNCEF logo literal (written with a lower-case "ais") and in the agency pattern (whose `.`
   * cannot cross a line break).
   */
  datatype Reading = AsWritten | Intended

  /** One point for a marker that is present, none otherwise. */
  function Indicator(b: bool): nat {
    if b then 1 else 0
  }

  /** Java regex line terminators, which `.` does not match. */
  predicate IsLineTerminator(c: char) {
    c == '\n' || c == '\r' || c == '\U{0085}' || c == '\U{2028}' || c == '\U{2029}'
  }

  predicate NoLineTerminator(s: string) {
    forall i :: 0 <= i < |s| ==> !IsLineTerminator(s[i])
  }

  /** "AGÊNCIA" or "AGENCIA" at `i`, then `k` whitespace characters, then four digits. */
  predicate AgenciaAt(s: string, i: nat, k: nat) {
    k >= 1 && i + 11 + k <= |s| &&
    (s[i..i + 7] == "AG\U{00CA}NCIA" || s[i..i + 7] == "AGENCIA") &&
    (forall j :: i + 7 <= j < i + 7 + k ==> IsRegexSpace(s[j])) &&
    AllDigits(s[i + 7 + k..i + 11 + k])
  }

  /**
   * `s.matches(".*AG[ÊE]NCIA\\s+\\d{4}.*")`: the whole text must match, so no line terminator may
   * occur before the agency word or after its four digits.
   */
  predicate MatchesAgenciaLine(s: string) {
    exists i: nat, k: nat | i <= |s| && k <= |s| :: AgenciaAt(s, i, k) && NoLineTerminator(s[..i]) && NoLineTerminator(s[i + 11 + k..])
  }

  /** The agency word followed by a number anywhere in the text. */
  predicate HasAgenciaNumber(s: string) {
    exists i: nat, k: nat | i <= |s| && k <= |s| :: AgenciaAt(s, i, k)
  }

  predicate CaixaTitle(u: string) {
    Contains(u, "DEMONSTRATIVO DE PAGAMENTO")
  }

  predicate CaixaLogo(u: string) {
    Contains(u, "CAIXA ECON\U{00D4}MICA FEDERAL") || Contains(u, "CAIXA ECONOMICA FEDERAL")
  }

  predicate CaixaDateField(u: string) {
    Contains(u, "M\U{00CA}S/ANO DE PAGAMENTO") || Contains(u, "MES/ANO DE PAGAMENTO")
  }

  predicate CaixaAgencia(u: string, reading: Reading) {
    (Contains(u, "AG\U{00CA}NCIA") || Contains(u, "AGENCIA")) &&
    (if reading == AsWritten then MatchesAgenciaLine(u) else HasAgenciaNumber(u))
  }

  predicate CaixaSigla(u: string) {
    Contains(u, "SIGLA") && Contains(u, "GIREC")
  }

  predicate CaixaOperacao(u: string) {
    Contains(u, "OPERA\U{00C7}\U{00C3}O") || Contains(u, "OPERACAO")
  }

  /** How many of the six CAIXA markers the upper-cased text shows. */
  function CaixaScore(u: string, reading: Reading): (n: nat)
    ensures n <= 6
  {
    Indicator(CaixaTitle(u)) + Indicator(CaixaLogo(u)) + Indicator(CaixaDateField(u)) +
    Indicator(CaixaAgencia(u, reading)) + Indicator(CaixaSigla(u)) + Indicator(CaixaOperacao(u))
  }

  predicate HasCaixa(u: string, reading: Reading) {
    CaixaScore(u, reading) >= 2
  }

  predicate FuncefTitle(u: string) {
    Contains(u, "DEMONSTRATIVO DE PROVENTOS PREVIDENCI\U{00C1}RIOS") ||
    Contains(u, "DEMONSTRATIVO DE PROVENTOS PREVIDENCIARIOS")
  }

  /** The last word of the FUNCEF foundation's name, as the literal is written and as meant. */
  function Federais(reading: Reading): string {
    if reading == AsWritten then "FEDERais" else "FEDERAIS"
  }

  predicate FuncefLogo(u: string, reading: Reading) {
    Contains(u, "FUNCEF") &&
    (Contains(u, "FUNDA\U{00C7}\U{00C3}O DOS ECONOMI\U{00C1}RIOS " + Federais(reading)) ||
     Contains(u, "FUNDACAO DOS ECONOMIARIOS " + Federais(reading)))
  }

  predicate FuncefDateField(u: string) {
    Contains(u, "ANO PAGAMENTO / M\U{00CA}S") || Contains(u, "ANO PAGAMENTO / MES")
  }

  predicate FuncefBeneficio(u: string) {
    Contains(u, "N\U{00BA} BENEF\U{00CD}CIO INSS") || Contains(u, "N\U{00BA} BENEFICIO INSS") ||
    Contains(u, "N\U{00B0} BENEF\U{00CD}CIO INSS")
  }

  predicate FuncefTipoBeneficio(u: string) {
    Contains(u, "TIPO BENEF\U{00CD}CIO") || Contains(u, "TIPO BENEFICIO")
  }

  /** How many of the five FUNCEF markers the upper-cased text shows. */
  function FuncefScore(u: string, reading: Reading): (n: nat)
    ensures n <= 5
  {
    Indicator(FuncefTitle(u)) + Indicator(FuncefLogo(u, reading)) + Indicator(FuncefDateField(u)) +
    Indicator(FuncefBeneficio(u)) + Indicator(FuncefTipoBeneficio(u))
  }

  predicate HasFuncef(u: string, reading: Reading) {
    FuncefScore(u, reading) >= 2
  }

  predicate CaixaGeneric(u: string) {
    Contains(u, "CONTRACHEQUE") || CaixaLogo(u)
  }

  predicate FuncefGeneric(u: string, reading: Reading) {
    Contains(u, "PREVIDENCI\U{00C1}RIOS") || Contains(u, "PREVIDENCIARIOS") ||
    (Contains(u, "FUNCEF") && !HasCaixa(u, reading))
  }

  /** Both, one or the other, else CAIXA. */
  function Choose(caixa: bool, funcef: bool): DocumentType {
    if caixa && funcef then CaixaFuncef else if caixa then Caixa else if funcef then Funcef else Caixa
  }

  /**
   * detectType under a reading: CAIXA for null or empty text; otherwise the specific marker
   * counts decide, and when neither reaches two the generic markers do, defaulting to CAIXA.
   */
  function Detect(pdfText: Option<string>, reading: Reading): (r: DocumentType)
    ensures pdfText.None? || pdfText.value == [] ==> r == Caixa
    ensures pdfText.Some? && pdfText.value != [] ==>
              var u := ToUpper(pdfText.value);
              (HasCaixa(u, reading) || HasFuncef(u, reading) ==> r == Choose(HasCaixa(u, reading), HasFuncef(u, reading))) &&
              (!HasCaixa(u, reading) && !HasFuncef(u, reading) ==> r == Choose(CaixaGeneric(u), FuncefGeneric(u, reading)))
  {
    if pdfText.None? || pdfText.value == [] then Caixa
    else
      var upperText := ToUpper(pdfText.value);
      var hasCaixa := HasCaixa(upperText, reading);
      var hasFuncef := HasFuncef(upperText, reading);
      if hasCaixa || hasFuncef then Choose(hasCaixa, hasFuncef)
      else Choose(CaixaGeneric(upperText), FuncefGeneric(upperText, reading))
  }

  /** detectType as the code is written. */
  function DetectTypeAsWritten(pdfText: Option<string>): (r: DocumentType)
    ensures pdfText.None? || pdfText.value == [] ==> r == Caixa
  {
    Detect(pdfText, AsWritten)
  }

  /** detectType with the FUNCEF logo literal in capitals and the agency number found on any line. */
  function DetectType(pdfText: Option<string>): (r: DocumentType)
    ensures pdfText.None? || pdfText.value == [] ==> r == Caixa
  {
    Detect(pdfText, Intended)
  }

  /** Matching ignores case: the text and its upper-cased copy are classified alike. */
  lemma DetectIgnoresCase(s: string, reading: Reading)
    ensures Detect(Some(ToUpper(s)), reading) == Detect(Some(s), reading)
  {
    ToUpperIdempotent(s);
  }

  /** As written, the FUNCEF logo marker never holds: the upper-cased text has no "a" to match "ais". */
  lemma {:induction false} AsWrittenLogoNeverMatches(s: string)
    ensures !FuncefLogo(ToUpper(s), AsWritten)
  {
    var u := ToUpper(s);
    ToUpperHasNoAsciiLower(s);
    var accented := "FUNDA\U{00C7}\U{00C3}O DOS ECONOMI\U{00C1}RIOS " + Federais(AsWritten);
    var plain := "FUNDACAO DOS ECONOMIARIOS " + Federais(AsWritten);
    assert accented[|accented| - 2] == 'i';
    assert plain[|plain| - 2] == 'i';
    NotContainsWhenCharAbsent(u, accented, |accented| - 2);
    NotContainsWhenCharAbsent(u, plain, |plain| - 2);
  }

  /**
   * A text whose FUNCEF evidence is the (correctly spelt) logo plus one other marker is FUNCEF as
   * intended but not as written; with two CAIXA markers as well it is classified CAIXA_FUNCEF as
   * intended and only CAIXA as written.
   */
  lemma LogoLiteralLosesFuncef(s: string)
    requires s != []
    requires var u := ToUpper(s);
             FuncefLogo(u, Intended) &&
             Indicator(FuncefTitle(u)) + Indicator(FuncefDateField(u)) + Indicator(FuncefBeneficio(u)) + Indicator(FuncefTipoBeneficio(u)) == 1
    requires var u := ToUpper(s); HasCaixa(u, AsWritten) && HasCaixa(u, Intended)
    ensures DetectType(Some(s)) == CaixaFuncef
    ensures DetectTypeAsWritten(Some(s)) == Caixa
  {
    AsWrittenLogoNeverMatches(s);
  }

  /**
   * The two readings differ only through the logo and agency markers: a text that shows no
   * correctly spelt FUNCEF logo, and whose agency number is found by the whole-text match exactly
   * when it is found at all, is classified alike by both.
   */
  lemma ReadingsAgreeElsewhere(s: string)
    requires !FuncefLogo(ToUpper(s), Intended)
    requires MatchesAgenciaLine(ToUpper(s)) <==> HasAgenciaNumber(ToUpper(s))
    ensures DetectTypeAsWritten(Some(s)) == DetectType(Some(s))
  {
    var u := ToUpper(s);
    AsWrittenLogoNeverMatches(s);
    assert CaixaAgencia(u, AsWritten) == CaixaAgencia(u, Intended);
    assert HasCaixa(u, AsWritten) == HasCaixa(u, Intended);
    assert HasFuncef(u, AsWritten) == HasFuncef(u, Intended);
  }

  /** One agency line after a line break: found as intended, missed by the whole-text match. */
  lemma AgenciaAfterLineBreak()
    ensures HasAgenciaNumber("\nAGENCIA 2789")
    ensures !MatchesAgenciaLine("\nAGENCIA 2789")
  {
    var s := "\nAGENCIA 2789";
    assert s[1..8] == "AGENCIA" && s[9..13] == "2789";
    assert AgenciaAt(s, 1, 1);
    forall i: nat, k: nat | i <= |s| && k <= |s| && AgenciaAt(s, i, k) ensures !NoLineTerminator(s[..i]) {
      assert s[i] == s[i..i + 7][0] == 'A';
      assert s[..i][0] == '\n';
    }
  }
}
