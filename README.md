# pdfprocessor core rules in Dafny

pdfprocessor is a Spring backend that reads Brazilian payslip PDFs (CAIXA payslips and FUNCEF
pension statements), stores the pay items it extracts, consolidates them per person and year,
exports the result to Excel and computes income tax (IR) and SELIC interest updates. This project
models the rules at its core and proves what they promise:

- `CpfValidation`: CPF normalisation and the mod-11 check-digit test.
- `ReferenceNormalizer` and `PdfNormalizer`: payroll references (`MM/YYYY`, `M/YYYY`, `YYYY/MM`,
  `YYYY/M`) brought to `YYYY-MM`, the year and month taken back out, description clean-up.
- `MonthYearDetection`: the Portuguese month-name table and the decision between the CAIXA
  (name and year) and FUNCEF (year and month number) layouts.
- `DocumentTypeDetection`: marker counting that tells CAIXA, FUNCEF and CAIXA_FUNCEF apart.
- `IrTributacao`: the progressive income-tax formula over a bracket table.
- `ConsolidationExcel`: the CPF shown in the spreadsheet, yearly totals of a pay item with the
  thirteenth-salary rule, the total of all pay items and the tax with the stored table.
- `Consolidation`: request validation, entry filtering, reference normalisation, the `YYYY-13`
  adjustment rule and the ordering of the consolidated rows.
- `TaxaSelic`: the Receita Federal SELIC update, a month-by-month loop compounding the rates.
- `ExcelExport`: the worker's name as it appears in the exported file name.
- `Refresh`: refresh-token rotation, updating the user's token list in place.
- `MongoAppender`: the logback appender's start/stop/append lifecycle and the log document.

Three shared modules carry the Java behaviour the rules rely on: `Wrappers` (Option and Result
for null and exceptions), `JavaText` (String.trim, the `\s` class, toUpperCase, replaceAll,
Integer.parseInt) and `BigDec` (java.math.BigDecimal as an unscaled integer and a scale, with
HALF_UP rounding). Code that changes state in place (the appender, the token list, the SELIC
loop, the CPF and total loops) is written as methods with loop invariants, proved against the
functions that specify them.

## Model

| member | source | states |
|---|---|---|
| JavaText.Trim | src/main/java/br/com/verticelabs/pdfprocessor/application/consolidation/ReferenceNormalizer.java:29 | String.trim gives the infix of the text left once a prefix and a suffix made only of characters up to U+0020 are cut; the infix neither starts nor ends with such a character, and is empty exactly when every character is one |
| JavaText.TrimIdempotent | src/main/java/br/com/verticelabs/pdfprocessor/application/consolidation/ReferenceNormalizer.java:29 | trimming twice is trimming once |
| JavaText.ToUpperHasNoAsciiLower | src/main/java/br/com/verticelabs/pdfprocessor/infrastructure/pdf/DocumentTypeDetectionServiceImpl.java:17 | an upper-cased text holds no ASCII lower-case letter |
| JavaText.ToUpperIdempotent | src/main/java/br/com/verticelabs/pdfprocessor/infrastructure/pdf/DocumentTypeDetectionServiceImpl.java:17 | upper-casing twice is upper-casing once |
| JavaText.KeepDigits | src/main/java/br/com/verticelabs/pdfprocessor/infrastructure/util/CpfValidationServiceImpl.java:46 | removing the non-digits leaves only digits, never lengthens the text, and leaves nothing exactly when the text holds no digit |
| JavaText.KeepDigitsCounts | src/main/java/br/com/verticelabs/pdfprocessor/infrastructure/util/CpfValidationServiceImpl.java:46 | every digit of the text is kept as often as it occurs, and no other character |
| JavaText.KeepDigitsConcat | src/main/java/br/com/verticelabs/pdfprocessor/infrastructure/util/CpfValidationServiceImpl.java:46 | digits are taken piecewise over a concatenation, so they keep their order |
| JavaText.KeepDigitsOfDigits | src/main/java/br/com/verticelabs/pdfprocessor/infrastructure/util/CpfValidationServiceImpl.java:46 | a text of digits is left as it is |
| JavaText.ReplaceSpaceRunsCollapses | src/main/java/br/com/verticelabs/pdfprocessor/infrastructure/pdf/PdfNormalizer.java:92 | replacing each whitespace run by one space leaves only plain spaces, never two in a row, is non-empty for a non-empty text and keeps a leading non-space |
| JavaText.ReplaceSpaceRunsIsSquash | src/main/java/br/com/verticelabs/pdfprocessor/infrastructure/pdf/PdfNormalizer.java:92 | replaceAll("\\s+", rep) equals the left-to-right reading that writes rep for the first whitespace character of each run and copies every other character |
| JavaText.SquashKeepsNonSpaces | src/main/java/br/com/verticelabs/pdfprocessor/infrastructure/pdf/PdfNormalizer.java:92 | replacing each whitespace run by one space keeps every other character, in order |
| JavaText.Pad2 | src/main/java/br/com/verticelabs/pdfprocessor/infrastructure/pdf/MonthYearDetectionServiceImpl.java:90 | "%02d" of a number below 100 is two digits that read back as that number |
| JavaText.Pad2Value | src/main/java/br/com/verticelabs/pdfprocessor/infrastructure/pdf/MonthYearDetectionServiceImpl.java:90 | the padded text parses back to the number it was made from |
| JavaText.ParseInt | src/main/java/br/com/verticelabs/pdfprocessor/application/consolidation/ConsolidationUseCase.java:77 | Integer.parseInt succeeds exactly on an optional sign followed by at least one ASCII digit whose value lies in the 32-bit range, and then returns that signed value (None stands for NumberFormatException) |
| JavaText.PrefixBefore | src/main/java/br/com/verticelabs/pdfprocessor/application/consolidation/ReferenceNormalizer.java:63 | the text before the first separator is a prefix free of it, followed by the separator when it is shorter than the text |
| JavaText.ToUpper | src/main/java/br/com/verticelabs/pdfprocessor/infrastructure/pdf/DocumentTypeDetectionServiceImpl.java:17 | String.toUpperCase on the Latin-1 range: every character is mapped in place, "ß" growing to "SS", so the result is never shorter than the text |
| JavaText.UpperChar | src/main/java/br/com/verticelabs/pdfprocessor/infrastructure/pdf/DocumentTypeDetectionServiceImpl.java:17 | defines the upper case of one character: a-z and à-þ (but not ÷) shifted by 32, ß to "SS", µ to capital Greek mu, ÿ to Ÿ, any other character unchanged |
| JavaText.Contains | src/main/java/br/com/verticelabs/pdfprocessor/infrastructure/pdf/DocumentTypeDetectionServiceImpl.java:21 | defines String.contains: the searched text occurs at some position of the text |
| JavaText.Split | src/main/java/br/com/verticelabs/pdfprocessor/application/consolidation/ReferenceNormalizer.java:63 | defines split on one character that is no regular-expression metacharacter: a text without the separator, the empty text included, is one piece, the text itself; otherwise the pieces between the separators, trailing empty pieces dropped |
| JavaText.ReplaceSpaceRuns | src/main/java/br/com/verticelabs/pdfprocessor/infrastructure/pdf/PdfNormalizer.java:92 | defines replaceAll("\\s+", rep): each maximal run of regular-expression whitespace becomes rep, every other character is copied in order |
| JavaText.SquashSpaces | src/main/java/br/com/verticelabs/pdfprocessor/infrastructure/pdf/PdfNormalizer.java:92 | defines the left-to-right reading of the same replacement: the first whitespace character of a run writes rep, the following ones write nothing |
| CpfValidation.Normalize | src/main/java/br/com/verticelabs/pdfprocessor/infrastructure/util/CpfValidationServiceImpl.java:41-47 | null gives the empty text; otherwise the result holds every ASCII digit of the input as often as it occurs and nothing else, and is empty exactly when the input has no digit |
| CpfValidation.NormalizeKeepsOrder | src/main/java/br/com/verticelabs/pdfprocessor/infrastructure/util/CpfValidationServiceImpl.java:41-47 | normalizing a concatenation is normalizing each part, so the digits keep their order |
| CpfValidation.NormalizeIdempotent | src/main/java/br/com/verticelabs/pdfprocessor/infrastructure/util/CpfValidationServiceImpl.java:41-47 | normalizing an already normalized CPF gives it back unchanged |
| CpfValidation.IsAllDigitsEqual | src/main/java/br/com/verticelabs/pdfprocessor/infrastructure/util/CpfValidationServiceImpl.java:53-64 | the scan answers true exactly when the text is non-empty and every character equals the first one |
| CpfValidation.Verifier | src/main/java/br/com/verticelabs/pdfprocessor/infrastructure/util/CpfValidationServiceImpl.java:89-90 | the check digit derived from a weighted sum is a single digit, 0 to 9 |
| CpfValidation.WeightedSum | src/main/java/br/com/verticelabs/pdfprocessor/infrastructure/util/CpfValidationServiceImpl.java:83-87 | defines the sum of the first n digits, digit i weighted by top − i, that both loops of validateMod11 compute |
| CpfValidation.CheckDigitsMatch | src/main/java/br/com/verticelabs/pdfprocessor/infrastructure/util/CpfValidationServiceImpl.java:89-108 | defines the mod-11 test: the tenth and eleventh digits are the verifiers of the weighted sums of the nine and ten digits before them |
| CpfValidation.ValidateMod11 | src/main/java/br/com/verticelabs/pdfprocessor/infrastructure/util/CpfValidationServiceImpl.java:76-114 | the two weighted-sum loops accept exactly an 11-digit text whose tenth and eleventh digits are the mod-11 check digits of the nine and ten digits before them |
| CpfValidation.IsValid | src/main/java/br/com/verticelabs/pdfprocessor/infrastructure/util/CpfValidationServiceImpl.java:18-38 | accepts exactly a non-null, non-empty text whose digits are eleven, not all equal, and pass the mod-11 check |
| CpfValidation.ValidCpf | src/main/java/br/com/verticelabs/pdfprocessor/infrastructure/util/CpfValidationServiceImpl.java:18-38 | defines what isValid accepts: a non-null, non-empty text whose digits are eleven, not all equal, and pass the mod-11 test |
| CpfValidation.ValidIgnoresPunctuation | src/main/java/br/com/verticelabs/pdfprocessor/infrastructure/util/CpfValidationServiceImpl.java:18-47 | any text, with or without digits, is a valid CPF exactly when its bare digits are |
| CpfValidation.WeightedSumPrefix | src/main/java/br/com/verticelabs/pdfprocessor/infrastructure/util/CpfValidationServiceImpl.java:84-87 | a weighted sum over the first n digits depends on those digits only |
| CpfValidation.WithCheckDigits | src/main/java/br/com/verticelabs/pdfprocessor/infrastructure/util/CpfValidationServiceImpl.java:66-75 | appending the two computed check digits to nine digits gives an 11-digit text that starts with them and passes the check |
| CpfValidation.CheckDigitsAreDetermined | src/main/java/br/com/verticelabs/pdfprocessor/infrastructure/util/CpfValidationServiceImpl.java:76-108 | an 11-digit text passes the check exactly when it is its first nine digits followed by their computed check digits |
| CpfValidation.RepeatedDigitsPassMod11 | src/main/java/br/com/verticelabs/pdfprocessor/infrastructure/util/CpfValidationServiceImpl.java:30-34 | every CPF of one repeated digit passes the mod-11 check, so isValid rejects it only through the all-equal test |
| ReferenceNormalizer.Normalize | src/main/java/br/com/verticelabs/pdfprocessor/application/consolidation/ReferenceNormalizer.java:24-54 | a result is always "YYYY-MM" and comes from the trimmed text kept as it is (already ISO), rearranged from "MM/YYYY" or rearranged from "YYYY/MM"; null is returned exactly for null, blank or any other shape |
| ReferenceNormalizer.IsIso | src/main/java/br/com/verticelabs/pdfprocessor/application/consolidation/ReferenceNormalizer.java:15 | defines the full match of the ISO pattern: seven characters, four digits, a hyphen, two digits |
| ReferenceNormalizer.IsMonthSlashYear | src/main/java/br/com/verticelabs/pdfprocessor/application/consolidation/ReferenceNormalizer.java:13 | defines the full match of "MM/YYYY": two digits, a slash, four digits |
| ReferenceNormalizer.IsYearSlashMonth | src/main/java/br/com/verticelabs/pdfprocessor/application/consolidation/ReferenceNormalizer.java:14 | defines the full match of "YYYY/MM": four digits, a slash, two digits |
| ReferenceNormalizer.IsValid | src/main/java/br/com/verticelabs/pdfprocessor/application/consolidation/ReferenceNormalizer.java:79-84 | defines isValid: false for null, otherwise whether the trimmed text fully matches "YYYY-MM" |
| ReferenceNormalizer.JoinIso | src/main/java/br/com/verticelabs/pdfprocessor/application/consolidation/ConsolidationUseCase.java:388 | four digits, a hyphen and two digits make a "YYYY-MM" reference whose year and month are those parts |
| ReferenceNormalizer.IsoIsTrimmed | src/main/java/br/com/verticelabs/pdfprocessor/application/consolidation/ReferenceNormalizer.java:15 | a text matching the ISO pattern has no blank at either end |
| ReferenceNormalizer.NormalizeResultIsValid | src/main/java/br/com/verticelabs/pdfprocessor/application/consolidation/ReferenceNormalizer.java:24-54 | whatever normalize returns passes isValid, and normalizing it again returns it unchanged |
| ReferenceNormalizer.IsValidIffNormalizeKeepsTrimmed | src/main/java/br/com/verticelabs/pdfprocessor/application/consolidation/ReferenceNormalizer.java:79-84 | isValid holds exactly when normalize returns the trimmed text unchanged |
| ReferenceNormalizer.MonthSlashYearRoundTrip | src/main/java/br/com/verticelabs/pdfprocessor/application/consolidation/ReferenceNormalizer.java:36-42 | an ISO reference written as "MM/YYYY" normalizes back to itself |
| ReferenceNormalizer.ExtractYear | src/main/java/br/com/verticelabs/pdfprocessor/application/consolidation/ReferenceNormalizer.java:59-64 | null or a text without a hyphen gives null; a text whose split leaves no piece fails (ArrayIndexOutOfBounds); otherwise the year is the text before the first hyphen |
| ReferenceNormalizer.ExtractMonth | src/main/java/br/com/verticelabs/pdfprocessor/application/consolidation/ReferenceNormalizer.java:69-74 | null or a text without a hyphen gives null; a split with fewer than two pieces fails; otherwise the month is the text between the first and the second hyphen |
| ReferenceNormalizer.SplitIso | src/main/java/br/com/verticelabs/pdfprocessor/application/consolidation/ReferenceNormalizer.java:63 | split on "-" breaks an ISO reference into its year and its month |
| ReferenceNormalizer.ExtractIsoRoundTrip | src/main/java/br/com/verticelabs/pdfprocessor/application/consolidation/ReferenceNormalizer.java:59-74 | on an ISO reference both extractions succeed and year + "-" + month gives the reference back |
| ReferenceNormalizer.LoneHyphenFails | src/main/java/br/com/verticelabs/pdfprocessor/application/consolidation/ReferenceNormalizer.java:59-74 | on the text "-" both extractions fail, since split drops the trailing empty pieces |
| PdfNormalizer.PadMonth | src/main/java/br/com/verticelabs/pdfprocessor/infrastructure/pdf/PdfNormalizer.java:64-66 | the month becomes two digits ending in the given ones, a one-digit month getting a leading zero |
| PdfNormalizer.IsMonthSlashYear | src/main/java/br/com/verticelabs/pdfprocessor/infrastructure/pdf/PdfNormalizer.java:56 | defines the full match of "(\d{1,2})/(\d{4})": one or two digits, a slash, four digits |
| PdfNormalizer.IsYearSlashMonth | src/main/java/br/com/verticelabs/pdfprocessor/infrastructure/pdf/PdfNormalizer.java:57 | defines the full match of "(\d{4})/(\d{1,2})": four digits, a slash, one or two digits |
| PdfNormalizer.Join | src/main/java/br/com/verticelabs/pdfprocessor/infrastructure/pdf/PdfNormalizer.java:67 | the joined text is "YYYY-MM" with the given year before the hyphen and the padded month after it |
| PdfNormalizer.NormalizeReference | src/main/java/br/com/verticelabs/pdfprocessor/infrastructure/pdf/PdfNormalizer.java:43-83 | a result is always "YYYY-MM"; null is returned exactly for null, blank, or a trimmed text that is neither "YYYY-MM", "M/YYYY", "MM/YYYY", "YYYY/M" nor "YYYY/MM" |
| PdfNormalizer.AgreesWithReferenceNormalizer | src/main/java/br/com/verticelabs/pdfprocessor/infrastructure/pdf/PdfNormalizer.java:43-83 | every reference ReferenceNormalizer.normalize accepts is accepted here too, with the same result |
| PdfNormalizer.PadsOneDigitMonth | src/main/java/br/com/verticelabs/pdfprocessor/infrastructure/pdf/PdfNormalizer.java:59-68 | "M/YYYY" becomes "YYYY-0M" |
| PdfNormalizer.PadsYearSlashOneDigitMonth | src/main/java/br/com/verticelabs/pdfprocessor/infrastructure/pdf/PdfNormalizer.java:70-78 | "YYYY/M" with a one-digit month becomes "YYYY-0M" |
| PdfNormalizer.MonthSlashYearIsJoined | src/main/java/br/com/verticelabs/pdfprocessor/infrastructure/pdf/PdfNormalizer.java:59-68 | a trimmed six-character "M/YYYY" text is normalized to its year joined with its padded month |
| PdfNormalizer.NormalizeDescription | src/main/java/br/com/verticelabs/pdfprocessor/infrastructure/pdf/PdfNormalizer.java:88-93 | null stays null; otherwise the result is the trimmed text with every whitespace run replaced by one space: the same non-whitespace characters in the same order, no whitespace at either end, no two adjacent, and empty exactly when the text is blank |
| PdfNormalizer.TrimmedTextCollapses | src/main/java/br/com/verticelabs/pdfprocessor/infrastructure/pdf/PdfNormalizer.java:92 | replacing the whitespace runs of a trimmed text by one space leaves no run and no blank at either end |
| PdfNormalizer.NormalizeDescriptionIdempotent | src/main/java/br/com/verticelabs/pdfprocessor/infrastructure/pdf/PdfNormalizer.java:88-93 | normalizing a normalized description changes nothing |
| MonthYearDetection.MonthMapValues | src/main/java/br/com/verticelabs/pdfprocessor/infrastructure/pdf/MonthYearDetectionServiceImpl.java:19-35 | the month names map onto exactly the twelve numbers "01" to "12", both spellings of March giving "03" |
| MonthYearDetection.MonthMapValuesAreNumbers | src/main/java/br/com/verticelabs/pdfprocessor/infrastructure/pdf/MonthYearDetectionServiceImpl.java:19-35 | every value of the month map is one of the twelve month numbers |
| MonthYearDetection.MonthNumbersAreValues | src/main/java/br/com/verticelabs/pdfprocessor/infrastructure/pdf/MonthYearDetectionServiceImpl.java:22-34 | each of the twelve month numbers is the value of some month name |
| MonthYearDetection.MonthNumbersAreMonths | src/main/java/br/com/verticelabs/pdfprocessor/infrastructure/pdf/MonthYearDetectionServiceImpl.java:19-35 | each value of the month map is two digits whose value lies from 1 to 12 |
| MonthYearDetection.PaddedMonthsAreNumbers | src/main/java/br/com/verticelabs/pdfprocessor/infrastructure/pdf/MonthYearDetectionServiceImpl.java:88-90 | formatting any month from 1 to 12 with "%02d" gives one of the map's month numbers |
| MonthYearDetection.StripAccents | src/main/java/br/com/verticelabs/pdfprocessor/infrastructure/pdf/MonthYearDetectionServiceImpl.java:113-121 | the stripped name has the same length, each character is the replacement of the original one and no replaced accented capital is left |
| MonthYearDetection.ReplaceChar | src/main/java/br/com/verticelabs/pdfprocessor/infrastructure/pdf/MonthYearDetectionServiceImpl.java:113 | a single-character replace changes exactly the occurrences of that character and keeps the length |
| MonthYearDetection.NormalizedMonthName | src/main/java/br/com/verticelabs/pdfprocessor/infrastructure/pdf/MonthYearDetectionServiceImpl.java:103-124 | the result is as long as the trimmed upper-cased name; a name the map knows is returned as it is; any other has each of the nine accented capitals replaced by its plain letter and every other character kept |
| MonthYearDetection.NormalizeMonthName | src/main/java/br/com/verticelabs/pdfprocessor/infrastructure/pdf/MonthYearDetectionServiceImpl.java:103-124 | the method returns the name the function above describes |
| MonthYearDetection.AccentedNameFindsMonth | src/main/java/br/com/verticelabs/pdfprocessor/infrastructure/pdf/MonthYearDetectionServiceImpl.java:103-124 | a name the map does not know can become one it knows: "abríl" normalizes to the key "ABRIL" |
| MonthYearDetection.ReplaceAccents | src/main/java/br/com/verticelabs/pdfprocessor/infrastructure/pdf/MonthYearDetectionServiceImpl.java:113-121 | the nine successive replace calls strip every accent as StripAccents does |
| MonthYearDetection.MarchWithCedilla | src/main/java/br/com/verticelabs/pdfprocessor/infrastructure/pdf/MonthYearDetectionServiceImpl.java:24 | "março" is upper-cased to "MARÇO", which the map knows and which is kept with its cedilla |
| MonthYearDetection.MarchWithoutCedilla | src/main/java/br/com/verticelabs/pdfprocessor/infrastructure/pdf/MonthYearDetectionServiceImpl.java:25 | "marco" is upper-cased to the map's "MARCO" |
| MonthYearDetection.CaixaMonth | src/main/java/br/com/verticelabs/pdfprocessor/infrastructure/pdf/MonthYearDetectionServiceImpl.java:62-70 | a CAIXA month name found in the map gives a valid month number |
| MonthYearDetection.DetectMonthYear | src/main/java/br/com/verticelabs/pdfprocessor/infrastructure/pdf/MonthYearDetectionServiceImpl.java:52-101 | null or blank text gives empty; any result is "YYYY-MM" with a month from 01 to 12; a known CAIXA month name wins with year + "-" + its number; otherwise a result exists exactly when a FUNCEF match has a month from 1 to 12, and then carries that year and month |
| MonthYearDetection.Join | src/main/java/br/com/verticelabs/pdfprocessor/infrastructure/pdf/MonthYearDetectionServiceImpl.java:71 | year + "-" + month is an ISO reference whose year and month are the given ones |
| DocumentTypeDetection.Indicator | src/main/java/br/com/verticelabs/pdfprocessor/infrastructure/pdf/DocumentTypeDetectionServiceImpl.java:42-47 | defines the one point a present marker adds to a score |
| DocumentTypeDetection.CaixaTitle | src/main/java/br/com/verticelabs/pdfprocessor/infrastructure/pdf/DocumentTypeDetectionServiceImpl.java:21 | defines the CAIXA title marker: the text contains "DEMONSTRATIVO DE PAGAMENTO" |
| DocumentTypeDetection.CaixaLogo | src/main/java/br/com/verticelabs/pdfprocessor/infrastructure/pdf/DocumentTypeDetectionServiceImpl.java:24-25 | defines the CAIXA logo marker: the bank's name with or without the circumflex |
| DocumentTypeDetection.CaixaDateField | src/main/java/br/com/verticelabs/pdfprocessor/infrastructure/pdf/DocumentTypeDetectionServiceImpl.java:28-29 | defines the CAIXA date-field marker: "MÊS/ANO DE PAGAMENTO" with or without the accent |
| DocumentTypeDetection.CaixaAgencia | src/main/java/br/com/verticelabs/pdfprocessor/infrastructure/pdf/DocumentTypeDetectionServiceImpl.java:32-33 | defines the agency marker: the agency word and, as written, a whole-text match of the word, whitespace and four digits on one line; as intended, that sequence anywhere |
| DocumentTypeDetection.MatchesAgenciaLine | src/main/java/br/com/verticelabs/pdfprocessor/infrastructure/pdf/DocumentTypeDetectionServiceImpl.java:33 | defines matches(".*AG[ÊE]NCIA\\s+\\d{4}.*") on the whole text: the agency word, whitespace and four digits, with no line terminator before the word or after the digits, since "." matches none |
| DocumentTypeDetection.HasAgenciaNumber | src/main/java/br/com/verticelabs/pdfprocessor/infrastructure/pdf/DocumentTypeDetectionServiceImpl.java:33 | defines the evidently intended test: the agency word, whitespace and four digits anywhere in the text |
| DocumentTypeDetection.CaixaSigla | src/main/java/br/com/verticelabs/pdfprocessor/infrastructure/pdf/DocumentTypeDetectionServiceImpl.java:36 | defines the SIGLA marker: both "SIGLA" and "GIREC" occur |
| DocumentTypeDetection.CaixaOperacao | src/main/java/br/com/verticelabs/pdfprocessor/infrastructure/pdf/DocumentTypeDetectionServiceImpl.java:39 | defines the OPERAÇÃO marker, with or without the accents |
| DocumentTypeDetection.CaixaScore | src/main/java/br/com/verticelabs/pdfprocessor/infrastructure/pdf/DocumentTypeDetectionServiceImpl.java:42-47 | the CAIXA marker count is at most six |
| DocumentTypeDetection.HasCaixa | src/main/java/br/com/verticelabs/pdfprocessor/infrastructure/pdf/DocumentTypeDetectionServiceImpl.java:42-47 | defines the CAIXA decision: at least two of the six markers |
| DocumentTypeDetection.FuncefTitle | src/main/java/br/com/verticelabs/pdfprocessor/infrastructure/pdf/DocumentTypeDetectionServiceImpl.java:51-52 | defines the FUNCEF title marker, with or without the accent |
| DocumentTypeDetection.FuncefLogo | src/main/java/br/com/verticelabs/pdfprocessor/infrastructure/pdf/DocumentTypeDetectionServiceImpl.java:55-57 | defines the FUNCEF logo marker: "FUNCEF" and the foundation's name, whose last word is the mixed-case literal as written and "FEDERAIS" as intended |
| DocumentTypeDetection.Federais | src/main/java/br/com/verticelabs/pdfprocessor/infrastructure/pdf/DocumentTypeDetectionServiceImpl.java:56-57 | defines the last word of the foundation's name in the two readings: "FEDERais" as written, "FEDERAIS" as meant |
| DocumentTypeDetection.FuncefDateField | src/main/java/br/com/verticelabs/pdfprocessor/infrastructure/pdf/DocumentTypeDetectionServiceImpl.java:60-61 | defines the FUNCEF date-field marker, with or without the accent |
| DocumentTypeDetection.FuncefBeneficio | src/main/java/br/com/verticelabs/pdfprocessor/infrastructure/pdf/DocumentTypeDetectionServiceImpl.java:64-66 | defines the INSS benefit-number marker in its three spellings |
| DocumentTypeDetection.FuncefTipoBeneficio | src/main/java/br/com/verticelabs/pdfprocessor/infrastructure/pdf/DocumentTypeDetectionServiceImpl.java:69-70 | defines the benefit-type marker, with or without the accent |
| DocumentTypeDetection.FuncefScore | src/main/java/br/com/verticelabs/pdfprocessor/infrastructure/pdf/DocumentTypeDetectionServiceImpl.java:73-77 | the FUNCEF marker count is at most five |
| DocumentTypeDetection.HasFuncef | src/main/java/br/com/verticelabs/pdfprocessor/infrastructure/pdf/DocumentTypeDetectionServiceImpl.java:73-77 | defines the FUNCEF decision: at least two of the five markers |
| DocumentTypeDetection.CaixaGeneric | src/main/java/br/com/verticelabs/pdfprocessor/infrastructure/pdf/DocumentTypeDetectionServiceImpl.java:89 | defines the generic CAIXA hint: "CONTRACHEQUE" or the CAIXA logo |
| DocumentTypeDetection.FuncefGeneric | src/main/java/br/com/verticelabs/pdfprocessor/infrastructure/pdf/DocumentTypeDetectionServiceImpl.java:90-92 | defines the generic FUNCEF hint: "PREVIDENCIÁRIOS" in either spelling, or "FUNCEF" without the CAIXA decision |
| DocumentTypeDetection.Choose | src/main/java/br/com/verticelabs/pdfprocessor/infrastructure/pdf/DocumentTypeDetectionServiceImpl.java:80-86 | defines the decision table: both gives CAIXA_FUNCEF, one gives that one, neither gives CAIXA |
| DocumentTypeDetection.Detect | src/main/java/br/com/verticelabs/pdfprocessor/infrastructure/pdf/DocumentTypeDetectionServiceImpl.java:12-104 | null or empty text is CAIXA; when either specific count reaches two the counts decide (both: CAIXA_FUNCEF, else the one that does); otherwise the generic markers decide the same way, defaulting to CAIXA |
| DocumentTypeDetection.DetectTypeAsWritten | src/main/java/br/com/verticelabs/pdfprocessor/infrastructure/pdf/DocumentTypeDetectionServiceImpl.java:12-104 | detectType as written (logo literal with a lower-case "ais", agency test by a whole-text match) answers CAIXA for null or empty text |
| DocumentTypeDetection.DetectType | src/main/java/br/com/verticelabs/pdfprocessor/infrastructure/pdf/DocumentTypeDetectionServiceImpl.java:12-104 | the corrected detectType (logo literal in capitals, agency number searched on any line) answers CAIXA for null or empty text |
| DocumentTypeDetection.DetectIgnoresCase | src/main/java/br/com/verticelabs/pdfprocessor/infrastructure/pdf/DocumentTypeDetectionServiceImpl.java:17 | a text and its upper-cased copy are classified alike |
| DocumentTypeDetection.AsWrittenLogoNeverMatches | src/main/java/br/com/verticelabs/pdfprocessor/infrastructure/pdf/DocumentTypeDetectionServiceImpl.java:55-57 | as written, the FUNCEF logo marker is false for every text, since the upper-cased text holds no lower-case letter |
| DocumentTypeDetection.LogoLiteralLosesFuncef | src/main/java/br/com/verticelabs/pdfprocessor/infrastructure/pdf/DocumentTypeDetectionServiceImpl.java:55-57 | a text with two CAIXA markers whose FUNCEF evidence is the correctly spelt logo plus one other marker is CAIXA_FUNCEF as intended but only CAIXA as written |
| DocumentTypeDetection.ReadingsAgreeElsewhere | src/main/java/br/com/verticelabs/pdfprocessor/infrastructure/pdf/DocumentTypeDetectionServiceImpl.java:32-33 | without a correctly spelt logo and where the two agency tests agree, the written and the corrected detectors give the same answer |
| DocumentTypeDetection.AgenciaAfterLineBreak | src/main/java/br/com/verticelabs/pdfprocessor/infrastructure/pdf/DocumentTypeDetectionServiceImpl.java:32-33 | the text "\nAGENCIA 2789" holds an agency number, yet the whole-text match rejects it because "." cannot cross the line break |
| IrTributacao.FirstFaixa | src/main/java/br/com/verticelabs/pdfprocessor/application/tributacao/IrTributacaoService.java:115-124 | the index found is that of a bracket containing the base with no containing bracket before it; none is found exactly when no bracket contains the base |
| IrTributacao.InFaixa | src/main/java/br/com/verticelabs/pdfprocessor/application/tributacao/IrTributacaoService.java:120-124 | defines bracket membership: lower limit ≤ base and, when there is an upper limit, base ≤ upper |
| IrTributacao.BracketTax | src/main/java/br/com/verticelabs/pdfprocessor/application/tributacao/IrTributacaoService.java:134-141 | the bracket tax is a whole number of cents, is never negative, is zero when the deduction covers base × rate, lies within half a cent of the exact tax floored at zero, and a positive tax exactly half a cent from two places is rounded up |
| IrTributacao.Exempt | src/main/java/br/com/verticelabs/pdfprocessor/application/tributacao/IrTributacaoService.java:128-131 | defines an exempt bracket: a null rate or one equal to zero |
| IrTributacao.ProgressiveTax | src/main/java/br/com/verticelabs/pdfprocessor/application/tributacao/IrTributacaoService.java:108-154 | defines the result of calcularImpostoProgressivo: zero for an empty table, the first containing bracket's tax (zero when exempt), else the last bracket's tax |
| IrTributacao.CalcularImpostoProgressivo | src/main/java/br/com/verticelabs/pdfprocessor/application/tributacao/IrTributacaoService.java:108-154 | the loop returns the progressive tax of the table (zero for an empty table), which is never negative |
| IrTributacao.CalcularImposto | src/main/java/br/com/verticelabs/pdfprocessor/application/tributacao/IrTributacaoService.java:91-102 | a null or non-positive base owes zero; a positive one owes the progressive tax of the brackets; the result is never negative |
| IrTributacao.FirstContainingBracketDecides | src/main/java/br/com/verticelabs/pdfprocessor/application/tributacao/IrTributacaoService.java:115-142 | the first bracket containing the base decides the tax (zero when exempt) whatever the later brackets say |
| IrTributacao.NoBracketUsesLast | src/main/java/br/com/verticelabs/pdfprocessor/application/tributacao/IrTributacaoService.java:145-153 | when no bracket contains the base the last bracket's rate and deduction apply, a null one counting as zero, and the tax is not negative |
| BigDec.Add | src/main/java/br/com/verticelabs/pdfprocessor/application/tributacao/IrTributacaoService.java:134-135 | BigDecimal.add is exact: the value of the sum is the sum of the values |
| BigDec.Sub | src/main/java/br/com/verticelabs/pdfprocessor/application/tributacao/IrTributacaoService.java:135 | BigDecimal.subtract is exact: the value of the difference is the difference of the values |
| BigDec.Mul | src/main/java/br/com/verticelabs/pdfprocessor/application/tributacao/IrTributacaoService.java:134 | BigDecimal.multiply is exact: the value of the product is the product of the values |
| BigDec.HundredthsOfScaleTwo | src/main/java/br/com/verticelabs/pdfprocessor/application/tributacao/IrTributacaoService.java:136 | a value held at scale two, as setScale(2, HALF_UP) returns it, is a whole number of hundredths |
| BigDec.HalfUp | src/main/java/br/com/verticelabs/pdfprocessor/application/tributacao/IrTributacaoService.java:136 | HALF_UP division by a positive power: the result is the nearest integer, a tie going away from zero, and it keeps the sign of the dividend |
| BigDec.SetScale | src/main/java/br/com/verticelabs/pdfprocessor/application/tributacao/IrTributacaoService.java:136 | setScale(s, HALF_UP) gives scale s, is exact when widening, moves the value by at most half a unit of the new last place, and never changes its sign |
| BigDec.SetScaleTiesAwayFromZero | src/main/java/br/com/verticelabs/pdfprocessor/application/tributacao/IrTributacaoService.java:136 | when narrowing leaves the value exactly half a unit of the new last place from where it was, setScale(s, HALF_UP) picks the value farther from zero |
| BigDec.TieAwayFromZero | src/main/java/br/com/verticelabs/pdfprocessor/application/tributacao/IrTributacaoService.java:136 | a HALF_UP quotient lying exactly half a unit from the exact value is the one farther from zero |
| BigDec.SetScaleKeepsSide | src/main/java/br/com/verticelabs/pdfprocessor/application/tributacao/IrTributacaoService.java:136-141 | rounding never carries a value across a number that is exact at the target scale, zero in particular |
| BigDec.Max | src/main/java/br/com/verticelabs/pdfprocessor/application/tributacao/IrTributacaoService.java:141 | BigDecimal.max returns one of its operands, and it is at least both |
| ConsolidationExcel.FormatCpf | src/main/java/br/com/verticelabs/pdfprocessor/infrastructure/excel/ConsolidationExcelServiceImpl.java:525-543 | null or blank gives ""; a text with exactly eleven digits becomes "ddd.ddd.ddd-dd" holding the same digits in the same order; any other text is returned unchanged |
| ConsolidationExcel.FormattedDigits | src/main/java/br/com/verticelabs/pdfprocessor/infrastructure/excel/ConsolidationExcelServiceImpl.java:535-538 | the formatted CPF is 14 characters with '.', '.' and '-' at positions 3, 7 and 11, and its digits are the original eleven in order |
| ConsolidationExcel.FormatCpfKeepsValidity | src/main/java/br/com/verticelabs/pdfprocessor/infrastructure/excel/ConsolidationExcelServiceImpl.java:525-543 | formatting never changes whether the CPF validator accepts the number |
| ConsolidationExcel.CalcularTotalRubricaAno | src/main/java/br/com/verticelabs/pdfprocessor/infrastructure/excel/ConsolidationExcelServiceImpl.java:657-695 | the scan returns the simple sum unless the item has no positive value outside February and November and positive values in both, in which case it returns the November value |
| ConsolidationExcel.AnnualTotal | src/main/java/br/com/verticelabs/pdfprocessor/infrastructure/excel/ConsolidationExcelServiceImpl.java:657-695 | defines a pay item's yearly total: the simple sum, except that positive February and November with no other positive month count November only |
| ConsolidationExcel.MonthAtMostSum | src/main/java/br/com/verticelabs/pdfprocessor/infrastructure/excel/ConsolidationExcelServiceImpl.java:486-492 | with no negative values, the value of a month never exceeds the sum of months 1 to n when n is that month or later, and that sum is not negative |
| ConsolidationExcel.SumNonNegative | src/main/java/br/com/verticelabs/pdfprocessor/infrastructure/excel/ConsolidationExcelServiceImpl.java:486-492 | with no negative values the twelve-month sum is not negative |
| ConsolidationExcel.AnnualTotalWithinSum | src/main/java/br/com/verticelabs/pdfprocessor/infrastructure/excel/ConsolidationExcelServiceImpl.java:657-695 | with no negative values the yearly total of an item lies between zero and its simple sum: the "YYYY-13" rule can only drop the February value |
| ConsolidationExcel.SumYear | src/main/java/br/com/verticelabs/pdfprocessor/infrastructure/excel/ConsolidationExcelServiceImpl.java:487-492 | the inner loop adds the item's values for months 01 to 12 of the year, a missing month counting zero |
| ConsolidationExcel.CalcularTotalContracheques | src/main/java/br/com/verticelabs/pdfprocessor/infrastructure/excel/ConsolidationExcelServiceImpl.java:482-499 | the nested loops add, over the pay items in order, each item's yearly total of its twelve-month sum |
| ConsolidationExcel.TotalContracheques | src/main/java/br/com/verticelabs/pdfprocessor/infrastructure/excel/ConsolidationExcelServiceImpl.java:482-499 | defines the grand total: the yearly totals of all pay items, added in order |
| ConsolidationExcel.MonthKey | src/main/java/br/com/verticelabs/pdfprocessor/infrastructure/excel/ConsolidationExcelServiceImpl.java:489-490 | defines the reference of a month: the year, a hyphen and the month as two zero-padded digits |
| ConsolidationExcel.SumMonths | src/main/java/br/com/verticelabs/pdfprocessor/infrastructure/excel/ConsolidationExcelServiceImpl.java:487-492 | defines the yearly sum: the values of months 1 to n of the year added up, a missing month counting zero |
| ConsolidationExcel.TotalContrachequesNonNegative | src/main/java/br/com/verticelabs/pdfprocessor/infrastructure/excel/ConsolidationExcelServiceImpl.java:482-499 | with no negative values the grand total is not negative |
| ConsolidationExcel.CalcularImpostoComTabelaBanco | src/main/java/br/com/verticelabs/pdfprocessor/infrastructure/excel/ConsolidationExcelServiceImpl.java:214-272 | a null or non-positive base owes zero; a year without a stored table uses the fixed 2016-2022 rate; otherwise the same bracket search as IrTributacaoService; the result is never negative |
| ConsolidationExcel.TaxWithTable | src/main/java/br/com/verticelabs/pdfprocessor/infrastructure/excel/ConsolidationExcelServiceImpl.java:214-272 | defines the tax with the stored table: zero for a null or non-positive base, the 27.5% fallback when the year has no table, else the progressive tax |
| ConsolidationExcel.FallbackTaxValue | src/main/java/br/com/verticelabs/pdfprocessor/infrastructure/excel/ConsolidationExcelServiceImpl.java:224-231 | without a table the tax is a whole number of cents: 27.5% of the base less 10432.32, floored at zero, to within half a cent, a positive tax exactly half a cent from two places being rounded up |
| Consolidation.ValidateRequest | src/main/java/br/com/verticelabs/pdfprocessor/application/consolidation/ConsolidationUseCase.java:63-87 | a given origem other than "CAIXA" or "FUNCEF" is refused first; otherwise a given ano that does not parse to a number from 2000 to 2100 is refused with InvalidYear naming it; NoEntriesFound never comes from here; the request passes exactly when both checks hold |
| Consolidation.YearInRange | src/main/java/br/com/verticelabs/pdfprocessor/application/consolidation/ConsolidationUseCase.java:77-81 | defines the year test: Integer.parseInt succeeds and the value lies from 2000 to 2100 |
| Consolidation.FourDigitYearsAccepted | src/main/java/br/com/verticelabs/pdfprocessor/application/consolidation/ConsolidationUseCase.java:74-87 | every four-digit year from 2000 to 2100 passes the year check |
| Consolidation.ApplyFilters | src/main/java/br/com/verticelabs/pdfprocessor/application/consolidation/ConsolidationUseCase.java:215-257 | the kept entries are a subsequence of the input holding every entry that passes both optional filters as often as it occurs, and no other |
| Consolidation.PassesFilters | src/main/java/br/com/verticelabs/pdfprocessor/application/consolidation/ConsolidationUseCase.java:220-247 | defines the stream filter: with a year given, the normalized reference exists and its year is that year; with an origem given, the entry's origem equals it |
| Consolidation.ApplyFiltersConcat | src/main/java/br/com/verticelabs/pdfprocessor/application/consolidation/ConsolidationUseCase.java:215-257 | filtering a concatenation filters each part, so the kept entries keep their order |
| Consolidation.ApplyFiltersIdempotent | src/main/java/br/com/verticelabs/pdfprocessor/application/consolidation/ConsolidationUseCase.java:215-257 | filtering again with the same parameters removes nothing more |
| Consolidation.FilteredEntriesHaveTheYear | src/main/java/br/com/verticelabs/pdfprocessor/application/consolidation/ConsolidationUseCase.java:223-235 | with an ano filter, every kept entry's reference normalizes to a reference of that year |
| Consolidation.NormalizedRef | src/main/java/br/com/verticelabs/pdfprocessor/application/consolidation/ConsolidationUseCase.java:281-296 | the reference kept for an entry (trimmed, kept when valid, else normalized, then re-checked) is exactly ReferenceNormalizer.normalize of it |
| Consolidation.InlineNormalizeAgrees | src/main/java/br/com/verticelabs/pdfprocessor/application/consolidation/ConsolidationUseCase.java:281-296 | trimming, keeping a valid reference, normalizing otherwise and re-checking the outcome is normalize itself |
| Consolidation.YearsOf | src/main/java/br/com/verticelabs/pdfprocessor/application/consolidation/ConsolidationUseCase.java:298-301 | every year collected is four digits |
| Consolidation.YearsOfAppend | src/main/java/br/com/verticelabs/pdfprocessor/application/consolidation/ConsolidationUseCase.java:298-301 | one more entry adds the year of its normalized reference, if it has one, to the years |
| Consolidation.NormalizeReferences | src/main/java/br/com/verticelabs/pdfprocessor/application/consolidation/ConsolidationUseCase.java:273-318 | the map holds exactly the entries with a normalized reference, each bound to it; the years are the ano filter alone when given, else the years of those references |
| Consolidation.SamePage | src/main/java/br/com/verticelabs/pdfprocessor/application/consolidation/ConsolidationUseCase.java:358-362 | the entries gathered are exactly those of the same document and page that have a reference, in list order |
| Consolidation.SamePageConcat | src/main/java/br/com/verticelabs/pdfprocessor/application/consolidation/ConsolidationUseCase.java:358-362 | gathering a page works piecewise on a concatenation, so it keeps the list order |
| Consolidation.MonthOffered | src/main/java/br/com/verticelabs/pdfprocessor/application/consolidation/ConsolidationUseCase.java:369-394 | a month offered by another entry is two digits and never "13" |
| Consolidation.FirstMonthOffered | src/main/java/br/com/verticelabs/pdfprocessor/application/consolidation/ConsolidationUseCase.java:368-396 | the month found is the one offered by the first entry of the page that offers one, no entry before it offering any; none is found exactly when no entry of the page offers one; a month found is two digits and never "13" |
| Consolidation.FindMonthOnPage | src/main/java/br/com/verticelabs/pdfprocessor/application/consolidation/ConsolidationUseCase.java:368-396 | the scan stops at the first entry of the page offering a month and returns that month, or nothing when no entry offers one |
| Consolidation.HasPaymentMonth | src/main/java/br/com/verticelabs/pdfprocessor/application/consolidation/ConsolidationUseCase.java:341 | defines a usable payment month: present and of the form \d{4}-\d{2} |
| Consolidation.IsThirteenth | src/main/java/br/com/verticelabs/pdfprocessor/application/consolidation/ConsolidationUseCase.java:348 | defines the thirteenth-salary reference \d{4}-13 |
| Consolidation.AdjustedRef | src/main/java/br/com/verticelabs/pdfprocessor/application/consolidation/ConsolidationUseCase.java:336-415 | defines the adjusted reference: the payment month when there is one; for YYYY-13 the first month the same page offers for that year, else November; any other reference unchanged |
| Consolidation.ThirteenthMonth | src/main/java/br/com/verticelabs/pdfprocessor/application/consolidation/ConsolidationUseCase.java:353-402 | the month a "YYYY-13" entry takes, the first one its page offers or else November, is two digits and never "13" |
| Consolidation.AdjustReference | src/main/java/br/com/verticelabs/pdfprocessor/application/consolidation/ConsolidationUseCase.java:336-415 | one pass of the loop yields the adjusted reference of the entry |
| Consolidation.AdjustReferences | src/main/java/br/com/verticelabs/pdfprocessor/application/consolidation/ConsolidationUseCase.java:333-416 | the adjusted map has the same entries as the normalized one, each bound to its adjusted reference |
| Consolidation.PaymentMonthWins | src/main/java/br/com/verticelabs/pdfprocessor/application/consolidation/ConsolidationUseCase.java:340-345 | a payment month of the form "YYYY-MM" always wins, whatever the reference says |
| Consolidation.ThirteenthBecomesMonthOfSameYear | src/main/java/br/com/verticelabs/pdfprocessor/application/consolidation/ConsolidationUseCase.java:347-406 | without a payment month, a "YYYY-13" reference becomes a "YYYY-MM" reference of the same year whose month is not "13" |
| Consolidation.ThirteenthWithoutPageMonthIsNovember | src/main/java/br/com/verticelabs/pdfprocessor/application/consolidation/ConsolidationUseCase.java:399-404 | a "YYYY-13" reference falls back to November when no entry of its page offers a month, or the entry has no page or document |
| Consolidation.ThirteenthTakesFirstPageMonth | src/main/java/br/com/verticelabs/pdfprocessor/application/consolidation/ConsolidationUseCase.java:356-396 | when an entry of the same page offers a month, the adjusted reference is the year joined with the month of the first entry of that page, in list order, that offers one |
| Consolidation.OtherReferencesUnchanged | src/main/java/br/com/verticelabs/pdfprocessor/application/consolidation/ConsolidationUseCase.java:408-413 | any other reference without a payment month is kept as it is |
| Consolidation.StrLeTotal | src/main/java/br/com/verticelabs/pdfprocessor/application/consolidation/ConsolidationUseCase.java:616 | String.compareTo orders any two codes one way or the other |
| Consolidation.Insert | src/main/java/br/com/verticelabs/pdfprocessor/application/consolidation/ConsolidationUseCase.java:616 | inserting into a sorted list keeps it sorted and adds exactly the one row |
| Consolidation.StrLe | src/main/java/br/com/verticelabs/pdfprocessor/application/consolidation/ConsolidationUseCase.java:616 | defines the order of Comparator.comparing(getCodigo): String.compareTo(a, b) <= 0, character by character, a proper prefix first |
| Consolidation.SortByCodigo | src/main/java/br/com/verticelabs/pdfprocessor/application/consolidation/ConsolidationUseCase.java:616 | the sorted rows are ordered by code and are a permutation of the input |
| Consolidation.FirstDescription | src/main/java/br/com/verticelabs/pdfprocessor/application/consolidation/ConsolidationUseCase.java:425-441 | defines a row's description: that of the first entry with the code, in list order, as groupingBy keeps it |
| Consolidation.Codes | src/main/java/br/com/verticelabs/pdfprocessor/application/consolidation/ConsolidationUseCase.java:423-425 | the codes are exactly those of the rows |
| Consolidation.CodesAppend | src/main/java/br/com/verticelabs/pdfprocessor/application/consolidation/ConsolidationUseCase.java:434-441 | one more row adds its code to the codes |
| Consolidation.BuildRows | src/main/java/br/com/verticelabs/pdfprocessor/application/consolidation/ConsolidationUseCase.java:421-616 | the rows are sorted by code, carry exactly the codes of the kept entries, none twice, each with the description of the first entry of its code |
| Consolidation.GroupByCodigo | src/main/java/br/com/verticelabs/pdfprocessor/application/consolidation/ConsolidationUseCase.java:423-441 | grouping gives one row per code of the kept entries, none twice, each with its first entry's description |
| Consolidation.ApplyKept | src/main/java/br/com/verticelabs/pdfprocessor/application/consolidation/ConsolidationUseCase.java:423-424 | the kept entries are exactly those that received an adjusted reference |
| Consolidation.WithReference | src/main/java/br/com/verticelabs/pdfprocessor/application/consolidation/ConsolidationUseCase.java:273-318 | the entries whose reference normalizes, in list order |
| Consolidation.ApplyKeptIsWithReference | src/main/java/br/com/verticelabs/pdfprocessor/application/consolidation/ConsolidationUseCase.java:423-424 | when the adjusted map holds exactly the entries whose reference normalizes, the kept entries are those entries in list order |
| Consolidation.SortKeepsRows | src/main/java/br/com/verticelabs/pdfprocessor/application/consolidation/ConsolidationUseCase.java:616 | sorting keeps the same rows and codes, and no code twice |
| Consolidation.DistinctCodesCountOnce | src/main/java/br/com/verticelabs/pdfprocessor/application/consolidation/ConsolidationUseCase.java:423-441 | rows whose codes are distinct occur once each |
| Consolidation.Consolidate | src/main/java/br/com/verticelabs/pdfprocessor/application/consolidation/ConsolidationUseCase.java:59-210 | an invalid request is refused with its error; a valid one fails exactly when no entry passes the filters; otherwise the years are the ano filter alone or the years of the filtered entries, the rows are sorted by code, each row's code is that of an entry passing the filters with a normalizable reference, every such entry's code has a row, no code has two, and each row carries the description of the first such entry of its code |
| TaxaSelic.FromMonthIndex | src/main/java/br/com/verticelabs/pdfprocessor/application/selic/TaxaSelicService.java:298 | the month numbered i has index i, so the month count is a one-to-one numbering of YearMonths |
| TaxaSelic.MonthIndex | src/main/java/br/com/verticelabs/pdfprocessor/application/selic/TaxaSelicService.java:298 | defines a month's position counted from January of year 0, the order plusMonths walks |
| TaxaSelic.MonthIndexRoundTrip | src/main/java/br/com/verticelabs/pdfprocessor/application/selic/TaxaSelicService.java:298 | a YearMonth is recovered from its month index |
| TaxaSelic.PlusMonths | src/main/java/br/com/verticelabs/pdfprocessor/application/selic/TaxaSelicService.java:243 | YearMonth.plusMonths(n) moves the month index by exactly n |
| TaxaSelic.PlusMonthsAdds | src/main/java/br/com/verticelabs/pdfprocessor/application/selic/TaxaSelicService.java:298 | adding a months and then b months adds a + b months |
| TaxaSelic.PlusOneMonth | src/main/java/br/com/verticelabs/pdfprocessor/application/selic/TaxaSelicService.java:298 | plusMonths(1) goes to the next month of the same year, or from December to January of the next year |
| TaxaSelic.IsBeforeByIndex | src/main/java/br/com/verticelabs/pdfprocessor/application/selic/TaxaSelicService.java:247 | YearMonth.isBefore compares the month indices |
| TaxaSelic.IsBefore | src/main/java/br/com/verticelabs/pdfprocessor/application/selic/TaxaSelicService.java:247 | defines YearMonth.isBefore: an earlier year, or the same year and an earlier month |
| TaxaSelic.IsAfter | src/main/java/br/com/verticelabs/pdfprocessor/application/selic/TaxaSelicService.java:283 | defines YearMonth.isAfter: isBefore with the two months swapped |
| TaxaSelic.Key | src/main/java/br/com/verticelabs/pdfprocessor/application/selic/TaxaSelicService.java:274 | defines the "ANO-MES" key of a stored rate as its year and month |
| TaxaSelic.LastRate | src/main/java/br/com/verticelabs/pdfprocessor/application/selic/TaxaSelicService.java:272-276 | defines the rate a key ends up with in the map: the last stored row with that key |
| TaxaSelic.LastRateMissing | src/main/java/br/com/verticelabs/pdfprocessor/application/selic/TaxaSelicService.java:272-276 | a key has no rate exactly when no stored row carries it |
| TaxaSelic.LastRateIsLastWrite | src/main/java/br/com/verticelabs/pdfprocessor/application/selic/TaxaSelicService.java:272-276 | the rate kept for a key is that of a row with the key that no later row overwrites |
| TaxaSelic.RatesOf | src/main/java/br/com/verticelabs/pdfprocessor/application/selic/TaxaSelicService.java:272-276 | the lookup map holds exactly the keys of the rows, each bound to the rate of the last row with that key |
| TaxaSelic.BuildRateMap | src/main/java/br/com/verticelabs/pdfprocessor/application/selic/TaxaSelicService.java:272-276 | the filling loop builds exactly that map |
| TaxaSelic.RateIsStored | src/main/java/br/com/verticelabs/pdfprocessor/application/selic/TaxaSelicService.java:285 | the rate used for a month is zero or the rate of one of the stored rows |
| TaxaSelic.Rate | src/main/java/br/com/verticelabs/pdfprocessor/application/selic/TaxaSelicService.java:285 | defines getOrDefault(chave, ZERO): the stored rate of a month, zero when none is stored |
| TaxaSelic.Percent | src/main/java/br/com/verticelabs/pdfprocessor/application/selic/TaxaSelicService.java:289 | dividing by 100 is exact: the value is the rate's value over 100 |
| TaxaSelic.MonthlyFactor | src/main/java/br/com/verticelabs/pdfprocessor/application/selic/TaxaSelicService.java:288-289 | the month's factor is at least 1 for a non-negative rate and exactly 1 for a zero rate |
| TaxaSelic.MonthlyFactorIsOnePlusRate | src/main/java/br/com/verticelabs/pdfprocessor/application/selic/TaxaSelicService.java:288-289 | the month's factor is 1 + taxa/100 to within half of 10^-10 |
| TaxaSelic.MonthRates | src/main/java/br/com/verticelabs/pdfprocessor/application/selic/TaxaSelicService.java:283-285 | the n rates of the loop are, in order, the map's rate for each successive month of the period, zero where missing |
| TaxaSelic.Compound | src/main/java/br/com/verticelabs/pdfprocessor/application/selic/TaxaSelicService.java:288-290 | defines the accumulated factor: the monthly factors of a run of rates multiplied in order, one for no rate |
| TaxaSelic.CompoundAtLeastOne | src/main/java/br/com/verticelabs/pdfprocessor/application/selic/TaxaSelicService.java:290 | with no negative rate the accumulated factor is at least 1 |
| TaxaSelic.CompoundOfZeroRates | src/main/java/br/com/verticelabs/pdfprocessor/application/selic/TaxaSelicService.java:290 | with every rate zero the accumulated factor is exactly 1 |
| TaxaSelic.CompoundStep | src/main/java/br/com/verticelabs/pdfprocessor/application/selic/TaxaSelicService.java:290 | one more month multiplies the accumulated factor by that month's factor |
| TaxaSelic.Details | src/main/java/br/com/verticelabs/pdfprocessor/application/selic/TaxaSelicService.java:292-295 | the detail list has one row per month of the loop, each holding that month's year, month and rate |
| TaxaSelic.CalcularSelicMensalReal | src/main/java/br/com/verticelabs/pdfprocessor/application/selic/TaxaSelicService.java:264-314 | the loop returns, over the months from start to end, the product of their factors (rates looked up in the map of the stored rows, zero when missing) rounded to 8 places, (factor - 1) × 100 rounded to 2 places, the number of months and one detail per month |
| TaxaSelic.SelicMensalReal | src/main/java/br/com/verticelabs/pdfprocessor/application/selic/TaxaSelicService.java:264-314 | defines the result of calcularSelicMensalReal: the percentage (factor − 1) × 100 and the factor, rounded HALF_UP to 2 and 8 places, the month count and the per-month details |
| TaxaSelic.LoopGuard | src/main/java/br/com/verticelabs/pdfprocessor/application/selic/TaxaSelicService.java:283 | the loop condition fails exactly after the last month of the period |
| TaxaSelic.CalcularSelicReceitaFederal | src/main/java/br/com/verticelabs/pdfprocessor/application/selic/TaxaSelicService.java:238-259 | an update month before the month after payment gives rate 0, factor 1 and no months; otherwise the monthly computation from the month after payment to the update month |
| TaxaSelic.PeriodStart | src/main/java/br/com/verticelabs/pdfprocessor/application/selic/TaxaSelicService.java:243 | defines the first month of the update: the month after payment |
| TaxaSelic.PeriodEnd | src/main/java/br/com/verticelabs/pdfprocessor/application/selic/TaxaSelicService.java:244 | defines the last month of the update: the update date's month |
| TaxaSelic.PeriodVisitedInOrder | src/main/java/br/com/verticelabs/pdfprocessor/application/selic/TaxaSelicService.java:282-299 | the period is visited month by month: one detail per month from the first to the last month, each the month after the previous, and totalMeses counts them |
| TaxaSelic.DetailsInOrder | src/main/java/br/com/verticelabs/pdfprocessor/application/selic/TaxaSelicService.java:292-298 | the details of a non-empty period start at its first month, end at its last and step one calendar month at a time |
| TaxaSelic.NoRatesNoUpdate | src/main/java/br/com/verticelabs/pdfprocessor/application/selic/TaxaSelicService.java:278-313 | with no stored rate at all the factor is exactly 1 and the accumulated rate exactly 0 |
| TaxaSelic.NonNegativeRatesNeverDecrease | src/main/java/br/com/verticelabs/pdfprocessor/application/selic/TaxaSelicService.java:288-312 | non-negative stored rates give a factor of at least 1 and a non-negative accumulated rate, also after rounding |
| TaxaSelic.MonthRatesNonNegative | src/main/java/br/com/verticelabs/pdfprocessor/application/selic/TaxaSelicService.java:285 | with non-negative stored rates every month's rate is non-negative |
| TaxaSelic.RateNonNegative | src/main/java/br/com/verticelabs/pdfprocessor/application/selic/TaxaSelicService.java:285 | with non-negative stored rates the rate found for any month is non-negative |
| TaxaSelic.RoundedFactor | src/main/java/br/com/verticelabs/pdfprocessor/application/selic/TaxaSelicService.java:312 | rounding the factor to 8 places keeps it at least 1, and keeps an exact 1 |
| TaxaSelic.RoundedRate | src/main/java/br/com/verticelabs/pdfprocessor/application/selic/TaxaSelicService.java:302-304 | (factor - 1) × 100 rounded to 2 places is non-negative when the factor is at least 1, and zero when it is 1 |
| TaxaSelic.HundredMonthExample | src/main/java/br/com/verticelabs/pdfprocessor/application/selic/TaxaSelicService.java:231-232 | paid on 30 April 2017 and updated on 31 August 2025, the period runs May 2017 to August 2025, 100 months |
| BigDec.MulAtLeastOne | src/main/java/br/com/verticelabs/pdfprocessor/application/selic/TaxaSelicService.java:290 | a product of two numbers of at least 1 is at least 1 |
| BigDec.MulSign | src/main/java/br/com/verticelabs/pdfprocessor/application/selic/TaxaSelicService.java:290 | a product of non-negative numbers is non-negative, and a product with zero is zero |
| BigDec.MulByOne | src/main/java/br/com/verticelabs/pdfprocessor/application/selic/TaxaSelicService.java:290 | multiplying by a number worth 1 keeps the value |
| ExcelExport.Entries | src/main/java/br/com/verticelabs/pdfprocessor/application/excel/ExcelExportUseCase.java:310-321 | one replacement per accented letter of a group, each writing that group's plain letter |
| ExcelExport.AccentTableShape | src/main/java/br/com/verticelabs/pdfprocessor/application/excel/ExcelExportUseCase.java:309-321 | every letter the chained replacements rewrite lies above ASCII, and every letter they write is one of A-Z |
| ExcelExport.ReplaceChar | src/main/java/br/com/verticelabs/pdfprocessor/application/excel/ExcelExportUseCase.java:310 | a one-character replace changes exactly the occurrences of that character and keeps the length |
| ExcelExport.ReplaceAllOf | src/main/java/br/com/verticelabs/pdfprocessor/application/excel/ExcelExportUseCase.java:309-321 | the chained replacements keep the length of the text |
| ExcelExport.ReplaceAllOfPerCharacter | src/main/java/br/com/verticelabs/pdfprocessor/application/excel/ExcelExportUseCase.java:309-321 | applying the replacements one after another is looking each character up once, since no replacement writes a letter a later one rewrites |
| ExcelExport.Lookup | src/main/java/br/com/verticelabs/pdfprocessor/application/excel/ExcelExportUseCase.java:309-321 | defines a single character's replacement: the target of its first table entry, or the character itself |
| ExcelExport.RemoveAccents | src/main/java/br/com/verticelabs/pdfprocessor/application/excel/ExcelExportUseCase.java:303-322 | null gives ""; otherwise each character is replaced by its entry in the accent table (the character itself when it has none): accented letters become plain letters, every other character is kept, the length is kept and no accented letter remains |
| ExcelExport.ReplaceByShapedTable | src/main/java/br/com/verticelabs/pdfprocessor/application/excel/ExcelExportUseCase.java:309-321 | each rewritten character becomes a letter A-Z, every other one stays, and none of the rewritten ones remains |
| ExcelExport.BelowLatinLettersNotAccented | src/main/java/br/com/verticelabs/pdfprocessor/application/excel/ExcelExportUseCase.java:309-321 | no character below U+00C0 is rewritten |
| ExcelExport.KeepFileChars | src/main/java/br/com/verticelabs/pdfprocessor/application/excel/ExcelExportUseCase.java:282 | removing the characters outside [A-Z0-9_] leaves only such characters and never lengthens the text |
| ExcelExport.LettersAndDigits | src/main/java/br/com/verticelabs/pdfprocessor/application/excel/ExcelExportUseCase.java:282 | the letters and digits kept are ASCII letters or digits and never more than the text |
| ExcelExport.DropUnderscores | src/main/java/br/com/verticelabs/pdfprocessor/application/excel/ExcelExportUseCase.java:285 | the rest of a text after a leading run of underscores starts with no underscore |
| ExcelExport.CollapseUnderscores | src/main/java/br/com/verticelabs/pdfprocessor/application/excel/ExcelExportUseCase.java:285 | collapsing underscore runs never lengthens the text and keeps its first character, or at least its first underscore |
| ExcelExport.CollapseKeepsFileChars | src/main/java/br/com/verticelabs/pdfprocessor/application/excel/ExcelExportUseCase.java:285 | collapsing underscore runs in a text of [A-Z0-9_] writes only such characters |
| ExcelExport.CollapseLeavesNoDouble | src/main/java/br/com/verticelabs/pdfprocessor/application/excel/ExcelExportUseCase.java:285 | after collapsing, no two underscores are adjacent |
| ExcelExport.StripEdgeUnderscores | src/main/java/br/com/verticelabs/pdfprocessor/application/excel/ExcelExportUseCase.java:288 | removing the edge underscores never lengthens the text |
| ExcelExport.DropTrailingUnderscore | src/main/java/br/com/verticelabs/pdfprocessor/application/excel/ExcelExportUseCase.java:294 | removing a final underscore leaves a prefix of the text |
| ExcelExport.Truncate | src/main/java/br/com/verticelabs/pdfprocessor/application/excel/ExcelExportUseCase.java:291-295 | the length limit leaves at most 50 characters and leaves a text of 50 or fewer unchanged |
| ExcelExport.NormalizeName | src/main/java/br/com/verticelabs/pdfprocessor/application/excel/ExcelExportUseCase.java:270-298 | null or blank gives "SEM_NOME"; every result is 1 to 50 characters of [A-Z0-9_] without "__" and without an underscore at either end |
| ExcelExport.IsFileName | src/main/java/br/com/verticelabs/pdfprocessor/application/excel/ExcelExportUseCase.java:282-297 | defines a normalized name: 1 to 50 characters of [A-Z0-9_], no "__", no underscore at either end |
| ExcelExport.Words | src/main/java/br/com/verticelabs/pdfprocessor/application/excel/ExcelExportUseCase.java:279-288 | defines the word-by-word reading of a name: letters and digits copied, one underscore between two of them separated by whitespace or underscores, nothing at the edges, every other character dropped |
| ExcelExport.Prepared | src/main/java/br/com/verticelabs/pdfprocessor/application/excel/ExcelExportUseCase.java:276 | defines the trimmed, upper-cased name without accents on which the character rules work |
| ExcelExport.Cleaned | src/main/java/br/com/verticelabs/pdfprocessor/application/excel/ExcelExportUseCase.java:279-288 | defines the four replaceAll steps before the length limit |
| ExcelExport.WordsSeparation | src/main/java/br/com/verticelabs/pdfprocessor/application/excel/ExcelExportUseCase.java:279 | in the word-by-word reading, two letters or digits with none between them are joined by one underscore when a whitespace character or underscore lies between them, and are adjacent otherwise |
| ExcelExport.CleanedIsWords | src/main/java/br/com/verticelabs/pdfprocessor/application/excel/ExcelExportUseCase.java:279-288 | the four replaceAll steps equal the word-by-word reading of the prepared name |
| ExcelExport.NormalizeNameIsWords | src/main/java/br/com/verticelabs/pdfprocessor/application/excel/ExcelExportUseCase.java:270-298 | a name whose word-by-word reading fits in 50 characters becomes that reading, or "SEM_NOME" when it has no letter or digit |
| ExcelExport.NormalizeNameSeparatesWords | src/main/java/br/com/verticelabs/pdfprocessor/application/excel/ExcelExportUseCase.java:278-279 | in a name within the length limit, two letters or digits with only other characters between them come out joined by exactly one '_' when whitespace or '_' separated them, adjacent otherwise, the rest of the name read on either side |
| ExcelExport.Finish | src/main/java/br/com/verticelabs/pdfprocessor/application/excel/ExcelExportUseCase.java:290-297 | the length limit followed by the "SEM_NOME" fallback turns any cleaned text into a valid file name |
| ExcelExport.SemNomeIsFileName | src/main/java/br/com/verticelabs/pdfprocessor/application/excel/ExcelExportUseCase.java:272 | "SEM_NOME" is itself a valid file name |
| ExcelExport.CleanedShape | src/main/java/br/com/verticelabs/pdfprocessor/application/excel/ExcelExportUseCase.java:279-288 | the four replaceAll steps leave only [A-Z0-9_], no "__" and no underscore at either end |
| ExcelExport.StripKeepsShape | src/main/java/br/com/verticelabs/pdfprocessor/application/excel/ExcelExportUseCase.java:288 | stripping the edge underscores of a text of [A-Z0-9_] without "__" leaves no underscore at either end |
| ExcelExport.TruncateShape | src/main/java/br/com/verticelabs/pdfprocessor/application/excel/ExcelExportUseCase.java:291-295 | the length limit keeps a cleaned text cleaned and never empties a non-empty one |
| ExcelExport.ReplaceSpaceRunsWithoutSpaces | src/main/java/br/com/verticelabs/pdfprocessor/application/excel/ExcelExportUseCase.java:279 | a text without whitespace is left alone by the whitespace replacement |
| ExcelExport.KeepFileCharsOfFileChars | src/main/java/br/com/verticelabs/pdfprocessor/application/excel/ExcelExportUseCase.java:282 | a text of [A-Z0-9_] is left alone by the special-character removal |
| ExcelExport.CollapseOfNoDouble | src/main/java/br/com/verticelabs/pdfprocessor/application/excel/ExcelExportUseCase.java:285 | a text without "__" is left alone by the underscore collapse |
| ExcelExport.PreparedOfFileName | src/main/java/br/com/verticelabs/pdfprocessor/application/excel/ExcelExportUseCase.java:276 | trimming, upper-casing and removing accents leave a valid file name as it is |
| ExcelExport.RemoveAccentsOfPlain | src/main/java/br/com/verticelabs/pdfprocessor/application/excel/ExcelExportUseCase.java:303-322 | a text of [A-Z0-9_] has no accent to remove |
| ExcelExport.CleanedOfFileName | src/main/java/br/com/verticelabs/pdfprocessor/application/excel/ExcelExportUseCase.java:279-288 | the character rules leave a valid file name as it is |
| ExcelExport.NormalizeNameOfFileName | src/main/java/br/com/verticelabs/pdfprocessor/application/excel/ExcelExportUseCase.java:270-298 | a valid file name passes through normalizeName unchanged |
| ExcelExport.FinishOfFileName | src/main/java/br/com/verticelabs/pdfprocessor/application/excel/ExcelExportUseCase.java:290-297 | the length limit and fallback leave a valid file name as it is |
| ExcelExport.NormalizeNameIdempotent | src/main/java/br/com/verticelabs/pdfprocessor/application/excel/ExcelExportUseCase.java:270-298 | normalizing a normalized name changes nothing |
| ExcelExport.LettersAndDigitsConcat | src/main/java/br/com/verticelabs/pdfprocessor/application/excel/ExcelExportUseCase.java:282 | the letters and digits of a concatenation are those of its parts, in order |
| ExcelExport.ReplaceSpaceRunsKeepsLetters | src/main/java/br/com/verticelabs/pdfprocessor/application/excel/ExcelExportUseCase.java:279 | turning whitespace runs into underscores keeps the letters and digits and never lengthens the text |
| ExcelExport.KeepFileCharsKeepsLetters | src/main/java/br/com/verticelabs/pdfprocessor/application/excel/ExcelExportUseCase.java:282 | removing special characters keeps every ASCII letter and digit |
| ExcelExport.CollapseKeepsLetters | src/main/java/br/com/verticelabs/pdfprocessor/application/excel/ExcelExportUseCase.java:285 | collapsing underscores keeps every letter and digit |
| ExcelExport.StripKeepsLetters | src/main/java/br/com/verticelabs/pdfprocessor/application/excel/ExcelExportUseCase.java:288 | stripping edge underscores keeps every letter and digit |
| ExcelExport.CleanedKeepsLetters | src/main/java/br/com/verticelabs/pdfprocessor/application/excel/ExcelExportUseCase.java:279-288 | the character rules keep exactly the letters and digits of the prepared name, and never lengthen it |
| ExcelExport.CleanedStartsWithLetter | src/main/java/br/com/verticelabs/pdfprocessor/application/excel/ExcelExportUseCase.java:288 | a non-empty cleaned text holds a letter or digit |
| ExcelExport.TruncateKeepsLetters | src/main/java/br/com/verticelabs/pdfprocessor/application/excel/ExcelExportUseCase.java:291-295 | the length limit keeps a non-empty prefix of the letters and digits |
| ExcelExport.FinishKeepsLetters | src/main/java/br/com/verticelabs/pdfprocessor/application/excel/ExcelExportUseCase.java:290-297 | a cleaned text without letters or digits becomes "SEM_NOME"; otherwise the result keeps a non-empty prefix of them, all of them when the text fits in 50 characters |
| ExcelExport.NormalizeNameKeepsLettersAndDigits | src/main/java/br/com/verticelabs/pdfprocessor/application/excel/ExcelExportUseCase.java:270-298 | normalizeName drops only separators and special characters: the result's letters and digits are those of the upper-cased, accent-free name in order, cut only by the 50-character limit, and a name without any becomes "SEM_NOME" |
| ExcelExport.FinishOfCleanedKeepsLetters | src/main/java/br/com/verticelabs/pdfprocessor/application/excel/ExcelExportUseCase.java:279-297 | the same guarantee for the rules after trimming, upper-casing and accent removal, on any text |
| Refresh.FirstIndex | src/main/java/br/com/verticelabs/pdfprocessor/application/auth/RefreshUseCase.java:30-33 | the index found holds the presented token and no earlier element does; nothing is found exactly when no element holds it |
| Refresh.MarkUsed | src/main/java/br/com/verticelabs/pdfprocessor/application/auth/RefreshUseCase.java:44 | the presented element is marked used and every other element is left as it was |
| Refresh.IsUsed | src/main/java/br/com/verticelabs/pdfprocessor/application/auth/RefreshUseCase.java:36 | defines a used token: only an explicit true counts |
| Refresh.Message | src/main/java/br/com/verticelabs/pdfprocessor/application/auth/RefreshUseCase.java:27-40 | defines the three InvalidRefreshTokenException texts: "Refresh token inválido ou expirado", "Refresh token não encontrado" and "Refresh token já foi usado. Logout global por segurança." |
| Refresh.IsExpired | src/main/java/br/com/verticelabs/pdfprocessor/application/auth/RefreshUseCase.java:65 | defines an expired token: its expiry lies before the given instant |
| Refresh.Rotated | src/main/java/br/com/verticelabs/pdfprocessor/application/auth/RefreshUseCase.java:44-65 | defines the list after a rotation: the presented token marked used, the new token appended, expired tokens removed |
| Refresh.NewToken | src/main/java/br/com/verticelabs/pdfprocessor/application/auth/RefreshUseCase.java:54-60 | the new token carries the new UUID, is not used, was created at the clock reading and expires thirty days after the other one |
| Refresh.RemoveExpired | src/main/java/br/com/verticelabs/pdfprocessor/application/auth/RefreshUseCase.java:65 | the tokens kept are exactly the unexpired ones, never more than before |
| Refresh.RemoveExpiredConcat | src/main/java/br/com/verticelabs/pdfprocessor/application/auth/RefreshUseCase.java:65 | removing expired tokens works piecewise on a concatenation, so the order of the list is kept |
| Refresh.RemoveExpiredIdempotent | src/main/java/br/com/verticelabs/pdfprocessor/application/auth/RefreshUseCase.java:65 | removing the expired tokens again at the same instant removes nothing more |
| Refresh.Execute | src/main/java/br/com/verticelabs/pdfprocessor/application/auth/RefreshUseCase.java:25-73 | an unknown token fails with "inválido ou expirado"; a token missing from the user's list fails with "não encontrado" and changes nothing; a used token empties the user's list and fails with "já foi usado"; an unused one is marked used, the new token is appended, the expired ones removed and the new pair returned |
| Refresh.RotationKeepsOnlyLiveTokens | src/main/java/br/com/verticelabs/pdfprocessor/application/auth/RefreshUseCase.java:44-65 | after a rotation no expired token is left, every token is the new one, the presented one marked used or one the user had, and every other unexpired token is kept |
| Refresh.RotationAppendsNewToken | src/main/java/br/com/verticelabs/pdfprocessor/application/auth/RefreshUseCase.java:62-65 | unless already expired at clean-up, the new token ends the list, after the surviving earlier tokens |
| Refresh.IssuedTokenIsFresh | src/main/java/br/com/verticelabs/pdfprocessor/application/auth/RefreshUseCase.java:55-60 | the issued token is unused and, when the clean-up reading is within thirty days of the expiry base, not removed by the clean-up |
| Refresh.RotatedTokenCannotBeReplayed | src/main/java/br/com/verticelabs/pdfprocessor/application/auth/RefreshUseCase.java:36-44 | a token that occurs once cannot be rotated twice: after a rotation it is either gone or marked used |
| MongoAppender.GetAt | src/main/kotlin/br/com/verticelabs/pdfprocessor/infrastructure/logging/MongoAppender.kt:66-78 | Document.get returns the value of the first entry with the key |
| MongoAppender.GetMissing | src/main/kotlin/br/com/verticelabs/pdfprocessor/infrastructure/logging/MongoAppender.kt:66-78 | a key that no entry carries is absent |
| MongoAppender.IsKotlinWhitespace | src/main/kotlin/br/com/verticelabs/pdfprocessor/infrastructure/logging/MongoAppender.kt:30 | defines Kotlin's Char.isWhitespace: the controls TAB to CR and FS to US and the Unicode space, line and paragraph separators |
| MongoAppender.IsBlank | src/main/kotlin/br/com/verticelabs/pdfprocessor/infrastructure/logging/MongoAppender.kt:30 | defines String.isBlank: empty or whitespace only |
| MongoAppender.LevelName | src/main/kotlin/br/com/verticelabs/pdfprocessor/infrastructure/logging/MongoAppender.kt:68 | defines Level.toString for the five levels |
| MongoAppender.NullToText | src/main/kotlin/br/com/verticelabs/pdfprocessor/infrastructure/logging/MongoAppender.kt:74 | defines string concatenation of a null message as "null" |
| MongoAppender.ToDocument | src/main/kotlin/br/com/verticelabs/pdfprocessor/infrastructure/logging/MongoAppender.kt:66-79 | defines the log document: timestamp, level, logger, thread and message, then exception and context when present |
| MongoAppender.ToDocumentEntries | src/main/kotlin/br/com/verticelabs/pdfprocessor/infrastructure/logging/MongoAppender.kt:66-71 | every document has five to seven entries, starting with timestamp, level, logger, thread and message, each holding the event's value |
| MongoAppender.ToDocumentOptionalEntries | src/main/kotlin/br/com/verticelabs/pdfprocessor/infrastructure/logging/MongoAppender.kt:73-79 | "exception" is present exactly when the event has a throwable, holding its class name, ": " and its message ("null" when absent); "context" is present exactly when the diagnostic map is present and not empty |
| MongoAppender.StartSpec | src/main/kotlin/br/com/verticelabs/pdfprocessor/infrastructure/logging/MongoAppender.kt:25-55 | defines what start does: nothing when disabled, an error for a blank URI, an error after a failure with the client kept if it was created, else client, collection, TTL index or its error, and started |
| MongoAppender.StopSpec | src/main/kotlin/br/com/verticelabs/pdfprocessor/infrastructure/logging/MongoAppender.kt:57-60 | defines what stop does: the client, if any, closed and started cleared |
| MongoAppender.AppendSpec | src/main/kotlin/br/com/verticelabs/pdfprocessor/infrastructure/logging/MongoAppender.kt:62-85 | defines what append does: nothing without a collection, else one inserted document or one write error |
| MongoAppender.Appender.Start | src/main/kotlin/br/com/verticelabs/pdfprocessor/infrastructure/logging/MongoAppender.kt:25-55 | the appender's new state is the start transition of its old state for the driver's outcome |
| MongoAppender.Appender.Stop | src/main/kotlin/br/com/verticelabs/pdfprocessor/infrastructure/logging/MongoAppender.kt:57-60 | the new state is the stop transition of the old one |
| MongoAppender.Appender.Append | src/main/kotlin/br/com/verticelabs/pdfprocessor/infrastructure/logging/MongoAppender.kt:62-85 | the new state is the append transition of the old one for the insert's outcome |
| MongoAppender.TransitionsKeepConsistent | src/main/kotlin/br/com/verticelabs/pdfprocessor/infrastructure/logging/MongoAppender.kt:17-85 | a new appender is consistent (a collection only with the client that opened it, started only with a collection, an index only on an opened collection) and start, stop and append keep it so |
| MongoAppender.DisabledStartDoesNothing | src/main/kotlin/br/com/verticelabs/pdfprocessor/infrastructure/logging/MongoAppender.kt:26-28 | a disabled appender's start changes nothing |
| MongoAppender.DisabledAppenderNeverWrites | src/main/kotlin/br/com/verticelabs/pdfprocessor/infrastructure/logging/MongoAppender.kt:26-28 | a new disabled appender, once started, writes no document and reports no error whatever it is asked to append |
| MongoAppender.AppendAllWithoutCollection | src/main/kotlin/br/com/verticelabs/pdfprocessor/infrastructure/logging/MongoAppender.kt:63 | without a collection, appends change nothing |
| MongoAppender.AppendAllWithCollection | src/main/kotlin/br/com/verticelabs/pdfprocessor/infrastructure/logging/MongoAppender.kt:63-84 | with a collection, each append adds exactly one document or exactly one error, earlier documents kept, and the collection stays |
| MongoAppender.BlankUriIsReported | src/main/kotlin/br/com/verticelabs/pdfprocessor/infrastructure/logging/MongoAppender.kt:30-33 | a blank URI reports "MongoDB URI is missing" and leaves started, client and collection as they were |
| MongoAppender.OpenedAppenderStarts | src/main/kotlin/br/com/verticelabs/pdfprocessor/infrastructure/logging/MongoAppender.kt:35-51 | a successful connection opens the configured collection in the URI's database, or "pdfprocessor" when it names none, and starts the appender even when the TTL index fails, which alone is reported |
| MongoAppender.FailedStartIsReported | src/main/kotlin/br/com/verticelabs/pdfprocessor/infrastructure/logging/MongoAppender.kt:52-54 | a failed connection is reported with "Failed to start MongoAppender: " and its message, and does not start the appender |
| MongoAppender.DefaultRetentionIsThirtyDays | src/main/kotlin/br/com/verticelabs/pdfprocessor/infrastructure/logging/MongoAppender.kt:17-19 | with the default settings, an opened appender asks for a TTL index of thirty days on "timestamp" in the "logs" collection |
| MongoAppender.StopKeepsCollection | src/main/kotlin/br/com/verticelabs/pdfprocessor/infrastructure/logging/MongoAppender.kt:57-60 | stop closes the client and clears the started flag but keeps the collection, so a later append still tries to insert |

## Left out

- toUpperCase is modelled on the Basic Latin and Latin-1 ranges only, with the mappings of a locale without special rules; other Unicode case mappings and locale-specific ones (the Turkish dotted capital I for 'i') are not part of this model.
- Integer.parseInt is modelled for ASCII digits only; the other Unicode decimal digits it accepts are left out.
- The two regular-expression searches of MonthYearDetectionServiceImpl (month name and year, year and month number) are represented by their first match, given as input; the regex engine is not modelled.
- Floating-point arithmetic is left out: the Double sums and totals of ConsolidationUseCase and PdfNormalizer.normalizeValue are not part of this model.
- The pay-item values of the spreadsheet totals are exact reals; BigDecimal addition is exact, and the conversion from Double is not modelled.
- A bracket whose lower limit is null makes the source throw a NullPointerException; the model requires the lower limit, so that exception is not modelled.
- SELIC entries with a null taxa, ano or mes are not modelled; the "ano-mes" key of the rate map is the pair (ano, mes), which is injective like the text key.
- YearMonth is modelled with an unbounded year: YearMonth.of and plusMonths throw a DateTimeException when the year leaves -999,999,999 to 999,999,999, and that exception is not modelled.
- calcularSelicMensal, the variant of the SELIC loop that is not the Receita Federal one, is not part of this model.
- Repositories, Reactor orchestration and persistence are abstracted: ConsolidationUseCase receives the entries of the person's documents, already restricted to the valid pay-item codes, and the save steps are not modelled.
- The iteration order of a HashMap is unspecified in Java; the adjustment loop and the grouping by code take it as an arbitrary choice, and only order-independent results are proved.
- A PayrollEntry always has a pay-item code; a null code is not modelled.
- Consolidation.StrLe compares codes character by character as code points; String.compareTo compares UTF-16 units, which orders characters above U+FFFF differently.
- The clock (Instant.now()), the UUID of the new refresh token and the signed JWT are parameters of Refresh.Execute; the token's expiresAt is never null. The expiry cleanup uses one instant for every token, whereas removeIf reads the clock again for each one.
- Refresh tokens are values, so aliasing between the repository's copy and the user's list is not modelled.
- The MongoDB driver (URI parsing, connecting, creating the index, inserting) is replaced by its outcomes, passed as parameters; the started-guard that AppenderBase applies before append, and the Long overflow of retentionDays times 86400, are not modelled.
- DocumentTypeDetection.CaixaScore and DocumentTypeDetection.FuncefScore state only their bounds; the two-marker rule is stated by DocumentTypeDetection.Detect.
- CpfValidation.Verifier states only that the check digit is at most 9; its value is pinned by CpfValidation.CheckDigitsAreDetermined.
- ExcelExport.ReplaceAllOf states only that the length is kept; what it does per character is stated by ExcelExport.ReplaceAllOfPerCharacter.

## Findings

| source | as written | input that shows it | evidently intended | confidence | as-written member | corrected member |
|---|---|---|---|---|---|---|
| src/main/java/br/com/verticelabs/pdfprocessor/infrastructure/pdf/DocumentTypeDetectionServiceImpl.java:55-57 | the FUNCEF logo marker searches the upper-cased text for the literal "FEDERais", which contains lower-case letters and so never occurs | a text with two CAIXA markers plus "FUNCEF", "FUNDACAO DOS ECONOMIARIOS FEDERAIS" and one other FUNCEF marker is classified CAIXA | the marker is "FEDERAIS", and that text is CAIXA_FUNCEF | not executed | DocumentTypeDetection.LogoLiteralLosesFuncef | DocumentTypeDetection.DetectType |
| src/main/java/br/com/verticelabs/pdfprocessor/infrastructure/pdf/DocumentTypeDetectionServiceImpl.java:32-33 | the agency marker uses String.matches with ".*AG[ÊE]NCIA\\s+\\d{4}.*"; matches needs the whole text to fit and "." does not cross a line terminator, so the marker fails whenever a line terminator comes before or after the agency number | "\nAGENCIA 2789" | the marker holds whenever "AGENCIA" or "AGÊNCIA", whitespace and four digits occur anywhere in the text | not executed | DocumentTypeDetection.AgenciaAfterLineBreak | DocumentTypeDetection.DetectType |
