/**
 * ExcelExportUseCase: the worker's name as it appears in the exported file name. The name is
 * trimmed, upper-cased and stripped of Portuguese accents; whitespace runs become "_", every
 * other character outside [A-Z0-9_] is dropped, underscore runs collapse to one, an underscore at
 * either end is removed and the result is cut to 50 characters; an empty outcome is "SEM_NOME".
 */
module ExcelExport {
  import opened Wrappers
  import opened JavaText

  const SemNome: string := "SEM_NOME"
  const MaxLength: nat := 50

  /** One replacement per character of `sources`, each writing `target`. */
  function Entries(sources: string, target: char): (r: seq<(char, char)>)
    ensures |r| == |sources|
    ensures forall j :: 0 <= j < |r| ==> r[j] == (sources[j], target)
  {
    if sources == [] then [] else [(sources[0], target)] + Entries(sources[1..], target)
  }

  /**
   * The replacements of removeAccents, in the order they are applied: each accented letter
   * (upper case first, then lower case) and the plain upper-case letter it becomes.
   */
  const AccentTable: seq<(char, char)> :=
    UpperAccents + LowerAccents

  const UpperAccents: seq<(char, char)> := UpperA + UpperE + UpperI + UpperO + UpperU + UpperC
  const LowerAccents: seq<(char, char)> := LowerA + LowerE + LowerI + LowerO + LowerU + LowerC

  const UpperA: seq<(char, char)> := Entries("\U{00C1}\U{00C0}\U{00C2}\U{00C3}", 'A')
  const UpperE: seq<(char, char)> := Entries("\U{00C9}\U{00C8}\U{00CA}", 'E')
  const UpperI: seq<(char, char)> := Entries("\U{00CD}\U{00CC}\U{00CE}", 'I')
  const UpperO: seq<(char, char)> := Entries("\U{00D3}\U{00D2}\U{00D4}\U{00D5}", 'O')
  const UpperU: seq<(char, char)> := Entries("\U{00DA}\U{00D9}\U{00DB}", 'U')
  const UpperC: seq<(char, char)> := Entries("\U{00C7}", 'C')
  const LowerA: seq<(char, char)> := Entries("\U{00E1}\U{00E0}\U{00E2}\U{00E3}", 'A')
  const LowerE: seq<(char, char)> := Entries("\U{00E9}\U{00E8}\U{00EA}", 'E')
  const LowerI: seq<(char, char)> := Entries("\U{00ED}\U{00EC}\U{00EE}", 'I')
  const LowerO: seq<(char, char)> := Entries("\U{00F3}\U{00F2}\U{00F4}\U{00F5}", 'O')
  const LowerU: seq<(char, char)> := Entries("\U{00FA}\U{00F9}\U{00FB}", 'U')
  const LowerC: seq<(char, char)> := Entries("\U{00E7}", 'C')

  /** Every letter the table rewrites lies above ASCII, and every letter it writes is A-Z. */
  predicate Shaped(table: seq<(char, char)>) {
    forall j :: 0 <= j < |table| ==> table[j].0 >= '\U{00C0}' && 'A' <= table[j].1 <= 'Z'
  }

  lemma ShapedConcat(a: seq<(char, char)>, b: seq<(char, char)>)
    requires Shaped(a) && Shaped(b)
    ensures Shaped(a + b)
  {
    forall j | 0 <= j < |a + b| ensures (a + b)[j].0 >= '\U{00C0}' && 'A' <= (a + b)[j].1 <= 'Z' {
      if j >= |a| {
        assert (a + b)[j] == b[j - |a|];
      }
    }
  }

  /** Entries rewriting characters above ASCII into a letter A-Z are shaped. */
  lemma ShapedEntries(sources: string, target: char)
    requires forall i :: 0 <= i < |sources| ==> sources[i] >= '\U{00C0}'
    requires 'A' <= target <= 'Z'
    ensures Shaped(Entries(sources, target))
  {
  }

  lemma UpperAShape()
    ensures Shaped(UpperA)
  {
    ShapedEntries("\U{00C1}\U{00C0}\U{00C2}\U{00C3}", 'A');
  }

  lemma UpperEShape()
    ensures Shaped(UpperE)
  {
    ShapedEntries("\U{00C9}\U{00C8}\U{00CA}", 'E');
  }

  lemma UpperIShape()
    ensures Shaped(UpperI)
  {
    ShapedEntries("\U{00CD}\U{00CC}\U{00CE}", 'I');
  }

  lemma UpperOShape()
    ensures Shaped(UpperO)
  {
    ShapedEntries("\U{00D3}\U{00D2}\U{00D4}\U{00D5}", 'O');
  }

  lemma UpperUShape()
    ensures Shaped(UpperU)
  {
    ShapedEntries("\U{00DA}\U{00D9}\U{00DB}", 'U');
  }

  lemma UpperCShape()
    ensures Shaped(UpperC)
  {
    ShapedEntries("\U{00C7}", 'C');
  }

  lemma LowerAShape()
    ensures Shaped(LowerA)
  {
    ShapedEntries("\U{00E1}\U{00E0}\U{00E2}\U{00E3}", 'A');
  }

  lemma LowerEShape()
    ensures Shaped(LowerE)
  {
    ShapedEntries("\U{00E9}\U{00E8}\U{00EA}", 'E');
  }

  lemma LowerIShape()
    ensures Shaped(LowerI)
  {
    ShapedEntries("\U{00ED}\U{00EC}\U{00EE}", 'I');
  }

  lemma LowerOShape()
    ensures Shaped(LowerO)
  {
    ShapedEntries("\U{00F3}\U{00F2}\U{00F4}\U{00F5}", 'O');
  }

  lemma LowerUShape()
    ensures Shaped(LowerU)
  {
    ShapedEntries("\U{00FA}\U{00F9}\U{00FB}", 'U');
  }

  lemma LowerCShape()
    ensures Shaped(LowerC)
  {
    ShapedEntries("\U{00E7}", 'C');
  }

  lemma UpperAccentsShape()
    ensures Shaped(UpperAccents)
  {
    UpperAShape();
    UpperEShape();
    UpperIShape();
    UpperOShape();
    UpperUShape();
    UpperCShape();
    ShapedConcat(UpperA, UpperE);
    ShapedConcat(UpperA + UpperE, UpperI);
    ShapedConcat(UpperA + UpperE + UpperI, UpperO);
    ShapedConcat(UpperA + UpperE + UpperI + UpperO, UpperU);
    ShapedConcat(UpperA + UpperE + UpperI + UpperO + UpperU, UpperC);
  }

  lemma LowerAccentsShape()
    ensures Shaped(LowerAccents)
  {
    LowerAShape();
    LowerEShape();
    LowerIShape();
    LowerOShape();
    LowerUShape();
    LowerCShape();
    ShapedConcat(LowerA, LowerE);
    ShapedConcat(LowerA + LowerE, LowerI);
    ShapedConcat(LowerA + LowerE + LowerI, LowerO);
    ShapedConcat(LowerA + LowerE + LowerI + LowerO, LowerU);
    ShapedConcat(LowerA + LowerE + LowerI + LowerO + LowerU, LowerC);
  }

  lemma AccentTableShape()
    ensures Shaped(AccentTable)
  {
    UpperAccentsShape();
    LowerAccentsShape();
    ShapedConcat(UpperAccents, LowerAccents);
  }

  /** The table has an entry for `c`. */
  predicate HasEntry(table: seq<(char, char)>, c: char) {
    exists j :: 0 <= j < |table| && table[j].0 == c
  }

  /** String.replace(from, to) with one-character arguments: every `from` becomes `to`. */
  function ReplaceChar(s: string, from: char, to: char): (r: string)
    ensures |r| == |s|
    ensures forall i :: 0 <= i < |s| ==> r[i] == (if s[i] == from then to else s[i])
  {
    if s == [] then [] else [if s[0] == from then to else s[0]] + ReplaceChar(s[1..], from, to)
  }

  /** The replacements of a table applied one after the other, as the chained replace calls do. */
  function ReplaceAllOf(s: string, table: seq<(char, char)>): (r: string)
    ensures |r| == |s|
    decreases |table|
  {
    if table == [] then s else ReplaceAllOf(ReplaceChar(s, table[0].0, table[0].1), table[1..])
  }

  /** A single character looked up in the table: the target of its first entry, or itself. */
  function Lookup(table: seq<(char, char)>, c: char): char {
    if table == [] then c else if table[0].0 == c then table[0].1 else Lookup(table[1..], c)
  }

  /** No replacement writes a character that some replacement of the table rewrites. */
  predicate TargetsAreFinal(table: seq<(char, char)>) {
    forall i, j :: 0 <= i < |table| && 0 <= j < |table| ==> table[i].1 != table[j].0
  }

  lemma {:induction false} LookupMissing(table: seq<(char, char)>, c: char)
    requires forall j :: 0 <= j < |table| ==> table[j].0 != c
    ensures Lookup(table, c) == c
  {
    if table != [] {
      LookupMissing(table[1..], c);
    }
  }

  /**
   * Applying the replacements in sequence is the same as looking each character up once, as
   * long as no replacement produces a character that a later one would rewrite again.
   */
  lemma {:induction false} ReplaceAllOfPerCharacter(s: string, table: seq<(char, char)>)
    requires TargetsAreFinal(table)
    ensures forall i :: 0 <= i < |s| ==> ReplaceAllOf(s, table)[i] == Lookup(table, s[i])
    decreases |table|
  {
    if table != [] {
      var rest := table[1..];
      assert TargetsAreFinal(rest) by {
        forall i, j | 0 <= i < |rest| && 0 <= j < |rest| ensures rest[i].1 != rest[j].0 {
          assert rest[i] == table[i + 1] && rest[j] == table[j + 1];
        }
      }
      var t := ReplaceChar(s, table[0].0, table[0].1);
      ReplaceAllOfPerCharacter(t, rest);
      forall i | 0 <= i < |s| ensures ReplaceAllOf(s, table)[i] == Lookup(table, s[i]) {
        if s[i] == table[0].0 {
          forall j | 0 <= j < |rest| ensures rest[j].0 != table[0].1 {
            assert rest[j] == table[j + 1];
          }
          LookupMissing(rest, table[0].1);
        }
      }
    }
  }

  /** A letter that removeAccents rewrites. */
  predicate IsAccented(c: char) {
    HasEntry(AccentTable, c)
  }

  /**
   * removeAccents: "" for null; otherwise each of the table's accented letters becomes the
   * plain letter of its entry, every other character is kept, and no accented letter remains.
   */
  function RemoveAccents(text: Option<string>): (r: string)
    ensures text.None? ==> r == []
    ensures text.Some? ==> |r| == |text.value|
    ensures text.Some? ==> forall i :: 0 <= i < |r| ==>
              (IsAccented(text.value[i]) ==> 'A' <= r[i] <= 'Z') && (!IsAccented(text.value[i]) ==> r[i] == text.value[i])
    ensures forall i :: 0 <= i < |r| ==> !IsAccented(r[i])
    ensures text.Some? ==> forall i :: 0 <= i < |r| ==> r[i] == Lookup(AccentTable, text.value[i])
  {
    if text.None? then []
    else
      AccentTableShape();
      ReplaceByShapedTable(text.value, AccentTable);
      ReplaceAllOfPerCharacter(text.value, AccentTable);
      ReplaceAllOf(text.value, AccentTable)
  }

  /**
   * With a table that rewrites only characters above ASCII into letters A-Z, each rewritten
   * character becomes a letter, every other character stays, and none of the rewritten ones
   * remains.
   */
  lemma ReplaceByShapedTable(s: string, table: seq<(char, char)>)
    requires Shaped(table)
    ensures forall i :: 0 <= i < |s| ==> (HasEntry(table, s[i]) ==> 'A' <= ReplaceAllOf(s, table)[i] <= 'Z')
    ensures forall i :: 0 <= i < |s| ==> (!HasEntry(table, s[i]) ==> ReplaceAllOf(s, table)[i] == s[i])
    ensures forall i :: 0 <= i < |s| ==> !HasEntry(table, ReplaceAllOf(s, table)[i])
  {
    var r := ReplaceAllOf(s, table);
    assert TargetsAreFinal(table);
    ReplaceAllOfPerCharacter(s, table);
    forall i | 0 <= i < |s|
      ensures HasEntry(table, s[i]) ==> 'A' <= r[i] <= 'Z'
      ensures !HasEntry(table, s[i]) ==> r[i] == s[i]
      ensures !HasEntry(table, r[i])
    {
      if HasEntry(table, s[i]) {
        var j :| 0 <= j < |table| && table[j].0 == s[i];
        LookupHitsFirstEntry(table, s[i], j);
      } else {
        LookupMissing(table, s[i]);
      }
    }
  }

  /** Characters below U+00C0 have no accent to remove. */
  lemma BelowLatinLettersNotAccented(c: char)
    requires c < '\U{00C0}'
    ensures !IsAccented(c)
  {
    AccentTableShape();
  }

  /** A character with an entry is looked up to the target of some entry. */
  lemma {:induction false} LookupHitsFirstEntry(table: seq<(char, char)>, c: char, j: nat)
    requires j < |table| && table[j].0 == c
    ensures exists k :: 0 <= k < |table| && Lookup(table, c) == table[k].1
  {
    if table[0].0 != c {
      LookupHitsFirstEntry(table[1..], c, j - 1);
      var k :| 0 <= k < |table[1..]| && Lookup(table[1..], c) == table[1..][k].1;
      assert table[k + 1] == table[1..][k];
    }
  }

  /** The characters a file name may hold: `[A-Z0-9_]`. */
  predicate IsFileChar(c: char) {
    'A' <= c <= 'Z' || '0' <= c <= '9' || c == '_'
  }

  /** Every character of the text is one of `[A-Z0-9_]`. */
  predicate AllFileChars(s: string) {
    forall i :: 0 <= i < |s| ==> IsFileChar(s[i])
  }

  predicate IsLetterOrDigit(c: char) {
    'A' <= c <= 'Z' || '0' <= c <= '9'
  }

  /** `replaceAll("[^A-Z0-9_]", "")`: the characters of `[A-Z0-9_]`, in order. */
  function KeepFileChars(s: string): (r: string)
    ensures |r| <= |s|
    ensures AllFileChars(r)
  {
    if s == [] then [] else (if IsFileChar(s[0]) then [s[0]] else []) + KeepFileChars(s[1..])
  }

  /** The ASCII letters and digits of a text, in order: the content a file name keeps. */
  function LettersAndDigits(s: string): (r: string)
    ensures |r| <= |s|
    ensures forall i :: 0 <= i < |r| ==> IsLetterOrDigit(r[i])
  {
    if s == [] then [] else (if IsLetterOrDigit(s[0]) then [s[0]] else []) + LettersAndDigits(s[1..])
  }

  /** No two underscores in a row: the text does not contain "__". */
  predicate NoDoubleUnderscore(s: string) {
    forall i :: 0 <= i < |s| - 1 ==> s[i] != '_' || s[i + 1] != '_'
  }

  /** The longest suffix of `s` that does not start with an underscore. */
  function DropUnderscores(s: string): (r: string)
    ensures |r| <= |s| && r == s[|s| - |r|..]
    ensures r == [] || r[0] != '_'
    ensures forall i :: 0 <= i < |s| - |r| ==> s[i] == '_'
  {
    if |s| > 0 && s[0] == '_' then DropUnderscores(s[1..]) else s
  }

  /**
   * `replaceAll("_{2,}", "_")`: every run of underscores becomes one. A non-empty text keeps
   * its first character, or at least its first underscore.
   */
  function CollapseUnderscores(s: string): (r: string)
    ensures |r| <= |s|
    ensures s != [] ==> r != [] && (r[0] == '_' <==> s[0] == '_') && (s[0] != '_' ==> r[0] == s[0])
    decreases |s|
  {
    if s == [] then []
    else if s[0] == '_' then "_" + CollapseUnderscores(DropUnderscores(s[1..]))
    else [s[0]] + CollapseUnderscores(s[1..])
  }

  /** Collapsing a text of file characters writes only file characters. */
  lemma {:induction false} CollapseKeepsFileChars(s: string)
    requires AllFileChars(s)
    ensures AllFileChars(CollapseUnderscores(s))
    decreases |s|
  {
    if s != [] {
      var t := if s[0] == '_' then DropUnderscores(s[1..]) else s[1..];
      assert AllFileChars(t) by {
        forall i | 0 <= i < |t| ensures IsFileChar(t[i]) {
          assert t[i] == s[|s| - |t| + i];
        }
      }
      CollapseKeepsFileChars(t);
      var r := CollapseUnderscores(s);
      assert r == [if s[0] == '_' then '_' else s[0]] + CollapseUnderscores(t);
    }
  }

  /** After collapsing, no two underscores are adjacent. */
  lemma {:induction false} CollapseLeavesNoDouble(s: string)
    ensures NoDoubleUnderscore(CollapseUnderscores(s))
    decreases |s|
  {
    if s != [] {
      var t := if s[0] == '_' then DropUnderscores(s[1..]) else s[1..];
      CollapseLeavesNoDouble(t);
      var tail := CollapseUnderscores(t);
      var r := [if s[0] == '_' then '_' else s[0]] + tail;
      assert r == CollapseUnderscores(s);
      forall i | 0 <= i < |r| - 1 ensures r[i] != '_' || r[i + 1] != '_' {
        assert r[i + 1] == tail[i];
        if i > 0 {
          assert r[i] == tail[i - 1];
        }
      }
    }
  }

  /** `replaceAll("^_|_$", "")`: one underscore at the start and one at the end are removed. */
  function StripEdgeUnderscores(s: string): (r: string)
    ensures |r| <= |s|
  {
    var a := if s != [] && s[0] == '_' then s[1..] else s;
    if a != [] && a[|a| - 1] == '_' then a[..|a| - 1] else a
  }

  /** `replaceAll("_$", "")`: one underscore at the end is removed. */
  function DropTrailingUnderscore(s: string): (r: string)
    ensures |r| <= |s| && r == s[..|r|]
  {
    if s != [] && s[|s| - 1] == '_' then s[..|s| - 1] else s
  }

  /** The length limit: more than 50 characters are cut to 50, then a final underscore goes. */
  function Truncate(s: string): (r: string)
    ensures |r| <= MaxLength
    ensures |s| <= MaxLength ==> r == s
  {
    if |s| > MaxLength then DropTrailingUnderscore(s[..MaxLength]) else s
  }

  /** The trimmed, upper-cased name without accents: where the character rules start. */
  function Prepared(nome: string): string {
    RemoveAccents(Some(ToUpper(Trim(nome))))
  }

  /** The character rules of normalizeName, before the length limit. */
  function Cleaned(p: string): string {
    StripEdgeUnderscores(CollapseUnderscores(KeepFileChars(ReplaceSpaceRuns(p, "_"))))
  }

  /**
   * What normalizeName guarantees of its result: 1 to 50 characters of [A-Z0-9_], no "__",
   * and no underscore at either end.
   */
  predicate IsFileName(r: string) {
    && 1 <= |r| <= MaxLength
    && AllFileChars(r)
    && NoDoubleUnderscore(r)
    && r[0] != '_' && r[|r| - 1] != '_'
  }

  /** normalizeName: "SEM_NOME" for a null or blank name, otherwise the rules above. */
  function NormalizeName(nome: Option<string>): (r: string)
    ensures nome.None? || IsTrimBlank(nome.value) ==> r == SemNome
    ensures IsFileName(r)
  {
    if nome.None? || IsTrimBlank(nome.value) then
      SemNomeIsFileName();
      SemNome
    else
      CleanedShape(Prepared(nome.value));
      Finish(Cleaned(Prepared(nome.value)))
  }

  /** The length limit, then "SEM_NOME" for an empty outcome. */
  function Finish(c: string): (r: string)
    requires IsCleaned(c)
    ensures IsFileName(r)
  {
    var t := Truncate(c);
    TruncateShape(c);
    if t == [] then
      SemNomeIsFileName();
      SemNome
    else t
  }

  lemma SemNomeIsFileName()
    ensures IsFileName(SemNome)
  {
  }

  /** A text of file characters without "__" and without underscores at its ends. */
  predicate IsCleaned(c: string) {
    && AllFileChars(c)
    && NoDoubleUnderscore(c)
    && (c == [] || (c[0] != '_' && c[|c| - 1] != '_'))
  }

  /** The character rules leave only file characters, no "__" and no underscore at either end. */
  lemma CleanedShape(p: string)
    ensures IsCleaned(Cleaned(p))
  {
    var k := KeepFileChars(ReplaceSpaceRuns(p, "_"));
    var m := CollapseUnderscores(k);
    CollapseLeavesNoDouble(k);
    CollapseKeepsFileChars(k);
    StripKeepsShape(m);
  }

  lemma StripKeepsShape(m: string)
    requires AllFileChars(m)
    requires NoDoubleUnderscore(m)
    ensures IsCleaned(StripEdgeUnderscores(m))
  {
    var a := if m != [] && m[0] == '_' then m[1..] else m;
    assert a == [] || a[0] != '_' by {
      if m != [] && m[0] == '_' && a != [] {
        assert a[0] == m[1];
      }
    }
    assert NoDoubleUnderscore(a) by {
      if m != [] && m[0] == '_' {
        forall i | 0 <= i < |a| - 1 ensures a[i] != '_' || a[i + 1] != '_' {
          assert a[i] == m[i + 1] && a[i + 1] == m[i + 2];
        }
      }
    }
    if a != [] && a[|a| - 1] == '_' {
      var b := a[..|a| - 1];
      if b != [] {
        assert b[|b| - 1] == a[|a| - 2];
        assert b[0] == a[0];
      }
    }
  }

  /** The length limit keeps a cleaned text cleaned and never leaves a non-empty one empty. */
  lemma TruncateShape(c: string)
    requires IsCleaned(c)
    ensures IsCleaned(Truncate(c))
    ensures c != [] ==> Truncate(c) != []
  {
    if |c| > MaxLength {
      var h := c[..MaxLength];
      assert h[0] == c[0];
      var r := DropTrailingUnderscore(h);
      if h[MaxLength - 1] == '_' {
        assert r[|r| - 1] == c[MaxLength - 2];
        assert c[MaxLength - 2] != '_';
      }
    }
  }

  /** A text without whitespace is left alone by `replaceAll("\\s+", "_")`. */
  lemma {:induction false} ReplaceSpaceRunsWithoutSpaces(s: string)
    requires forall i :: 0 <= i < |s| ==> !IsRegexSpace(s[i])
    ensures ReplaceSpaceRuns(s, "_") == s
  {
    if s != [] {
      ReplaceSpaceRunsWithoutSpaces(s[1..]);
      assert [s[0]] + s[1..] == s;
    }
  }

  lemma {:induction false} KeepFileCharsOfFileChars(s: string)
    requires forall i :: 0 <= i < |s| ==> IsFileChar(s[i])
    ensures KeepFileChars(s) == s
  {
    if s != [] {
      KeepFileCharsOfFileChars(s[1..]);
      assert [s[0]] + s[1..] == s;
    }
  }

  lemma {:induction false} CollapseOfNoDouble(s: string)
    requires NoDoubleUnderscore(s)
    ensures CollapseUnderscores(s) == s
  {
    if s != [] {
      assert NoDoubleUnderscore(s[1..]) by {
        forall i | 0 <= i < |s[1..]| - 1 ensures s[1..][i] != '_' || s[1..][i + 1] != '_' {
          assert s[1..][i] == s[i + 1] && s[1..][i + 1] == s[i + 2];
        }
      }
      CollapseOfNoDouble(s[1..]);
      if s[0] == '_' {
        assert s[1..] == [] || s[1..][0] == s[1];
        assert DropUnderscores(s[1..]) == s[1..];
      }
      assert [s[0]] + s[1..] == s;
    }
  }

  /** Trimming, upper-casing and removing accents leave a file name as it is. */
  lemma PreparedOfFileName(s: string)
    requires IsFileName(s)
    ensures !IsTrimBlank(s)
    ensures Prepared(s) == s
  {
    UpperTrimOfFileName(s);
    assert Prepared(s) == RemoveAccents(Some(s));
    RemoveAccentsOfPlain(s);
  }

  lemma UpperTrimOfFileName(s: string)
    requires IsFileName(s)
    ensures !IsTrimBlank(s)
    ensures ToUpper(Trim(s)) == s
  {
    TrimOfFileName(s);
    forall i | 0 <= i < |s| ensures UpperChar(s[i]) == [s[i]] {
      UpperCharOfFileChar(s[i]);
    }
    ToUpperOfUpper(s);
  }

  lemma TrimOfFileName(s: string)
    requires IsFileName(s)
    ensures Trim(s) == s && s != []
  {
    assert IsFileChar(s[0]) && IsFileChar(s[|s| - 1]);
    TrimOfTrimmed(s);
  }

  lemma UpperCharOfFileChar(c: char)
    requires IsFileChar(c)
    ensures UpperChar(c) == [c]
  {
  }

  /** A text of file characters has no accent to remove. */
  lemma RemoveAccentsOfPlain(s: string)
    requires AllFileChars(s)
    ensures RemoveAccents(Some(s)) == s
  {
    var p := RemoveAccents(Some(s));
    forall i | 0 <= i < |s| ensures p[i] == s[i] {
      BelowLatinLettersNotAccented(s[i]);
    }
  }

  /** The character rules leave a file name as it is. */
  lemma CleanedOfFileName(s: string)
    requires IsFileName(s)
    ensures Cleaned(s) == s
  {
    ReplaceSpaceRunsWithoutSpaces(s);
    KeepFileCharsOfFileChars(s);
    CollapseOfNoDouble(s);
  }

  /** A file name passes through normalizeName unchanged. */
  lemma NormalizeNameOfFileName(s: string)
    requires IsFileName(s)
    ensures NormalizeName(Some(s)) == s
  {
    PreparedOfFileName(s);
    CleanedOfFileName(s);
    FinishOfFileName(s);
  }

  lemma FinishOfFileName(s: string)
    requires IsFileName(s)
    ensures IsCleaned(s) && Finish(s) == s
  {
  }

  /** Normalizing a normalized name changes nothing. */
  lemma NormalizeNameIdempotent(nome: Option<string>)
    ensures NormalizeName(Some(NormalizeName(nome))) == NormalizeName(nome)
  {
    NormalizeNameOfFileName(NormalizeName(nome));
  }

  // Letters and digits survive every rule.

  lemma {:induction false} LettersAndDigitsConcat(a: string, b: string)
    ensures LettersAndDigits(a + b) == LettersAndDigits(a) + LettersAndDigits(b)
  {
    if a == [] {
      assert a + b == b;
    } else {
      assert (a + b)[0] == a[0];
      assert (a + b)[1..] == a[1..] + b;
      LettersAndDigitsConcat(a[1..], b);
    }
  }

  lemma {:induction false} LettersAndDigitsDropSpaces(s: string)
    ensures LettersAndDigits(DropSpaces(s)) == LettersAndDigits(s)
  {
    if |s| > 0 && IsRegexSpace(s[0]) {
      LettersAndDigitsDropSpaces(s[1..]);
    }
  }

  lemma {:induction false} LettersAndDigitsDropUnderscores(s: string)
    ensures LettersAndDigits(DropUnderscores(s)) == LettersAndDigits(s)
  {
    if |s| > 0 && s[0] == '_' {
      LettersAndDigitsDropUnderscores(s[1..]);
    }
  }

  lemma {:induction false} ReplaceSpaceRunsKeepsLetters(s: string)
    ensures LettersAndDigits(ReplaceSpaceRuns(s, "_")) == LettersAndDigits(s)
    ensures |ReplaceSpaceRuns(s, "_")| <= |s|
    decreases |s|
  {
    if s != [] {
      var t := if IsRegexSpace(s[0]) then DropSpaces(s[1..]) else s[1..];
      ReplaceSpaceRunsKeepsLetters(t);
      var h := if IsRegexSpace(s[0]) then "_" else [s[0]];
      assert ReplaceSpaceRuns(s, "_") == h + ReplaceSpaceRuns(t, "_");
      LettersAndDigitsConcat(h, ReplaceSpaceRuns(t, "_"));
      if IsRegexSpace(s[0]) {
        LettersAndDigitsDropSpaces(s[1..]);
      }
    }
  }

  lemma {:induction false} KeepFileCharsKeepsLetters(s: string)
    ensures LettersAndDigits(KeepFileChars(s)) == LettersAndDigits(s)
  {
    if s != [] {
      KeepFileCharsKeepsLetters(s[1..]);
      var h := if IsFileChar(s[0]) then [s[0]] else [];
      LettersAndDigitsConcat(h, KeepFileChars(s[1..]));
    }
  }

  lemma {:induction false} CollapseKeepsLetters(s: string)
    ensures LettersAndDigits(CollapseUnderscores(s)) == LettersAndDigits(s)
    decreases |s|
  {
    if s != [] {
      var t := if s[0] == '_' then DropUnderscores(s[1..]) else s[1..];
      CollapseKeepsLetters(t);
      LettersAndDigitsConcat([s[0]], CollapseUnderscores(t));
      if s[0] == '_' {
        LettersAndDigitsDropUnderscores(s[1..]);
      }
    }
  }

  lemma StripKeepsLetters(s: string)
    ensures LettersAndDigits(StripEdgeUnderscores(s)) == LettersAndDigits(s)
  {
    var a := if s != [] && s[0] == '_' then s[1..] else s;
    assert LettersAndDigits(a) == LettersAndDigits(s);
    if a != [] && a[|a| - 1] == '_' {
      LettersAndDigitsConcat(a[..|a| - 1], [a[|a| - 1]]);
      assert a[..|a| - 1] + [a[|a| - 1]] == a;
    }
  }

  /** The letters and digits of the cleaned text are those of the prepared name. */
  lemma CleanedKeepsLetters(p: string)
    ensures LettersAndDigits(Cleaned(p)) == LettersAndDigits(p)
    ensures |Cleaned(p)| <= |p|
  {
    var w := ReplaceSpaceRuns(p, "_");
    ReplaceSpaceRunsKeepsLetters(p);
    KeepFileCharsKeepsLetters(w);
    CollapseKeepsLetters(KeepFileChars(w));
    StripKeepsLetters(CollapseUnderscores(KeepFileChars(w)));
  }

  /** A non-empty cleaned text starts with a letter or digit. */
  lemma CleanedStartsWithLetter(c: string)
    requires IsCleaned(c) && c != []
    ensures LettersAndDigits(c) != []
  {
    assert IsLetterOrDigit(c[0]);
    assert LettersAndDigits(c) == [c[0]] + LettersAndDigits(c[1..]);
  }

  /** The length limit keeps a prefix of the letters and digits, and at least one of them. */
  lemma TruncateKeepsLetters(c: string)
    requires IsCleaned(c) && c != []
    ensures LettersAndDigits(Truncate(c)) != []
    ensures LettersAndDigits(Truncate(c)) <= LettersAndDigits(c)
  {
    TruncateShape(c);
    CleanedStartsWithLetter(Truncate(c));
    if |c| > MaxLength {
      var h := c[..MaxLength];
      LettersAndDigitsConcat(h, c[MaxLength..]);
      assert h + c[MaxLength..] == c;
      var r := DropTrailingUnderscore(h);
      if r != h {
        LettersAndDigitsConcat(r, [h[|h| - 1]]);
        assert r + [h[|h| - 1]] == h;
      }
    }
  }

  /** What the length limit and the "SEM_NOME" fallback do to the letters and digits. */
  lemma FinishKeepsLetters(c: string)
    requires IsCleaned(c)
    ensures LettersAndDigits(c) == [] ==> Finish(c) == SemNome
    ensures LettersAndDigits(c) != [] ==>
              LettersAndDigits(Finish(c)) != [] && LettersAndDigits(Finish(c)) <= LettersAndDigits(c)
    ensures LettersAndDigits(c) != [] && |c| <= MaxLength ==> LettersAndDigits(Finish(c)) == LettersAndDigits(c)
  {
    if c != [] {
      CleanedStartsWithLetter(c);
      TruncateKeepsLetters(c);
      TruncateShape(c);
    }
  }

  /**
   * normalizeName removes separators and special characters only: the letters and digits of
   * the result are those of the upper-cased, accent-free name, in order, cut short only by the
   * 50-character limit; a name with none of them becomes "SEM_NOME".
   */
  lemma NormalizeNameKeepsLettersAndDigits(nome: string)
    requires !IsTrimBlank(nome)
    ensures var p, r := Prepared(nome), NormalizeName(Some(nome));
            && (LettersAndDigits(p) == [] ==> r == SemNome)
            && (LettersAndDigits(p) != [] ==> LettersAndDigits(r) != [] && LettersAndDigits(r) <= LettersAndDigits(p))
            && (LettersAndDigits(p) != [] && |p| <= MaxLength ==> LettersAndDigits(r) == LettersAndDigits(p))
  {
    var p := Prepared(nome);
    assert NormalizeName(Some(nome)) == Finish(Cleaned(p)) by {
      CleanedShape(p);
    }
    FinishOfCleanedKeepsLetters(p);
  }

  /** The letters-and-digits guarantee for the rules after preparation, on any text. */
  lemma FinishOfCleanedKeepsLetters(p: string)
    ensures IsCleaned(Cleaned(p))
    ensures var r := Finish(Cleaned(p));
            && (LettersAndDigits(p) == [] ==> r == SemNome)
            && (LettersAndDigits(p) != [] ==> LettersAndDigits(r) != [] && LettersAndDigits(r) <= LettersAndDigits(p))
            && (LettersAndDigits(p) != [] && |p| <= MaxLength ==> LettersAndDigits(r) == LettersAndDigits(p))
  {
    CleanedShape(p);
    CleanedKeepsLetters(p);
    FinishKeepsLetters(Cleaned(p));
  }

  /** What separates two words of the prepared name: a `\s` character or an underscore. */
  predicate IsSeparator(c: char) {
    IsRegexSpace(c) || c == '_'
  }

  /** `s` holds a whitespace character or an underscore. */
  predicate HasSeparator(s: string) {
    exists i :: 0 <= i < |s| && IsSeparator(s[i])
  }

  /**
   * The file name read word by word, left to right: letters and digits are copied, one
   * underscore goes between two of them when a separator came in between, separators before the
   * first and after the last write nothing, and every other character is dropped. `started`:
   * a letter or digit has been written; `pending`: a separator followed it.
   */
  function Words(s: string, started: bool, pending: bool): string {
    if s == [] then []
    else if IsLetterOrDigit(s[0]) then (if pending then "_" else []) + [s[0]] + Words(s[1..], true, false)
    else if IsSeparator(s[0]) then Words(s[1..], started, started)
    else Words(s[1..], started, pending)
  }

  /** The reading's state after `s`: whether a letter or digit was written, whether a separator is pending. */
  function WordsState(s: string, started: bool, pending: bool): (bool, bool) {
    if s == [] then (started, pending)
    else if IsLetterOrDigit(s[0]) then WordsState(s[1..], true, false)
    else if IsSeparator(s[0]) then WordsState(s[1..], started, started)
    else WordsState(s[1..], started, pending)
  }

  /** The reading of a concatenation is the reading of its parts, the state carried across. */
  lemma {:induction false} WordsConcat(a: string, b: string, started: bool, pending: bool)
    ensures var st := WordsState(a, started, pending);
            Words(a + b, started, pending) == Words(a, started, pending) + Words(b, st.0, st.1)
  {
    if a == [] {
      assert a + b == b;
    } else {
      assert (a + b)[0] == a[0];
      assert (a + b)[1..] == a[1..] + b;
      if IsLetterOrDigit(a[0]) {
        WordsConcat(a[1..], b, true, false);
      } else if IsSeparator(a[0]) {
        WordsConcat(a[1..], b, started, started);
      } else {
        WordsConcat(a[1..], b, started, pending);
      }
    }
  }

  /** A text without letters or digits writes nothing and leaves a separator pending if it holds one. */
  lemma {:induction false} WordsWithoutLetters(s: string, pending: bool)
    requires forall i :: 0 <= i < |s| ==> !IsLetterOrDigit(s[i])
    ensures Words(s, true, pending) == []
    ensures WordsState(s, true, pending) == (true, pending || HasSeparator(s))
  {
    if s != [] {
      var t := s[1..];
      WordsWithoutLetters(t, pending || IsSeparator(s[0]));
      if exists i :: 0 <= i < |t| && IsSeparator(t[i]) {
        var i :| 0 <= i < |t| && IsSeparator(t[i]);
        assert s[i + 1] == t[i];
      }
      if exists i :: 0 <= i < |s| && IsSeparator(s[i]) {
        var i :| 0 <= i < |s| && IsSeparator(s[i]);
        if i > 0 {
          assert t[i - 1] == s[i];
        }
      }
    }
  }

  /**
   * Two letters or digits of the name with no letter or digit between them come out adjacent
   * when only dropped characters separate them, and with exactly one underscore between them
   * when a whitespace character or an underscore does.
   */
  lemma WordsSeparation(pre: string, x: char, mid: string, y: char, post: string)
    requires IsLetterOrDigit(x) && IsLetterOrDigit(y)
    requires forall i :: 0 <= i < |mid| ==> !IsLetterOrDigit(mid[i])
    ensures Words(pre + [x] + mid + [y] + post, false, false) ==
            Words(pre + [x], false, false) +
            (if HasSeparator(mid) then "_" else []) +
            [y] + Words(post, true, false)
  {
    var a := pre + [x];
    var b := mid + ([y] + post);
    assert pre + [x] + mid + [y] + post == a + b;
    var st := WordsState(a, false, false);
    WordsConcat(a, b, false, false);
    assert Words(a + b, false, false) == Words(a, false, false) + Words(b, st.0, st.1);
    StateAfterLetter(pre, x);
    assert st == (true, false);
    WordsAcrossGap(mid, y, post);
  }

  /** A letter or digit at the end leaves the reading started with nothing pending. */
  lemma StateAfterLetter(pre: string, x: char)
    requires IsLetterOrDigit(x)
    ensures WordsState(pre + [x], false, false) == (true, false)
  {
    WordsStateConcat(pre, [x], false, false);
  }

  /** After a letter or digit, a gap without letters or digits writes one underscore if it holds a separator. */
  lemma WordsAcrossGap(mid: string, y: char, post: string)
    requires IsLetterOrDigit(y)
    requires forall i :: 0 <= i < |mid| ==> !IsLetterOrDigit(mid[i])
    ensures Words(mid + ([y] + post), true, false) ==
            (if HasSeparator(mid) then "_" else []) + [y] + Words(post, true, false)
  {
    WordsConcat(mid, [y] + post, true, false);
    WordsWithoutLetters(mid, false);
    assert ([y] + post)[0] == y && ([y] + post)[1..] == post;
  }

  lemma {:induction false} WordsStateConcat(a: string, b: string, started: bool, pending: bool)
    ensures var st := WordsState(a, started, pending);
            WordsState(a + b, started, pending) == WordsState(b, st.0, st.1)
  {
    if a == [] {
      assert a + b == b;
    } else {
      assert (a + b)[0] == a[0];
      assert (a + b)[1..] == a[1..] + b;
      if IsLetterOrDigit(a[0]) {
        WordsStateConcat(a[1..], b, true, false);
      } else if IsSeparator(a[0]) {
        WordsStateConcat(a[1..], b, started, started);
      } else {
        WordsStateConcat(a[1..], b, started, pending);
      }
    }
  }

  /** Inside a run of whitespace, the rest of the run changes nothing. */
  lemma {:induction false} WordsDropSpaces(t: string, started: bool)
    ensures Words(t, started, started) == Words(DropSpaces(t), started, started)
  {
    if t != [] && IsRegexSpace(t[0]) {
      WordsDropSpaces(t[1..], started);
    }
  }

  /** Inside a run of underscores, the rest of the run changes nothing. */
  lemma {:induction false} WordsDropUnderscores(t: string, started: bool)
    ensures Words(t, started, started) == Words(DropUnderscores(t), started, started)
  {
    if t != [] && t[0] == '_' {
      WordsDropUnderscores(t[1..], started);
    }
  }

  /** Whitespace runs becoming underscores does not change the reading. */
  lemma {:induction false} WordsOfReplaceSpaceRuns(p: string, started: bool, pending: bool)
    ensures Words(ReplaceSpaceRuns(p, "_"), started, pending) == Words(p, started, pending)
    decreases |p|
  {
    if p != [] {
      if IsRegexSpace(p[0]) {
        var d := DropSpaces(p[1..]);
        var x := ReplaceSpaceRuns(d, "_");
        assert ReplaceSpaceRuns(p, "_") == "_" + x;
        assert ("_" + x)[0] == '_' && ("_" + x)[1..] == x;
        WordsOfReplaceSpaceRuns(d, started, started);
        WordsDropSpaces(p[1..], started);
      } else {
        var x := ReplaceSpaceRuns(p[1..], "_");
        assert ReplaceSpaceRuns(p, "_") == [p[0]] + x;
        assert ([p[0]] + x)[0] == p[0] && ([p[0]] + x)[1..] == x;
        if IsLetterOrDigit(p[0]) {
          WordsOfReplaceSpaceRuns(p[1..], true, false);
        } else if IsSeparator(p[0]) {
          WordsOfReplaceSpaceRuns(p[1..], started, started);
        } else {
          WordsOfReplaceSpaceRuns(p[1..], started, pending);
        }
      }
    }
  }

  /** After the whitespace replacement no `\s` character is left. */
  lemma {:induction false} ReplaceSpaceRunsLeavesNoSpace(p: string)
    ensures forall i :: 0 <= i < |ReplaceSpaceRuns(p, "_")| ==> !IsRegexSpace(ReplaceSpaceRuns(p, "_")[i])
    decreases |p|
  {
    if p != [] {
      var rest := if IsRegexSpace(p[0]) then DropSpaces(p[1..]) else p[1..];
      ReplaceSpaceRunsLeavesNoSpace(rest);
      var x := ReplaceSpaceRuns(rest, "_");
      var h := if IsRegexSpace(p[0]) then '_' else p[0];
      assert ReplaceSpaceRuns(p, "_") == [h] + x;
      forall i | 0 <= i < |[h] + x| ensures !IsRegexSpace(([h] + x)[i]) {
        if i > 0 {
          assert ([h] + x)[i] == x[i - 1];
        }
      }
    }
  }

  /** Dropping the characters outside [A-Z0-9_] does not change the reading of a text without `\s`. */
  lemma {:induction false} WordsOfKeepFileChars(q: string, started: bool, pending: bool)
    requires forall i :: 0 <= i < |q| ==> !IsRegexSpace(q[i])
    ensures Words(KeepFileChars(q), started, pending) == Words(q, started, pending)
  {
    if q != [] {
      assert !IsRegexSpace(q[0]);
      var x := KeepFileChars(q[1..]);
      assert forall i :: 0 <= i < |q[1..]| ==> !IsRegexSpace(q[1..][i]) by {
        forall i | 0 <= i < |q[1..]| ensures !IsRegexSpace(q[1..][i]) {
          assert q[1..][i] == q[i + 1];
        }
      }
      if IsFileChar(q[0]) {
        assert KeepFileChars(q) == [q[0]] + x;
        assert ([q[0]] + x)[0] == q[0] && ([q[0]] + x)[1..] == x;
      } else {
        assert KeepFileChars(q) == x;
      }
      if IsLetterOrDigit(q[0]) {
        WordsOfKeepFileChars(q[1..], true, false);
      } else if IsSeparator(q[0]) {
        WordsOfKeepFileChars(q[1..], started, started);
      } else {
        WordsOfKeepFileChars(q[1..], started, pending);
      }
    }
  }

  /** Collapsing underscore runs does not change the reading. */
  lemma {:induction false} WordsOfCollapse(k: string, started: bool, pending: bool)
    ensures Words(CollapseUnderscores(k), started, pending) == Words(k, started, pending)
    decreases |k|
  {
    if k != [] {
      if k[0] == '_' {
        var d := DropUnderscores(k[1..]);
        var x := CollapseUnderscores(d);
        assert CollapseUnderscores(k) == "_" + x;
        assert ("_" + x)[0] == '_' && ("_" + x)[1..] == x;
        WordsOfCollapse(d, started, started);
        WordsDropUnderscores(k[1..], started);
      } else {
        var x := CollapseUnderscores(k[1..]);
        assert CollapseUnderscores(k) == [k[0]] + x;
        assert ([k[0]] + x)[0] == k[0] && ([k[0]] + x)[1..] == x;
        if IsLetterOrDigit(k[0]) {
          WordsOfCollapse(k[1..], true, false);
        } else if IsSeparator(k[0]) {
          WordsOfCollapse(k[1..], started, started);
        } else {
          WordsOfCollapse(k[1..], started, pending);
        }
      }
    }
  }

  /** A separator at the end writes nothing. */
  lemma {:induction false} WordsTrailingSeparator(a: string, started: bool, pending: bool)
    ensures Words(a + "_", started, pending) == Words(a, started, pending)
  {
    if a == [] {
      assert a + "_" == "_";
    } else {
      assert (a + "_")[0] == a[0];
      assert (a + "_")[1..] == a[1..] + "_";
      if IsLetterOrDigit(a[0]) {
        WordsTrailingSeparator(a[1..], true, false);
      } else if IsSeparator(a[0]) {
        WordsTrailingSeparator(a[1..], started, started);
      } else {
        WordsTrailingSeparator(a[1..], started, pending);
      }
    }
  }

  /** Removing an underscore at either end does not change the reading from the start. */
  lemma WordsOfStrip(m: string)
    ensures Words(StripEdgeUnderscores(m), false, false) == Words(m, false, false)
  {
    var a := if m != [] && m[0] == '_' then m[1..] else m;
    assert Words(a, false, false) == Words(m, false, false);
    if a != [] && a[|a| - 1] == '_' {
      assert a == a[..|a| - 1] + "_";
      WordsTrailingSeparator(a[..|a| - 1], false, false);
    }
  }

  /** A cleaned text reads as itself. */
  lemma {:induction false} WordsOfCleaned(c: string, started: bool)
    requires AllFileChars(c) && NoDoubleUnderscore(c)
    requires c == [] || c[|c| - 1] != '_'
    requires !started ==> c == [] || c[0] != '_'
    ensures Words(c, started, false) == c
  {
    if c != [] {
      assert IsFileChar(c[0]);
      if c[0] == '_' {
        var t := c[2..];
        assert c[1] != '_' && IsFileChar(c[1]);
        assert AllFileChars(t) && NoDoubleUnderscore(t) by {
          forall i | 0 <= i < |t| ensures IsFileChar(t[i]) { assert t[i] == c[i + 2]; }
          forall i | 0 <= i < |t| - 1 ensures t[i] != '_' || t[i + 1] != '_' {
            assert t[i] == c[i + 2] && t[i + 1] == c[i + 3];
          }
        }
        assert t == [] || t[|t| - 1] == c[|c| - 1];
        WordsOfCleaned(t, true);
        assert c[1..][0] == c[1] && c[1..][1..] == t;
        assert Words(c, started, false) == Words(c[1..], true, true);
        assert c == "_" + [c[1]] + t;
      } else {
        var t := c[1..];
        assert AllFileChars(t) && NoDoubleUnderscore(t) by {
          forall i | 0 <= i < |t| ensures IsFileChar(t[i]) { assert t[i] == c[i + 1]; }
          forall i | 0 <= i < |t| - 1 ensures t[i] != '_' || t[i + 1] != '_' {
            assert t[i] == c[i + 1] && t[i + 1] == c[i + 2];
          }
        }
        assert t == [] || t[|t| - 1] == c[|c| - 1];
        WordsOfCleaned(t, true);
        assert c == [c[0]] + t;
      }
    }
  }

  /** The four replaceAll steps of normalizeName amount to reading the prepared name word by word. */
  lemma CleanedIsWords(p: string)
    ensures Cleaned(p) == Words(p, false, false)
  {
    var q := ReplaceSpaceRuns(p, "_");
    var k := KeepFileChars(q);
    var m := CollapseUnderscores(k);
    WordsOfReplaceSpaceRuns(p, false, false);
    ReplaceSpaceRunsLeavesNoSpace(p);
    WordsOfKeepFileChars(q, false, false);
    WordsOfCollapse(k, false, false);
    WordsOfStrip(m);
    CleanedShape(p);
    WordsOfCleaned(Cleaned(p), false);
  }

  /**
   * A name whose word-by-word reading fits in 50 characters becomes exactly that reading, or
   * "SEM_NOME" when it holds no letter or digit.
   */
  lemma NormalizeNameIsWords(nome: string)
    requires !IsTrimBlank(nome)
    requires |Words(Prepared(nome), false, false)| <= MaxLength
    ensures var w := Words(Prepared(nome), false, false);
            NormalizeName(Some(nome)) == if w == [] then SemNome else w
  {
    CleanedIsWords(Prepared(nome));
    CleanedShape(Prepared(nome));
  }

  /** A blank name leaves nothing to prepare. */
  lemma BlankPreparesNothing(nome: string)
    requires IsTrimBlank(nome)
    ensures Prepared(nome) == []
  {
    assert ToUpper(Trim(nome)) == [];
  }

  /**
   * "Espaços viram underscore": in a name that fits the length limit, two letters or digits of
   * the prepared name with only other characters between them are joined by exactly one
   * underscore when a whitespace character or an underscore lies between them, and are adjacent
   * otherwise.
   */
  lemma NormalizeNameSeparatesWords(nome: string, pre: string, x: char, mid: string, y: char, post: string)
    requires Prepared(nome) == pre + [x] + mid + [y] + post
    requires IsLetterOrDigit(x) && IsLetterOrDigit(y)
    requires forall i :: 0 <= i < |mid| ==> !IsLetterOrDigit(mid[i])
    requires |Words(Prepared(nome), false, false)| <= MaxLength
    ensures NormalizeName(Some(nome)) ==
            Words(pre + [x], false, false) +
            (if HasSeparator(mid) then "_" else []) +
            [y] + Words(post, true, false)
  {
    var p := Prepared(nome);
    assert |p| > 0;
    if IsTrimBlank(nome) {
      BlankPreparesNothing(nome);
      assert false;
    }
    var w := Words(p, false, false);
    var sep: string := if HasSeparator(mid) then "_" else [];
    WordsSeparation(pre, x, mid, y, post);
    assert w == Words(pre + [x], false, false) + sep + [y] + Words(post, true, false);
    assert |w| > 0;
    NormalizeNameIsWords(nome);
  }
}
