/**
 * The pieces of java.lang.String, java.util.regex and Integer behaviour that the modelled code
 * relies on: trim(), the `\s` and `\d` character classes, toUpperCase() on the Latin-1 range,
 * contains(), split() on one character, replaceAll("\\s+", ...) and Integer.parseInt.
 */
module JavaText {
  import opened Wrappers

  /** String.trim() strips every character whose code is at most U+0020. */
  predicate IsTrimmable(c: char) {
    c <= ' '
  }

  /** The characters matched by `\s` in a java.util.regex pattern (no UNICODE_CHARACTER_CLASS). */
  predicate IsRegexSpace(c: char) {
    c == ' ' || c == '\t' || c == '\n' || c == '\U{000B}' || c == '\U{000C}' || c == '\r'
  }

  /** The characters matched by `\d` (and by `[0-9]`): ASCII digits only. */
  predicate IsDigit(c: char) {
    '0' <= c <= '9'
  }

  predicate AllDigits(s: string) {
    forall i :: 0 <= i < |s| ==> IsDigit(s[i])
  }

  /** No character of `s` is a digit. */
  predicate NoDigit(s: string) {
    forall i :: 0 <= i < |s| ==> !IsDigit(s[i])
  }

  function DigitValue(c: char): (d: nat)
    requires IsDigit(c)
    ensures d <= 9
  {
    (c - '0') as nat
  }

  function DigitChar(d: nat): (c: char)
    requires d <= 9
    ensures IsDigit(c) && DigitValue(c) == d
  {
    ('0' as int + d) as char
  }

  function TrimLeft(s: string): (r: string)
    ensures |r| <= |s| && r == s[|s| - |r|..]
    ensures r == [] || !IsTrimmable(r[0])
    ensures forall i :: 0 <= i < |s| - |r| ==> IsTrimmable(s[i])
  {
    if |s| > 0 && IsTrimmable(s[0]) then
      var r := TrimLeft(s[1..]);
      assert s[1..][|s| - 1 - |r|..] == s[|s| - |r|..];
      assert forall i :: 1 <= i < |s| - |r| ==> s[i] == s[1..][i - 1];
      r
    else s
  }

  function TrimRight(s: string): (r: string)
    ensures |r| <= |s| && r == s[..|r|]
    ensures r == [] || !IsTrimmable(r[|r| - 1])
    ensures forall i :: |r| <= i < |s| ==> IsTrimmable(s[i])
  {
    if |s| > 0 && IsTrimmable(s[|s| - 1]) then
      var r := TrimRight(s[..|s| - 1]);
      assert s[..|s| - 1][..|r|] == s[..|r|];
      assert forall i :: |r| <= i < |s| - 1 ==> s[i] == s[..|s| - 1][i];
      r
    else s
  }

  /** `r` is the infix `s[lo..hi]` and every character of `s` outside it is at most U+0020. */
  predicate TrimmedTo(s: string, r: string, lo: int, hi: int) {
    0 <= lo <= hi <= |s| && r == s[lo..hi] &&
    (forall k :: 0 <= k < lo ==> IsTrimmable(s[k])) &&
    (forall k :: hi <= k < |s| ==> IsTrimmable(s[k]))
  }

  /** String.trim(): the longest infix that neither starts nor ends with a character <= U+0020. */
  function Trim(s: string): (r: string)
    ensures exists lo, hi :: TrimmedTo(s, r, lo, hi)
    ensures r == [] || (!IsTrimmable(r[0]) && !IsTrimmable(r[|r| - 1]))
    ensures r == [] <==> forall i :: 0 <= i < |s| ==> IsTrimmable(s[i])
  {
    TrimInfix(s);
    TrimEnds(s);
    TrimEmpty(s);
    TrimRight(TrimLeft(s))
  }

  /** Both trimming passes together cut a prefix and a suffix of characters <= U+0020. */
  lemma TrimInfix(s: string)
    ensures exists lo, hi :: TrimmedTo(s, TrimRight(TrimLeft(s)), lo, hi)
  {
    var l := TrimLeft(s);
    InfixOfSuffix(s, |s| - |l|, l, TrimRight(l));
  }

  /** What both passes leave neither starts nor ends with a character <= U+0020. */
  lemma TrimEnds(s: string)
    ensures var r := TrimRight(TrimLeft(s)); r == [] || (!IsTrimmable(r[0]) && !IsTrimmable(r[|r| - 1]))
  {
    var l := TrimLeft(s);
    var r := TrimRight(l);
    if r != [] {
      assert r[0] == l[0];
    }
  }

  /** A prefix `r` of the suffix `l` of `s` at `lo`, with only trimmable characters around it, lies in `s` at `lo`. */
  lemma InfixOfSuffix(s: string, lo: int, l: string, r: string)
    requires 0 <= lo <= |s| && l == s[lo..] && |r| <= |l| && r == l[..|r|]
    requires forall i :: 0 <= i < lo ==> IsTrimmable(s[i])
    requires forall i :: |r| <= i < |l| ==> IsTrimmable(l[i])
    ensures TrimmedTo(s, r, lo, lo + |r|)
  {
    forall k | lo + |r| <= k < |s| ensures IsTrimmable(s[k]) {
      assert s[k] == l[k - lo];
    }
  }

  /** Trimming leaves nothing exactly when every character is <= U+0020. */
  lemma TrimEmpty(s: string)
    ensures TrimRight(TrimLeft(s)) == [] <==> forall i :: 0 <= i < |s| ==> IsTrimmable(s[i])
  {
    var l := TrimLeft(s);
    var lo := |s| - |l|;
    if TrimRight(l) != [] {
      assert !IsTrimmable(s[lo]) by { assert s[lo] == l[0]; }
    }
  }

  /** `s.trim().isEmpty()`: null-free blank test used throughout the Java code. */
  predicate IsTrimBlank(s: string) {
    Trim(s) == []
  }

  /** Trimming a string that is already trimmed changes nothing. */
  lemma TrimOfTrimmed(s: string)
    requires s == [] || (!IsTrimmable(s[0]) && !IsTrimmable(s[|s| - 1]))
    ensures Trim(s) == s
  {
  }

  /** Trimming twice is trimming once. */
  lemma TrimIdempotent(s: string)
    ensures Trim(Trim(s)) == Trim(s)
  {
    TrimOfTrimmed(Trim(s));
  }

  /** String.toUpperCase() of one character, for the Basic Latin and Latin-1 ranges. */
  function UpperChar(c: char): (r: string)
    ensures |r| >= 1
  {
    if 'a' <= c <= 'z' then [(c as int - 32) as char]
    else if c == '\U{00DF}' then "SS"                                   // sharp s
    else if c == '\U{00B5}' then ['\U{039C}']                           // micro sign
    else if c == '\U{00FF}' then ['\U{0178}']                           // y with diaeresis
    else if '\U{00E0}' <= c <= '\U{00FE}' && c != '\U{00F7}' then [(c as int - 32) as char]
    else [c]
  }

  /** String.toUpperCase() (Latin-1 part of the Unicode case mapping). */
  function ToUpper(s: string): (r: string)
    ensures |r| >= |s|
  {
    if s == [] then [] else UpperChar(s[0]) + ToUpper(s[1..])
  }

  predicate IsAsciiLower(c: char) {
    'a' <= c <= 'z'
  }

  /** An upper-cased text never contains an ASCII lower-case letter. */
  lemma {:induction false} ToUpperHasNoAsciiLower(s: string)
    ensures forall i :: 0 <= i < |ToUpper(s)| ==> !IsAsciiLower(ToUpper(s)[i])
  {
    if s != [] {
      ToUpperHasNoAsciiLower(s[1..]);
      var h := UpperChar(s[0]);
      var t := ToUpper(s[1..]);
      assert ToUpper(s) == h + t;
      forall i | 0 <= i < |h + t| ensures !IsAsciiLower((h + t)[i]) {
        if i >= |h| { assert (h + t)[i] == t[i - |h|]; }
      }
    }
  }

  /** Upper-casing works piecewise on a concatenation. */
  lemma {:induction false} ToUpperConcat(a: string, b: string)
    ensures ToUpper(a + b) == ToUpper(a) + ToUpper(b)
  {
    if a == [] {
      assert a + b == b;
    } else {
      assert (a + b)[0] == a[0];
      assert (a + b)[1..] == a[1..] + b;
      ToUpperConcat(a[1..], b);
    }
  }

  /** The characters an upper-case mapping produces are their own upper case. */
  lemma UpperCharIsUpper(c: char)
    ensures forall i :: 0 <= i < |UpperChar(c)| ==> UpperChar(UpperChar(c)[i]) == [UpperChar(c)[i]]
  {
  }

  /** A text whose every character is its own upper case is left unchanged. */
  lemma {:induction false} ToUpperOfUpper(s: string)
    requires forall i :: 0 <= i < |s| ==> UpperChar(s[i]) == [s[i]]
    ensures ToUpper(s) == s
  {
    if s != [] {
      ToUpperOfUpper(s[1..]);
      assert [s[0]] + s[1..] == s;
    }
  }

  /** Upper-casing twice is upper-casing once. */
  lemma {:induction false} ToUpperIdempotent(s: string)
    ensures ToUpper(ToUpper(s)) == ToUpper(s)
  {
    if s != [] {
      var h := UpperChar(s[0]);
      ToUpperConcat(h, ToUpper(s[1..]));
      UpperCharIsUpper(s[0]);
      ToUpperOfUpper(h);
      ToUpperIdempotent(s[1..]);
    }
  }

  /** `sub` occurs in `s` starting at index `i`. */
  predicate OccursAt(s: string, sub: string, i: nat) {
    i + |sub| <= |s| && s[i..i + |sub|] == sub
  }

  /** String.contains(): `sub` occurs somewhere in `s`. */
  predicate Contains(s: string, sub: string) {
    exists i: nat | i <= |s| :: OccursAt(s, sub, i)
  }

  /** A text that nowhere holds the `k`-th character of `sub` does not contain `sub`. */
  lemma NotContainsWhenCharAbsent(s: string, sub: string, k: nat)
    requires k < |sub|
    requires forall i :: 0 <= i < |s| ==> s[i] != sub[k]
    ensures !Contains(s, sub)
  {
    forall i: nat | i <= |s| ensures !OccursAt(s, sub, i) {
      if i + |sub| <= |s| {
        assert s[i..i + |sub|][k] == s[i + k];
      }
    }
  }

  /** The longest suffix of `s` that does not start with a `\s` character. */
  function DropSpaces(s: string): (r: string)
    ensures |r| <= |s| && r == s[|s| - |r|..]
    ensures r == [] || !IsRegexSpace(r[0])
    ensures forall i :: 0 <= i < |s| - |r| ==> IsRegexSpace(s[i])
  {
    if |s| > 0 && IsRegexSpace(s[0]) then DropSpaces(s[1..]) else s
  }

  /** `s.replaceAll("\\s+", rep)`: every maximal run of `\s` characters becomes `rep`. */
  function ReplaceSpaceRuns(s: string, rep: string): (r: string)
    decreases |s|
  {
    if s == [] then []
    else if IsRegexSpace(s[0]) then rep + ReplaceSpaceRuns(DropSpaces(s[1..]), rep)
    else [s[0]] + ReplaceSpaceRuns(s[1..], rep)
  }

  /** Two-digit, zero-padded decimal text of a number below 100 (`String.format("%02d", n)`). */
  function Pad2(n: nat): (r: string)
    requires n < 100
    ensures |r| == 2 && AllDigits(r)
    ensures DigitValue(r[0]) * 10 + DigitValue(r[1]) == n
  {
    [DigitChar(n / 10), DigitChar(n % 10)]
  }

  /** `r` holds each digit of `s` as often as `s` does, and nothing else. */
  predicate DigitsOf(s: string, r: string) {
    forall c :: multiset(r)[c] == if IsDigit(c) then multiset(s)[c] else 0
  }

  /** `s.replaceAll("[^0-9]", "")`: the ASCII digits of `s`, in order. */
  function KeepDigits(s: string): (r: string)
    ensures AllDigits(r) && |r| <= |s|
    ensures r == [] <==> NoDigit(s)
  {
    if s == [] then []
    else if IsDigit(s[0]) then [s[0]] + KeepDigits(s[1..])
    else KeepDigits(s[1..])
  }

  /** KeepDigits keeps every digit of `s`, as often as it occurs, and nothing else. */
  lemma {:induction false} KeepDigitsCounts(s: string)
    ensures DigitsOf(s, KeepDigits(s))
  {
    if s != [] {
      KeepDigitsCounts(s[1..]);
      assert s == [s[0]] + s[1..];
    }
  }

  /** Removing the non-digits of a text made of digits changes nothing. */
  lemma {:induction false} KeepDigitsOfDigits(s: string)
    requires AllDigits(s)
    ensures KeepDigits(s) == s
  {
    if s != [] {
      KeepDigitsOfDigits(s[1..]);
    }
  }

  /** Digit extraction works piecewise on a concatenation. */
  lemma {:induction false} KeepDigitsConcat(a: string, b: string)
    ensures KeepDigits(a + b) == KeepDigits(a) + KeepDigits(b)
  {
    if a == [] {
      assert a + b == b;
    } else {
      assert (a + b)[0] == a[0];
      assert (a + b)[1..] == a[1..] + b;
      KeepDigitsConcat(a[1..], b);
    }
  }

  /** The pieces of `s` between occurrences of `c`, empty pieces included (one more than the occurrences). */
  function Pieces(s: string, c: char): (r: seq<string>)
    ensures |r| >= 1
  {
    if s == [] then [[]]
    else if s[0] == c then [[]] + Pieces(s[1..], c)
    else
      var rest := Pieces(s[1..], c);
      [[s[0]] + rest[0]] + rest[1..]
  }

  /** Removes the empty strings at the end of a split, as `String.split` with limit zero does. */
  function DropTrailingEmpty(parts: seq<string>): (r: seq<string>)
    ensures |r| <= |parts| && r == parts[..|r|]
    ensures r == [] || r[|r| - 1] != []
    ensures forall i :: |r| <= i < |parts| ==> parts[i] == []
  {
    if parts == [] then []
    else if parts[|parts| - 1] == [] then DropTrailingEmpty(parts[..|parts| - 1])
    else parts
  }

  /**
   * `s.split(c)` for a single character that is not a regular-expression metacharacter: a text
   * without `c`, the empty text included, is its own single piece; otherwise the pieces between
   * the occurrences of `c`, the empty ones at the end dropped.
   */
  function Split(s: string, c: char): (r: seq<string>)
    ensures c !in s ==> r == [s]
    ensures c in s ==> r == DropTrailingEmpty(Pieces(s, c))
  {
    if c !in s then [s] else DropTrailingEmpty(Pieces(s, c))
  }

  /** The text before the first `c`, or all of `s` when it has none. */
  function PrefixBefore(s: string, c: char): (r: string)
    ensures |r| <= |s| && r == s[..|r|]
    ensures c !in r
    ensures |r| < |s| ==> s[|r|] == c
  {
    if s == [] || s[0] == c then [] else [s[0]] + PrefixBefore(s[1..], c)
  }

  /** The first piece of a split is the text before the first separator. */
  lemma {:induction false} PiecesHead(s: string, c: char)
    ensures Pieces(s, c)[0] == PrefixBefore(s, c)
  {
    if s != [] && s[0] != c {
      PiecesHead(s[1..], c);
    }
  }

  /** With a separator present, the pieces are the text before it and the pieces of the rest. */
  lemma PiecesAfterFirst(s: string, c: char)
    requires c in s
    ensures var a := PrefixBefore(s, c);
            |a| < |s| && Pieces(s, c) == [a] + Pieces(s[|a| + 1..], c)
  {
    var a := PrefixBefore(s, c);
    assert s[..|s|] == s;
    var b := s[|a| + 1..];
    assert s == a + [c] + b;
    assert forall i :: 0 <= i < |a| ==> a[i] != c;
    PiecesAtFirstSeparator(a, c, b);
  }

  /** A text without the separator is a single piece. */
  lemma {:induction false} PiecesWithoutSeparator(s: string, c: char)
    requires forall i :: 0 <= i < |s| ==> s[i] != c
    ensures Pieces(s, c) == [s]
  {
    if s != [] {
      PiecesWithoutSeparator(s[1..], c);
      assert [s[0]] + s[1..] == s;
    }
  }

  /** Splitting at a first separator preceded by `a`: `a` is the first piece. */
  lemma {:induction false} PiecesAtFirstSeparator(a: string, c: char, b: string)
    requires forall i :: 0 <= i < |a| ==> a[i] != c
    ensures Pieces(a + [c] + b, c) == [a] + Pieces(b, c)
  {
    if a == [] {
      assert a + [c] + b == [c] + b;
      assert ([c] + b)[1..] == b;
    } else {
      var s := a + [c] + b;
      assert s[0] == a[0];
      assert s[1..] == a[1..] + [c] + b;
      PiecesAtFirstSeparator(a[1..], c, b);
      assert [a[0]] + a[1..] == a;
    }
  }

  /** No `\s` character other than the plain space, and never two of them in a row. */
  predicate Collapsed(s: string) {
    forall i :: 0 <= i < |s| && IsRegexSpace(s[i]) ==> s[i] == ' ' && (i + 1 == |s| || !IsRegexSpace(s[i + 1]))
  }

  /** Replacing each whitespace run by one space leaves no run of two. */
  lemma {:induction false} ReplaceSpaceRunsCollapses(s: string)
    ensures Collapsed(ReplaceSpaceRuns(s, " "))
    ensures s != [] && !IsRegexSpace(s[0]) ==> ReplaceSpaceRuns(s, " ") != [] && ReplaceSpaceRuns(s, " ")[0] == s[0]
    ensures s != [] ==> ReplaceSpaceRuns(s, " ") != []
    decreases |s|
  {
    if s == [] {
    } else if IsRegexSpace(s[0]) {
      var t := DropSpaces(s[1..]);
      ReplaceSpaceRunsCollapses(t);
      var tail := ReplaceSpaceRuns(t, " ");
      assert t == [] || !IsRegexSpace(t[0]);
      assert ReplaceSpaceRuns(s, " ") == [' '] + tail;
      CollapsedPrepend(' ', tail);
    } else {
      var tail := ReplaceSpaceRuns(s[1..], " ");
      ReplaceSpaceRunsCollapses(s[1..]);
      assert ReplaceSpaceRuns(s, " ") == [s[0]] + tail;
      CollapsedPrepend(s[0], tail);
    }
  }

  /** A character put before a collapsed text keeps it collapsed unless it starts a second space. */
  lemma CollapsedPrepend(c: char, tail: string)
    requires Collapsed(tail)
    requires IsRegexSpace(c) ==> c == ' ' && (tail == [] || !IsRegexSpace(tail[0]))
    ensures Collapsed([c] + tail)
  {
    var r := [c] + tail;
    forall i | 0 <= i < |r| && IsRegexSpace(r[i])
      ensures r[i] == ' ' && (i + 1 == |r| || !IsRegexSpace(r[i + 1]))
    {
      if i > 0 {
        assert r[i] == tail[i - 1];
        if i + 1 < |r| {
          assert r[i + 1] == tail[i];
        }
      }
    }
  }

  /** A text ending in a non-whitespace character keeps that last character. */
  lemma {:induction false} ReplaceSpaceRunsKeepsLast(s: string)
    requires s != [] && !IsRegexSpace(s[|s| - 1])
    ensures ReplaceSpaceRuns(s, " ") != []
    ensures ReplaceSpaceRuns(s, " ")[|ReplaceSpaceRuns(s, " ")| - 1] == s[|s| - 1]
    decreases |s|
  {
    if IsRegexSpace(s[0]) {
      var t := DropSpaces(s[1..]);
      DropSpacesKeepsLast(s[1..]);
      ReplaceSpaceRunsKeepsLast(t);
      assert ReplaceSpaceRuns(s, " ") == " " + ReplaceSpaceRuns(t, " ");
    } else if |s| > 1 {
      var t := s[1..];
      assert t[|t| - 1] == s[|s| - 1];
      ReplaceSpaceRunsKeepsLast(t);
      assert ReplaceSpaceRuns(s, " ") == [s[0]] + ReplaceSpaceRuns(t, " ");
    } else {
      assert s[1..] == [];
      assert ReplaceSpaceRuns(s, " ") == [s[0]];
    }
  }

  /** Dropping the leading whitespace of a text that ends in another character keeps that end. */
  lemma {:induction false} DropSpacesKeepsLast(s: string)
    requires |s| > 0 && !IsRegexSpace(s[|s| - 1])
    ensures DropSpaces(s) != [] && DropSpaces(s)[|DropSpaces(s)| - 1] == s[|s| - 1]
    decreases |s|
  {
    if IsRegexSpace(s[0]) {
      assert s[1..][|s| - 2] == s[|s| - 1];
      DropSpacesKeepsLast(s[1..]);
    }
  }

  /** A collapsed text is left as it is by the replacement. */
  lemma {:induction false} ReplaceSpaceRunsOfCollapsed(s: string)
    requires Collapsed(s)
    ensures ReplaceSpaceRuns(s, " ") == s
    decreases |s|
  {
    if s != [] {
      var t := s[1..];
      CollapsedTail(s);
      ReplaceSpaceRunsOfCollapsed(t);
      if IsRegexSpace(s[0]) {
        assert t == [] || !IsRegexSpace(t[0]);
        assert DropSpaces(t) == t;
        assert ReplaceSpaceRuns(s, " ") == " " + t;
      } else {
        assert ReplaceSpaceRuns(s, " ") == [s[0]] + t;
      }
      assert [s[0]] + t == s;
    }
  }

  /** The rest of a collapsed text is collapsed, and a leading space is a lone plain space. */
  lemma CollapsedTail(s: string)
    requires Collapsed(s) && s != []
    ensures Collapsed(s[1..])
    ensures IsRegexSpace(s[0]) ==> s[0] == ' ' && (|s| == 1 || !IsRegexSpace(s[1]))
  {
    var t := s[1..];
    forall i | 0 <= i < |t| && IsRegexSpace(t[i])
      ensures t[i] == ' ' && (i + 1 == |t| || !IsRegexSpace(t[i + 1]))
    {
      assert t[i] == s[i + 1];
      if i + 1 < |t| {
        assert t[i + 1] == s[i + 2];
      }
    }
  }

  /** The characters of `s` that `\s` does not match, in order. */
  function NonSpaces(s: string): (r: string)
    ensures forall i :: 0 <= i < |r| ==> !IsRegexSpace(r[i])
    ensures |r| <= |s|
  {
    if s == [] then []
    else (if IsRegexSpace(s[0]) then [] else [s[0]]) + NonSpaces(s[1..])
  }

  lemma {:induction false} NonSpacesConcat(a: string, b: string)
    ensures NonSpaces(a + b) == NonSpaces(a) + NonSpaces(b)
  {
    if a == [] {
      assert a + b == b;
    } else {
      assert (a + b)[0] == a[0];
      assert (a + b)[1..] == a[1..] + b;
      NonSpacesConcat(a[1..], b);
    }
  }

  /**
   * `replaceAll("\\s+", rep)` read left to right: the first `\s` character of a run writes `rep`,
   * the others write nothing (`afterSpace` says the previous character was one), every other
   * character is copied.
   */
  function SquashSpaces(s: string, rep: string, afterSpace: bool): string {
    if s == [] then []
    else if IsRegexSpace(s[0]) then (if afterSpace then [] else rep) + SquashSpaces(s[1..], rep, true)
    else [s[0]] + SquashSpaces(s[1..], rep, false)
  }

  /** Inside a run, the characters still to come in the run write nothing. */
  lemma {:induction false} SquashAfterSpace(t: string, rep: string)
    ensures SquashSpaces(t, rep, true) == SquashSpaces(DropSpaces(t), rep, false)
  {
    if t != [] && IsRegexSpace(t[0]) {
      SquashAfterSpace(t[1..], rep);
    }
  }

  /** The run-by-run replacement equals the left-to-right reading. */
  lemma {:induction false} ReplaceSpaceRunsIsSquash(s: string, rep: string)
    ensures ReplaceSpaceRuns(s, rep) == SquashSpaces(s, rep, false)
    decreases |s|
  {
    if s != [] {
      if IsRegexSpace(s[0]) {
        ReplaceSpaceRunsIsSquash(DropSpaces(s[1..]), rep);
        SquashAfterSpace(s[1..], rep);
      } else {
        ReplaceSpaceRunsIsSquash(s[1..], rep);
      }
    }
  }

  /** Replacing whitespace runs by single spaces keeps every other character, in order. */
  lemma {:induction false} SquashKeepsNonSpaces(s: string, afterSpace: bool)
    ensures NonSpaces(SquashSpaces(s, " ", afterSpace)) == NonSpaces(s)
  {
    if s != [] {
      SquashKeepsNonSpaces(s[1..], IsRegexSpace(s[0]));
      var head := if IsRegexSpace(s[0]) then (if afterSpace then [] else " ") else [s[0]];
      assert SquashSpaces(s, " ", afterSpace) == head + SquashSpaces(s[1..], " ", IsRegexSpace(s[0]));
      NonSpacesConcat(head, SquashSpaces(s[1..], " ", IsRegexSpace(s[0])));
    }
  }

  /** The decimal value of a text of ASCII digits. */
  function NatValue(s: string): nat
    requires AllDigits(s)
  {
    if s == [] then 0 else NatValue(s[..|s| - 1]) * 10 + DigitValue(s[|s| - 1])
  }

  /** Two-digit padding is read back as the number it was made from. */
  lemma Pad2Value(n: nat)
    requires n < 100
    ensures NatValue(Pad2(n)) == n
  {
    var r := Pad2(n);
    assert r[..1][..0] == [];
    assert NatValue(r[..1]) == DigitValue(r[0]);
  }

  /** The syntax Integer.parseInt accepts: an optional '+' or '-' and at least one digit. */
  predicate IsIntLiteral(s: string) {
    |s| > 0 &&
    var digits := if s[0] == '-' || s[0] == '+' then s[1..] else s;
    digits != [] && AllDigits(digits)
  }

  /** The number a literal denotes, its sign applied to the value of its digits. */
  function LiteralValue(s: string): int
    requires IsIntLiteral(s)
  {
    if s[0] == '-' then 0 - NatValue(s[1..]) as int
    else if s[0] == '+' then NatValue(s[1..])
    else NatValue(s)
  }

  const IntMin: int := -0x8000_0000
  const IntMax: int := 0x7FFF_FFFF

  /**
   * `Integer.parseInt(s)`: an optional sign and at least one digit, within the 32-bit range;
   * None stands for the NumberFormatException. Only ASCII digits are recognised here.
   */
  function ParseInt(s: string): (r: Option<int>)
    ensures r.Some? ==> IntMin <= r.value <= IntMax
    ensures r.Some? <==> IsIntLiteral(s) && IntMin <= LiteralValue(s) <= IntMax
    ensures r.Some? ==> r.value == LiteralValue(s)
    ensures AllDigits(s) && s != [] && NatValue(s) <= IntMax ==> r == Some(NatValue(s))
  {
    if s == [] then None
    else
      var signed := s[0] == '-' || s[0] == '+';
      var digits := if signed then s[1..] else s;
      if digits == [] || !AllDigits(digits) then None
      else
        var v: int := if s[0] == '-' then 0 - NatValue(digits) as int else NatValue(digits);
        if IntMin <= v <= IntMax then Some(v) else None
  }
}
