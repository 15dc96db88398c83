/** The PHP string functions the core calls, on strings of single-byte
    characters: `trim`, `explode`, `preg_split('/\s+/')`, `implode`,
    `strtolower`/`strtoupper`, `str_replace` of one character, `ucwords`, and
    the ASCII case-insensitive `LIKE '%...%'` match the user search relies on. */
module Text {

  predicate IsLetter(c: char) { 'A' <= c <= 'Z' || 'a' <= c <= 'z' }

  predicate IsDigit(c: char) { '0' <= c <= '9' }

  /** The subject of `preg_match('/^[A-Za-z]+$/', ...)`. */
  predicate AllLetters(s: string) { |s| > 0 && forall i :: 0 <= i < |s| ==> IsLetter(s[i]) }

  /** The subject of `preg_match('/^\d+$/', ...)` (ASCII digits). */
  predicate AllDigits(s: string) { |s| > 0 && forall i :: 0 <= i < |s| ==> IsDigit(s[i]) }

  /** The characters PHP's `trim` strips: space, tab, newline, carriage return, NUL, vertical tab. */
  predicate IsTrimChar(c: char) { c == ' ' || c == '\t' || c == '\n' || c == '\r' || c == '\0' || c == 11 as char }

  /** The characters the regex class `\s` matches: space, tab, newline, vertical tab, form feed, carriage return. */
  predicate IsRegexSpace(c: char) { c == ' ' || c == '\t' || c == '\n' || c == 11 as char || c == 12 as char || c == '\r' }

  function TrimLeft(s: string): (r: string)
    ensures |r| <= |s| && r == s[|s| - |r|..]
    ensures r != [] ==> !IsTrimChar(r[0])
  {
    if s != [] && IsTrimChar(s[0]) then TrimLeft(s[1..]) else s
  }

  function TrimRight(s: string): (r: string)
    ensures |r| <= |s| && r == s[..|r|]
    ensures r != [] ==> !IsTrimChar(r[|r| - 1])
  {
    if s != [] && IsTrimChar(s[|s| - 1]) then TrimRight(s[..|s| - 1]) else s
  }

  /** PHP `trim($s)`. */
  function Trim(s: string): (r: string)
    ensures r != [] ==> !IsTrimChar(r[0]) && !IsTrimChar(r[|r| - 1])
  {
    TrimRight(TrimLeft(s))
  }

  lemma TrimNoop(s: string)
    requires forall i :: 0 <= i < |s| ==> !IsTrimChar(s[i])
    ensures Trim(s) == s
  {
  }

  /** PHP `explode($sep, $s)`: the pieces between occurrences of `sep`; never empty. */
  function Explode(s: string, sep: char): (r: seq<string>)
    ensures |r| >= 1
  {
    ExplodeFrom(s, sep, "")
  }

  function ExplodeFrom(s: string, sep: char, cur: string): (r: seq<string>)
    ensures |r| >= 1
    decreases |s|
  {
    if s == [] then [cur]
    else if s[0] == sep then [cur] + ExplodeFrom(s[1..], sep, "")
    else ExplodeFrom(s[1..], sep, cur + [s[0]])
  }

  /** Drops a leading run of `\s` characters. */
  function SkipSpaces(s: string): (r: string)
    ensures |r| <= |s| && r == s[|s| - |r|..]
    ensures r != [] ==> !IsRegexSpace(r[0])
  {
    if s != [] && IsRegexSpace(s[0]) then SkipSpaces(s[1..]) else s
  }

  /** PHP `preg_split('/\s+/', $s)`: the pieces between maximal runs of `\s`
      characters, with an empty first (last) piece when `s` starts (ends) with one. */
  function Fields(s: string): (r: seq<string>)
    ensures |r| >= 1
  {
    FieldsFrom(s, "")
  }

  function FieldsFrom(s: string, cur: string): (r: seq<string>)
    ensures |r| >= 1
    decreases |s|
  {
    if s == [] then [cur]
    else if IsRegexSpace(s[0]) then [cur] + FieldsFrom(SkipSpaces(s[1..]), "")
    else FieldsFrom(s[1..], cur + [s[0]])
  }

  /** A field is carried whole into the piece being built. */
  lemma {:induction false} FieldsFromWord(w: string, rest: string, cur: string)
    requires forall i :: 0 <= i < |w| ==> !IsRegexSpace(w[i])
    ensures FieldsFrom(w + rest, cur) == FieldsFrom(rest, cur + w)
    decreases |w|
  {
    if w != [] {
      assert (w + rest)[1..] == w[1..] + rest;
      assert cur + [w[0]] + w[1..] == cur + w;
      FieldsFromWord(w[1..], rest, cur + [w[0]]);
    } else {
      assert w + rest == rest;
      assert cur + w == cur;
    }
  }

  /** A line `w + " " + rest` with `w` free of `\s` splits into `w` and the fields of `rest`. */
  lemma FieldsSpaceAfterWord(w: string, rest: string)
    requires forall i :: 0 <= i < |w| ==> !IsRegexSpace(w[i])
    ensures Fields(w + " " + rest) == [w] + FieldsFrom(SkipSpaces(rest), "")
  {
    assert w + " " + rest == w + ([' '] + rest);
    FieldsFromWord(w, [' '] + rest, "");
    assert "" + w == w;
    assert ([' '] + rest)[1..] == rest;
  }

  /** A piece free of `\s` is its own single field. */
  lemma FieldsOfWord(w: string)
    requires forall i :: 0 <= i < |w| ==> !IsRegexSpace(w[i])
    ensures Fields(w) == [w]
  {
    FieldsFromWord(w, "", "");
    assert w + "" == w;
    assert "" + w == w;
  }

  /** PHP `implode($sep, $xs)`. */
  function Join(xs: seq<string>, sep: string): string
  {
    if xs == [] then ""
    else if |xs| == 1 then xs[0]
    else xs[0] + sep + Join(xs[1..], sep)
  }

  /** How many times `c` occurs in `s`. */
  function Occurrences(s: string, c: char): nat
  {
    if s == [] then 0 else (if s[0] == c then 1 else 0) + Occurrences(s[1..], c)
  }

  lemma {:induction false} OccurrencesAppend(a: string, b: string, c: char)
    ensures Occurrences(a + b, c) == Occurrences(a, c) + Occurrences(b, c)
  {
    if a != [] {
      assert (a + b)[1..] == a[1..] + b;
      OccurrencesAppend(a[1..], b, c);
    } else {
      assert a + b == b;
    }
  }

  /** Joining pieces free of the separator's first character leaves exactly
      one occurrence of it per separator: the piece count can be read back. */
  lemma {:induction false} JoinOccurrences(xs: seq<string>, sep: string)
    requires |sep| > 0
    requires forall k :: 0 <= k < |xs| ==> Occurrences(xs[k], sep[0]) == 0
    requires Occurrences(sep, sep[0]) == 1
    ensures xs != [] ==> Occurrences(Join(xs, sep), sep[0]) == |xs| - 1
    ensures xs == [] ==> Join(xs, sep) == ""
  {
    if |xs| > 1 {
      JoinOccurrences(xs[1..], sep);
      OccurrencesAppend(xs[0], sep, sep[0]);
      OccurrencesAppend(xs[0] + sep, Join(xs[1..], sep), sep[0]);
    }
  }

  /** `strtolower` on one byte. */
  function LowerChar(c: char): char
  {
    if 'A' <= c <= 'Z' then (c as int + 32) as char else c
  }

  /** `strtoupper` on one byte. */
  function UpperChar(c: char): char
  {
    if 'a' <= c <= 'z' then (c as int - 32) as char else c
  }

  /** PHP `strtolower($s)`. */
  function Lower(s: string): (r: string)
    ensures |r| == |s|
    ensures forall i :: 0 <= i < |s| ==> r[i] == LowerChar(s[i])
  {
    seq(|s|, i requires 0 <= i < |s| => LowerChar(s[i]))
  }

  /** `haystack LIKE '%needle%'` under a case-insensitive collation, for a needle without wildcards. */
  predicate ContainsIgnoringCase(haystack: string, needle: string)
  {
    exists i :: 0 <= i <= |haystack| && MatchesAt(haystack, needle, i)
  }

  /** `needle` occurs in `haystack` at offset `i`, ignoring ASCII case. */
  predicate MatchesAt(haystack: string, needle: string, i: nat)
  {
    i + |needle| <= |haystack| && Lower(haystack[i..i + |needle|]) == Lower(needle)
  }

  /** `str_replace($from, $to, $s)` for one-character `from` and `to`. */
  function ReplaceChar(s: string, from: char, to: char): (r: string)
    ensures |r| == |s|
    ensures forall i :: 0 <= i < |s| ==> r[i] == (if s[i] == from then to else s[i])
  {
    seq(|s|, i requires 0 <= i < |s| => if s[i] == from then to else s[i])
  }

  /** The word delimiters of `ucwords`: space, tab, carriage return, newline, form feed, vertical tab. */
  predicate IsWordDelimiter(c: char) { c == ' ' || c == '\t' || c == '\r' || c == '\n' || c == 12 as char || c == 11 as char }

  /** PHP `ucwords($s)`: upper-cases the first character and every character following a delimiter. */
  function Ucwords(s: string): (r: string)
    ensures |r| == |s|
    ensures forall i :: 0 <= i < |s| ==> r[i] == UcwordsAt(s, i)
  {
    seq(|s|, i requires 0 <= i < |s| => UcwordsAt(s, i))
  }

  /** The `i`-th character of `ucwords(s)`. */
  function UcwordsAt(s: string, i: nat): char
    requires i < |s|
  {
    if i == 0 || IsWordDelimiter(s[i - 1]) then UpperChar(s[i]) else s[i]
  }
}
