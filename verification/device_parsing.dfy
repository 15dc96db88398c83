/** The two device-file parsers of
    Modules/Essentials/Services/AttendanceProcessingService.php: the user
    directory dump (`parseUserData`), which pairs the i-th all-digit token with
    the i-th all-letter token, and the punch log (`parseAttendanceData`), which
    keeps the first two whitespace-separated fields of every line. */
module DeviceParsing {
  import opened Common
  import opened Text

  // ---------------------------------------------------------------------------
  // The user directory

  /** After control characters are turned into spaces, every character above
      the space belongs to a token. */
  predicate IsTokenChar(c: char) { c as int > 32 }

  /** The tokens of the cleaned directory: the maximal runs of token characters,
      in order. (Blank input explodes into one empty token, which neither pattern
      accepts, so it is left out here.) */
  function DirectoryTokens(content: string): (tokens: seq<string>)
    ensures forall k :: 0 <= k < |tokens| ==> |tokens[k]| > 0
    ensures forall k :: 0 <= k < |tokens| ==> forall i :: 0 <= i < |tokens[k]| ==> IsTokenChar(tokens[k][i])
    ensures tokens == Runs(content)
  {
    TokensFromRuns(content, "");
    TokensFrom(content, "")
  }

  /** The length of the run of token characters that starts `s`. */
  function RunLength(s: string): (n: nat)
    ensures n <= |s|
  {
    if s == [] || !IsTokenChar(s[0]) then 0 else 1 + RunLength(s[1..])
  }

  /** The run is maximal: all of it is token characters, and the character
      after it, if any, is not. */
  lemma {:induction false} RunLengthMaximal(s: string)
    ensures forall i :: 0 <= i < RunLength(s) ==> IsTokenChar(s[i])
    ensures RunLength(s) < |s| ==> !IsTokenChar(s[RunLength(s)])
    decreases |s|
  {
    if s != [] && IsTokenChar(s[0]) {
      RunLengthMaximal(s[1..]);
    }
  }

  /** The reading of the cleaned dump as words: skip a blank, or take the
      longest run of token characters as the next word. */
  function Runs(s: string): (words: seq<string>)
    ensures forall k :: 0 <= k < |words| ==> |words[k]| > 0
    decreases |s|
  {
    if s == [] then []
    else if !IsTokenChar(s[0]) then Runs(s[1..])
    else [s[..RunLength(s)]] + Runs(s[RunLength(s)..])
  }

  /** Scanning with a pending token `cur` finishes that token with the run
      that starts the rest, and then reads the rest as `Runs` does. */
  lemma {:induction false} TokensFromRuns(s: string, cur: string)
    requires forall i :: 0 <= i < |cur| ==> IsTokenChar(cur[i])
    ensures cur == [] ==> TokensFrom(s, cur) == Runs(s)
    ensures cur != [] ==> TokensFrom(s, cur) == [cur + s[..RunLength(s)]] + Runs(s[RunLength(s)..])
    decreases |s|
  {
    if s == [] {
      assert cur + s[..0] == cur && s[0..] == [];
    } else if !IsTokenChar(s[0]) {
      TokensFromRuns(s[1..], "");
      BlankCharStep(s, cur);
    } else {
      var m := RunLength(s[1..]);
      TokensFromRuns(s[1..], cur + [s[0]]);
      TokenCharStep(s, cur, m, Runs(s[1..][m..]));
      SlicesAfterFirst(s, cur, m);
      assert cur == [] ==> cur + s[..1 + m] == s[..1 + m];
    }
  }

  /** A blank ends the pending token and is skipped. */
  lemma BlankCharStep(s: string, cur: string)
    requires forall i :: 0 <= i < |cur| ==> IsTokenChar(cur[i])
    requires s != [] && !IsTokenChar(s[0])
    requires TokensFrom(s[1..], "") == Runs(s[1..])
    ensures cur == [] ==> TokensFrom(s, cur) == Runs(s)
    ensures cur != [] ==> TokensFrom(s, cur) == [cur + s[..RunLength(s)]] + Runs(s[RunLength(s)..])
  {
    assert RunLength(s) == 0;
    assert s[0..] == s && cur + s[..0] == cur;
  }

  /** A token character extends the pending token: whatever the scan of the
      rest makes of the longer pending token, it makes of `cur` and the run
      of `m + 1` characters. */
  lemma TokenCharStep(s: string, cur: string, m: nat, rest: seq<string>)
    requires forall i :: 0 <= i < |cur| ==> IsTokenChar(cur[i])
    requires s != [] && IsTokenChar(s[0]) && m < |s|
    requires TokensFrom(s[1..], cur + [s[0]]) == [(cur + [s[0]]) + s[1..][..m]] + rest
    ensures TokensFrom(s, cur) == [cur + s[..1 + m]] + rest
  {
    SlicesAfterFirst(s, cur, m);
  }

  /** Moving the first character of `s` onto the pending token. */
  lemma SlicesAfterFirst(s: string, cur: string, m: nat)
    requires s != [] && m < |s|
    ensures (cur + [s[0]]) + s[1..][..m] == cur + s[..1 + m] && s[1 + m..] == s[1..][m..]
  {
    assert s[1..][..m] == s[1..1 + m];
    assert s[..1 + m] == [s[0]] + s[1..1 + m];
  }

  function TokensFrom(s: string, cur: string): (tokens: seq<string>)
    requires forall i :: 0 <= i < |cur| ==> IsTokenChar(cur[i])
    ensures forall k :: 0 <= k < |tokens| ==> |tokens[k]| > 0
    ensures forall k :: 0 <= k < |tokens| ==> forall i :: 0 <= i < |tokens[k]| ==> IsTokenChar(tokens[k][i])
    decreases |s|
  {
    var done := if cur == [] then [] else [cur];
    if s == [] then done
    else if IsTokenChar(s[0]) then TokensFrom(s[1..], cur + [s[0]])
    else done + TokensFrom(s[1..], "")
  }

  /** The map built by `$users[$ids[$i]] = $names[$i]` for `i` below `n`. */
  function PairUp(ids: seq<string>, names: seq<string>, n: nat): map<string, string>
    requires n <= |ids| && n <= |names|
  {
    if n == 0 then map[] else PairUp(ids, names, n - 1)[ids[n - 1] := names[n - 1]]
  }

  function Min(a: nat, b: nat): nat { if a <= b then a else b }

  /** The code-to-name directory of a dump. */
  function Directory(content: string): map<string, string>
  {
    var tokens := DirectoryTokens(content);
    var ids := Filter(tokens, AllDigits);
    var names := Filter(tokens, AllLetters);
    PairUp(ids, names, Min(|ids|, |names|))
  }

  /** `parseUserData($content)`: the dump is cleaned and split into tokens,
      which are then sorted into names and codes and paired up. */
  method ParseUserData(content: string) returns (users: map<string, string>)
    ensures users == Directory(content)
  {
    var tokens := DirectoryTokens(content);
    users := PairTokens(tokens);
  }

  /** The two loops of `parseUserData` over the tokens. */
  method PairTokens(tokens: seq<string>) returns (users: map<string, string>)
    ensures var ids := Filter(tokens, AllDigits);
            var names := Filter(tokens, AllLetters);
            users == PairUp(ids, names, Min(|ids|, |names|))
  {
    var names: seq<string> := [];
    var ids: seq<string> := [];
    var t := 0;
    while t < |tokens|
      invariant t <= |tokens|
      invariant names == Filter(tokens[..t], AllLetters)
      invariant ids == Filter(tokens[..t], AllDigits)
    {
      assert tokens[..t + 1] == tokens[..t] + [tokens[t]];
      FilterSnoc(tokens[..t], tokens[t], AllLetters);
      FilterSnoc(tokens[..t], tokens[t], AllDigits);
      if AllLetters(tokens[t]) {
        assert !AllDigits(tokens[t]) by {
          assert IsLetter(tokens[t][0]);
        }
        names := names + [tokens[t]];
      } else if AllDigits(tokens[t]) {
        ids := ids + [tokens[t]];
      }
      t := t + 1;
    }
    assert tokens[..t] == tokens;
    var count := Min(|names|, |ids|);
    users := map[];
    var i := 0;
    while i < count
      invariant i <= count
      invariant users == PairUp(ids, names, i)
    {
      users := users[ids[i] := names[i]];
      i := i + 1;
    }
  }

  /** The keys of `PairUp` are the first `n` codes. */
  lemma {:induction false} PairUpKeys(ids: seq<string>, names: seq<string>, n: nat)
    requires n <= |ids| && n <= |names|
    ensures PairUp(ids, names, n).Keys == set j | 0 <= j < n :: ids[j]
    ensures |PairUp(ids, names, n).Keys| <= n
  {
    if n > 0 {
      PairUpKeys(ids, names, n - 1);
      var before := set j | 0 <= j < n - 1 :: ids[j];
      var after := set j | 0 <= j < n :: ids[j];
      assert after == before + {ids[n - 1]} by {
        forall x | x in after ensures x in before + {ids[n - 1]} {
          var j :| 0 <= j < n && ids[j] == x;
          if j < n - 1 { assert x in before; }
        }
      }
    }
  }

  /** Which pair a key of `PairUp` takes its name from: the last one with that code. */
  lemma {:induction false} PairUpValue(ids: seq<string>, names: seq<string>, n: nat, code: string)
    requires n <= |ids| && n <= |names|
    requires code in PairUp(ids, names, n)
    ensures exists j :: LastPairWith(ids, n, code, j) && PairUp(ids, names, n)[code] == names[j]
  {
    if code == ids[n - 1] {
      assert LastPairWith(ids, n, code, n - 1);
    } else {
      PairUpValue(ids, names, n - 1, code);
      var j :| LastPairWith(ids, n - 1, code, j) && PairUp(ids, names, n - 1)[code] == names[j];
      assert LastPairWith(ids, n, code, j);
    }
  }

  /** `j` is the last of the first `n` positions holding `code`. */
  predicate LastPairWith(ids: seq<string>, n: nat, code: string, j: int)
    requires n <= |ids|
  {
    0 <= j < n && ids[j] == code && forall j' :: j < j' < n ==> ids[j'] != code
  }

  /** Every key is an all-digit token of the dump and every value an all-letter
      token; so a token that mixes letters and digits is neither. */
  lemma DirectoryShape(content: string)
    ensures forall code :: code in Directory(content) ==>
      AllDigits(code) && code in DirectoryTokens(content)
      && AllLetters(Directory(content)[code]) && Directory(content)[code] in DirectoryTokens(content)
  {
    var tokens := DirectoryTokens(content);
    var ids := Filter(tokens, AllDigits);
    var names := Filter(tokens, AllLetters);
    var n := Min(|ids|, |names|);
    PairUpKeys(ids, names, n);
    FilterMembers(tokens, AllDigits);
    FilterMembers(tokens, AllLetters);
    forall code | code in Directory(content)
      ensures AllLetters(Directory(content)[code]) && Directory(content)[code] in tokens
    {
      PairUpValue(ids, names, n, code);
    }
  }

  /** The i-th code maps to the i-th name unless a later code repeats it; the
      directory never has more entries than the shorter of the two lists. */
  lemma DirectoryPairs(content: string)
    ensures var tokens := DirectoryTokens(content);
            var ids := Filter(tokens, AllDigits);
            var names := Filter(tokens, AllLetters);
            var n := Min(|ids|, |names|);
            && Directory(content).Keys == (set i | 0 <= i < n :: ids[i])
            && |Directory(content).Keys| <= n
            && (forall i :: 0 <= i < n && LastPairWith(ids, n, ids[i], i) ==> Directory(content)[ids[i]] == names[i])
  {
    var tokens := DirectoryTokens(content);
    var ids := Filter(tokens, AllDigits);
    var names := Filter(tokens, AllLetters);
    var n := Min(|ids|, |names|);
    PairUpKeys(ids, names, n);
    forall i | 0 <= i < n && LastPairWith(ids, n, ids[i], i)
      ensures Directory(content)[ids[i]] == names[i]
    {
      PairUpValue(ids, names, n, ids[i]);
    }
  }

  // ---------------------------------------------------------------------------
  // The punch log

  /** One parsed punch: the employee code and the unparsed datetime field. */
  datatype PunchRecord = PunchRecord(userCode: string, datetime: string)

  /** What one line of the log contributes: nothing for a line that trims to
      "" or "0" (PHP `empty`) or has a single field, else its first two fields. */
  function LineRecord(line: string): Option<PunchRecord>
  {
    TrimmedLineRecord(Trim(line))
  }

  function TrimmedLineRecord(l: string): Option<PunchRecord>
  {
    if l == "" || l == "0" then None else PartsRecord(Fields(l))
  }

  /** Fields 0 and 1, each trimmed, when there are at least two. */
  function PartsRecord(parts: seq<string>): Option<PunchRecord>
  {
    if |parts| >= 2 then Some(PunchRecord(Trim(parts[0]), Trim(parts[1]))) else None
  }

  /** The records of a whole log, split on newlines after trimming. */
  function LogRecords(content: string): seq<PunchRecord>
  {
    FilterMap(Explode(Trim(content), '\n'), LineRecord)
  }

  /** `parseAttendanceData($content)`: the trimmed log is split on newlines
      and each line contributes at most one record. */
  method ParseAttendanceData(content: string) returns (records: seq<PunchRecord>)
    ensures records == LogRecords(content)
  {
    var lines := Explode(Trim(content), '\n');
    records := CollectRecords(lines, LineRecord);
  }

  /** The loop of `parseAttendanceData` over the lines, with `parse` standing
      for the treatment of one line. */
  method CollectRecords(lines: seq<string>, parse: string -> Option<PunchRecord>) returns (records: seq<PunchRecord>)
    ensures records == FilterMap(lines, parse)
  {
    records := [];
    var k := 0;
    while k < |lines|
      invariant k <= |lines|
      invariant records == FilterMap(lines[..k], parse)
    {
      assert lines[..k + 1] == lines[..k] + [lines[k]];
      FilterMapSnoc(lines[..k], lines[k], parse);
      var record := parse(lines[k]);
      if record.Some? {
        records := records + [record.value];
      }
      k := k + 1;
    }
    assert lines[..k] == lines;
  }

  /** A field: non-empty, with no whitespace that `\s` or `trim` would see. */
  predicate IsField(w: string)
  {
    |w| > 0 && forall i :: 0 <= i < |w| ==> !IsRegexSpace(w[i]) && !IsTrimChar(w[i])
  }

  /** A line whose trimmed form is `code`, a space and `datetime`, followed by
      nothing or by more whitespace-led text, yields exactly (code, datetime):
      later fields, such as the time in a "date time" log, are dropped. */
  lemma TwoFieldLine(line: string, code: string, datetime: string, tail: string)
    requires IsField(code) && IsField(datetime)
    requires tail == [] || IsRegexSpace(tail[0])
    requires Trim(line) == code + " " + datetime + tail
    ensures LineRecord(line) == Some(PunchRecord(code, datetime))
  {
    TwoFieldTrimmed(code, datetime, tail);
  }

  lemma TwoFieldTrimmed(code: string, datetime: string, tail: string)
    requires IsField(code) && IsField(datetime)
    requires tail == [] || IsRegexSpace(tail[0])
    ensures TrimmedLineRecord(code + " " + datetime + tail) == Some(PunchRecord(code, datetime))
  {
    var l := code + " " + datetime + tail;
    assert |l| > 1;
    assert l != "" && l != "0";
    TwoFieldsSplit(code, datetime, tail);
    TrimNoop(code);
    TrimNoop(datetime);
  }

  lemma TwoFieldsSplit(code: string, datetime: string, tail: string)
    requires IsField(code) && IsField(datetime)
    requires tail == [] || IsRegexSpace(tail[0])
    ensures |Fields(code + " " + datetime + tail)| >= 2
    ensures Fields(code + " " + datetime + tail)[0] == code
    ensures Fields(code + " " + datetime + tail)[1] == datetime
  {
    var rest := datetime + tail;
    assert code + " " + datetime + tail == code + " " + rest;
    FieldsSpaceAfterWord(code, rest);
    SkipSpacesAtWord(datetime, tail);
    FieldsAtWord(datetime, tail);
  }

  lemma SkipSpacesAtWord(w: string, tail: string)
    requires IsField(w)
    ensures SkipSpaces(w + tail) == w + tail
  {
    assert (w + tail)[0] == w[0];
  }

  /** A field followed by whitespace or nothing is the first piece. */
  lemma FieldsAtWord(w: string, tail: string)
    requires IsField(w)
    requires tail == [] || IsRegexSpace(tail[0])
    ensures FieldsFrom(w + tail, "")[0] == w
  {
    FieldsFromWord(w, tail, "");
    assert "" + w == w;
    FieldsFromHead(tail, w);
  }

  /** Before whitespace or at the end, the piece being built is closed. */
  lemma FieldsFromHead(s: string, cur: string)
    requires s == [] || IsRegexSpace(s[0])
    ensures FieldsFrom(s, cur)[0] == cur
  {
  }

  /** A line holding a single field is dropped. */
  lemma SingleFieldLine(line: string)
    requires IsField(Trim(line))
    ensures LineRecord(line) == None
  {
    var l := Trim(line);
    FieldsOfWord(l);
    assert TrimmedLineRecord(l) == None;
  }
}
