/** The string operations of the host language the text cores lean on. */
module Text {

  datatype Option<+T> = None | Some(value: T)

  // ---------- white space ----------

  /** What `trim` removes: the ASCII blanks, the Unicode spaces, and the byte-order mark. */
  predicate IsSpace(c: char) {
    || '\t' <= c <= '\r' || c == ' ' || c == '\U{A0}' || c == '\U{1680}'
    || '\U{2000}' <= c <= '\U{200A}' || c == '\U{2028}' || c == '\U{2029}'
    || c == '\U{202F}' || c == '\U{205F}' || c == '\U{3000}' || c == '\U{FEFF}'
  }

  /** A space or a tab. */
  predicate IsBlank(c: char) {
    c == ' ' || c == '\t'
  }

  /** What a dot of a pattern does not match. */
  predicate EndsLine(c: char) {
    c == '\n' || c == '\r' || c == '\U{2028}' || c == '\U{2029}'
  }

  /** The case fold of an ASCII-insensitive pattern. */
  function Lower(c: char): char {
    if 'A' <= c <= 'Z' then (c as int + 32) as char else c
  }

  function TrimEnd(s: string): (r: string)
    ensures r <= s
    ensures r == [] || !IsSpace(r[|r| - 1])
  {
    if s != [] && IsSpace(s[|s| - 1]) then TrimEnd(s[..|s| - 1]) else s
  }

  function TrimStart(s: string): string {
    if s != [] && IsSpace(s[0]) then TrimStart(s[1..]) else s
  }

  function Trim(s: string): string {
    TrimStart(TrimEnd(s))
  }

  lemma {:induction false} TrimEndSolid(s: string)
    requires s == [] || !IsSpace(s[|s| - 1])
    ensures TrimEnd(s) == s
  {}

  /** Trimming the end of `a + b` is trimming the end of `b`, unless `b` is all blank. */
  lemma {:induction false} TrimEndConcat(a: string, b: string)
    ensures TrimEnd(a + b) == if TrimEnd(b) == [] then TrimEnd(a) else a + TrimEnd(b)
  {
    if b == [] {
      assert a + b == a;
    } else if IsSpace(b[|b| - 1]) {
      assert (a + b)[..|a + b| - 1] == a + b[..|b| - 1];
      TrimEndConcat(a, b[..|b| - 1]);
    }
  }

  // ---------- searching ----------

  predicate StartsWith(s: string, prefix: string) {
    |prefix| <= |s| && s[..|prefix|] == prefix
  }

  predicate Contains(s: string, needle: string) {
    exists i :: 0 <= i <= |s| - |needle| && OccursAt(s, needle, i)
  }

  predicate OccursAt(s: string, needle: string, i: int) {
    0 <= i <= |s| - |needle| && s[i..i + |needle|] == needle
  }

  lemma {:induction false} ContainsShown(s: string, needle: string, i: int)
    requires OccursAt(s, needle, i)
    ensures Contains(s, needle)
  {}

  /** The least position of `c` at or after `from`, or the length of the text. */
  function Find(text: string, c: char, from: nat): (r: nat)
    requires from <= |text|
    ensures from <= r <= |text|
    ensures forall i :: from <= i < r ==> text[i] != c
    ensures r < |text| ==> text[r] == c
    decreases |text| - from
  {
    if from == |text| || text[from] == c then from else Find(text, c, from + 1)
  }

  lemma {:induction false} FindUnique(text: string, c: char, from: nat, r: nat)
    requires from <= r <= |text| && forall i :: from <= i < r ==> text[i] != c
    requires r < |text| ==> text[r] == c
    ensures Find(text, c, from) == r
  {}

  // ---------- joining and splitting ----------

  function Join(lines: seq<string>, separator: string): string {
    if lines == [] then []
    else if |lines| == 1 then lines[0]
    else lines[0] + separator + Join(lines[1..], separator)
  }

  lemma {:induction false} JoinMore(first: string, rest: seq<string>, separator: string)
    requires rest != []
    ensures Join([first] + rest, separator) == first + separator + Join(rest, separator)
  {
    assert ([first] + rest)[1..] == rest;
  }

  function DropCR(line: string): string {
    if line != [] && line[|line| - 1] == '\r' then line[..|line| - 1] else line
  }

  /** `split(/\r?\n/)`. */
  function SplitLines(text: string): (lines: seq<string>)
    ensures |lines| >= 1
    decreases |text|
  {
    var nl := Find(text, '\n', 0);
    if nl == |text| then [text] else [DropCR(text[..nl])] + SplitLines(text[nl + 1..])
  }

  predicate OneLine(line: string) {
    '\n' !in line
  }

  lemma {:induction false} SplitLinesAreLines(text: string)
    ensures forall i :: 0 <= i < |SplitLines(text)| ==> OneLine(SplitLines(text)[i])
    decreases |text|
  {
    var nl := Find(text, '\n', 0);
    if nl == |text| {
    } else {
      SplitLinesAreLines(text[nl + 1..]);
    }
  }

  predicate IsNewline(newline: string) {
    newline == "\n" || newline == "\r\n"
  }

  /** What splitting gives back of a line that was joined with `newline`. */
  function Rejoined(line: string, newline: string): string {
    if newline == "\n" then DropCR(line) else line
  }

  lemma {:induction false} SplitFirst(line: string, newline: string, rest: string)
    requires IsNewline(newline) && OneLine(line)
    ensures SplitLines(line + newline + rest) == [Rejoined(line, newline)] + SplitLines(rest)
  {
    var text := line + newline + rest;
    var nl := |line| + |newline| - 1;
    assert text[nl] == newline[|newline| - 1];
    forall i | 0 <= i < nl ensures text[i] != '\n' {
      if i < |line| { assert text[i] == line[i]; }
    }
    FindUnique(text, '\n', 0, nl);
    assert text[nl + 1..] == rest;
    assert text[..nl] == line + newline[..|newline| - 1];
    if newline == "\n" {
      assert text[..nl] == line;
    } else {
      assert text[..nl] == line + "\r";
      assert DropCR(line + "\r") == line;
    }
  }

  /** Splitting undoes joining, up to a carriage return swallowed by a line-feed separator. */
  lemma {:induction false} SplitJoin(lines: seq<string>, newline: string)
    requires |lines| >= 1 && IsNewline(newline) && forall i :: 0 <= i < |lines| ==> OneLine(lines[i])
    ensures |SplitLines(Join(lines, newline))| == |lines|
    ensures forall i :: 0 <= i < |lines| - 1 ==> SplitLines(Join(lines, newline))[i] == Rejoined(lines[i], newline)
    ensures SplitLines(Join(lines, newline))[|lines| - 1] == lines[|lines| - 1]
    decreases |lines|
  {
    if |lines| == 1 {
      FindUnique(lines[0], '\n', 0, |lines[0]|);
    } else {
      hide SplitLines, Rejoined, OneLine, IsNewline;
      SplitFirst(lines[0], newline, Join(lines[1..], newline));
      SplitJoin(lines[1..], newline);
      SplitAfterFirst(lines, newline);
    }
  }

  lemma {:induction false} SplitAfterFirst(lines: seq<string>, newline: string)
    requires |lines| >= 2
    requires SplitLines(Join(lines, newline)) == [Rejoined(lines[0], newline)] + SplitLines(Join(lines[1..], newline))
    requires |SplitLines(Join(lines[1..], newline))| == |lines| - 1
    requires forall i :: 0 <= i < |lines| - 2 ==> SplitLines(Join(lines[1..], newline))[i] == Rejoined(lines[1..][i], newline)
    requires SplitLines(Join(lines[1..], newline))[|lines| - 2] == lines[1..][|lines| - 2]
    ensures |SplitLines(Join(lines, newline))| == |lines|
    ensures forall i :: 0 <= i < |lines| - 1 ==> SplitLines(Join(lines, newline))[i] == Rejoined(lines[i], newline)
    ensures SplitLines(Join(lines, newline))[|lines| - 1] == lines[|lines| - 1]
  {
    hide SplitLines, Rejoined, Join;
    var rest, all := SplitLines(Join(lines[1..], newline)), SplitLines(Join(lines, newline));
    assert all[|lines| - 1] == rest[|lines| - 2];
    forall i | 0 <= i < |lines| - 1 ensures all[i] == Rejoined(lines[i], newline) {
      if i > 0 { assert all[i] == rest[i - 1]; }
    }
  }
}
