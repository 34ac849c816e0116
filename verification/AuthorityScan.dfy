/** The linear-time write-signal scan of src/authority_scan.ts, against the definition it computes. */
module AuthorityScan {
  import opened Ordering
  import opened Text

  // ---------- the patterns ----------

  predicate WordAt(s: string, p: nat, word: string) {
    p + |word| <= |s| && forall i :: 0 <= i < |word| ==> Lower(s[p + i]) == word[i]
  }

  function SkipSpaces(s: string, p: nat): (r: nat)
    requires p <= |s|
    ensures p <= r <= |s|
    ensures forall i :: p <= i < r ==> IsSpace(s[i])
    decreases |s| - p
  {
    if p < |s| && IsSpace(s[p]) then SkipSpaces(s, p + 1) else p
  }

  /** `word\s*\(` at `p`: the position behind it. */
  function CallEnd(s: string, p: nat, word: string): (r: Option<nat>)
    ensures r.Some? ==> p + |word| < r.value <= |s|
  {
    if !WordAt(s, p, word) then None
    else
      var open := SkipSpaces(s, p + |word|);
      if open < |s| && s[open] == '(' then Some(open + 1) else None
  }

  function PlainEnd(s: string, p: nat, word: string): (r: Option<nat>)
    ensures r.Some? ==> r.value == p + |word| <= |s|
  {
    if WordAt(s, p, word) then Some(p + |word|) else None
  }

  function OrElse(a: Option<nat>, b: Option<nat>): Option<nat> {
    if a.Some? then a else b
  }

  /** Where a literal write signal that starts at `p` ends; the alternatives in their order. */
  function LiteralEnd(s: string, p: nat): Option<nat> {
    OrElse(PlainEnd(s, p, "writefilesync"),
    OrElse(CallEnd(s, p, "writefile"),
    OrElse(CallEnd(s, p, "write_text"),
    OrElse(CallEnd(s, p, "write_bytes"),
    OrElse(PlainEnd(s, p, "fs.write"),
    OrElse(PlainEnd(s, p, "yaml.safe_dump"),
    PlainEnd(s, p, "json.dump")))))))
  }

  predicate LiteralAt(s: string, p: nat) {
    LiteralEnd(s, p).Some?
  }

  predicate OpenAt(s: string, p: nat) {
    CallEnd(s, p, "open").Some?
  }

  predicate QuoteWAt(s: string, p: nat) {
    p + 1 < |s| && (s[p] == '\"' || s[p] == '\'') && (s[p + 1] == 'w' || s[p + 1] == 'W')
  }

  predicate CloseAt(s: string, p: nat) {
    p < |s| && s[p] == ')'
  }

  // ---------- the definition ----------

  /** A quote-w occurs at or after `after` and before the next closing parenthesis. */
  ghost predicate QuoteBeforeClose(s: string, after: nat) {
    exists q: nat :: after <= q && QuoteWAt(s, q) && forall k: nat :: after <= k < q ==> !CloseAt(s, k)
  }

  ghost predicate WritingOpen(s: string, p: nat) {
    OpenAt(s, p) && QuoteBeforeClose(s, CallEnd(s, p, "open").value)
  }

  /** No line break from `a` up to `b`. */
  ghost predicate SameLine(s: string, a: nat, b: nat) {
    a <= b <= |s| && forall i :: a <= i < b ==> s[i] != '\n'
  }

  /** The first `>` of its line, with `meta` later on the line. */
  ghost predicate Redirect(s: string, p: nat) {
    && p < |s| && s[p] == '>'
    && (forall q: nat :: q < p && SameLine(s, q, p) ==> s[q] != '>')
    && exists m: nat :: p < m && WordAt(s, m, "meta") && SameLine(s, p, m)
  }

  ghost predicate Signal(s: string, p: nat) {
    LiteralAt(s, p) || WritingOpen(s, p) || Redirect(s, p)
  }

  // ---------- searching ----------

  /** The least position from `from` on where the pattern matches, or -1. */
  function NextMatch(s: string, pattern: (string, nat) -> bool, from: nat): (r: int)
    ensures r == -1 || (from <= r <= |s| && pattern(s, r))
    ensures forall p: nat :: from <= p <= |s| && (r == -1 || p < r) ==> !pattern(s, p)
    decreases |s| + 1 - from
  {
    if from > |s| then -1 else if pattern(s, from) then from else NextMatch(s, pattern, from + 1)
  }

  // ---------- lines ----------

  /** The offsets of the lines: 0 and every offset behind a line break, in order. */
  ghost predicate AreLineStarts(s: string, starts: seq<nat>, upTo: nat) {
    && starts != [] && starts[0] == 0
    && (forall i, j :: 0 <= i < j < |starts| ==> starts[i] < starts[j])
    && (forall k: nat :: k in starts <==> k == 0 || (0 < k <= upTo && k <= |s| && s[k - 1] == '\n'))
  }

  method LineStarts(content: string) returns (starts: seq<nat>)
    ensures AreLineStarts(content, starts, |content|)
  {
    starts := [0];
    var index := Find(content, '\n', 0);
    while index < |content|
      invariant index <= |content| && (index < |content| ==> content[index] == '\n')
      invariant AreLineStarts(content, starts, index)
      invariant starts[|starts| - 1] <= index
      decreases |content| - index
    {
      var next := Find(content, '\n', index + 1);
      StartsAfter(content, starts, index, next);
      starts := starts + [index + 1];
      index := next;
    }
  }

  lemma {:induction false} StartsAfter(content: string, starts: seq<nat>, index: nat, next: nat)
    requires index < |content| && content[index] == '\n' && AreLineStarts(content, starts, index)
    requires starts[|starts| - 1] <= index < next <= |content| && forall i :: index < i < next ==> content[i] != '\n'
    ensures AreLineStarts(content, starts + [index + 1], next)
  {
    var all := starts + [index + 1];
    assert forall k: nat :: k in all <==> k in starts || k == index + 1;
    forall k: nat ensures k in all <==> k == 0 || (0 < k <= next && k <= |content| && content[k - 1] == '\n') {}
  }

  function LineEnd(content: string, starts: seq<nat>, line: nat): nat
    requires line < |starts|
  {
    if line + 1 < |starts| then (if starts[line + 1] > 0 then starts[line + 1] - 1 else 0) else |content|
  }

  function LineText(content: string, starts: seq<nat>, line: nat): string
    requires line < |starts| && starts[line] <= LineEnd(content, starts, line) <= |content|
  {
    content[starts[line]..LineEnd(content, starts, line)]
  }

  /** The line a position is on. */
  ghost predicate OnLine(content: string, starts: seq<nat>, line: nat, p: nat) {
    line < |starts| && starts[line] <= p <= LineEnd(content, starts, line)
  }

  lemma {:induction false} NoneBetween(starts: seq<nat>, line: nat, x: nat)
    requires (forall i, j :: 0 <= i < j < |starts| ==> starts[i] < starts[j]) && line < |starts|
    requires starts[line] < x && (line + 1 < |starts| ==> x < starts[line + 1])
    ensures x !in starts
  {
    forall k | 0 <= k < |starts| ensures starts[k] != x {
      if k <= line { assert starts[k] <= starts[line]; } else { assert starts[line + 1] <= starts[k]; }
    }
  }

  lemma {:induction false} LineBounds(content: string, starts: seq<nat>, line: nat)
    requires AreLineStarts(content, starts, |content|) && line < |starts|
    ensures starts[line] <= LineEnd(content, starts, line) <= |content|
    ensures line + 1 < |starts| ==> LineEnd(content, starts, line) < |content| && content[LineEnd(content, starts, line)] == '\n'
    ensures SameLine(content, starts[line], LineEnd(content, starts, line))
    ensures starts[line] == 0 || content[starts[line] - 1] == '\n'
  {
    assert starts[line] in starts;
    var end := LineEnd(content, starts, line);
    if line + 1 < |starts| {
      assert starts[line + 1] in starts && starts[line + 1] > starts[line] >= 0;
    }
    forall i | starts[line] <= i < end ensures content[i] != '\n' {
      NoneBetween(starts, line, i + 1);
    }
  }

  /** Every position is on exactly one line. */
  lemma {:induction false} LineIsUnique(content: string, starts: seq<nat>, a: nat, b: nat, p: nat)
    requires AreLineStarts(content, starts, |content|) && OnLine(content, starts, a, p) && OnLine(content, starts, b, p)
    ensures a == b
  {
    LineBounds(content, starts, a);
    LineBounds(content, starts, b);
    assert !(a < b) && !(b < a);
  }

  /** Two positions without a line break between them are on one line. */
  lemma {:induction false} SameLineSameNumber(content: string, starts: seq<nat>, line: nat, p: nat, q: nat)
    requires AreLineStarts(content, starts, |content|) && OnLine(content, starts, line, p) && SameLine(content, p, q)
    ensures OnLine(content, starts, line, q)
  {
    LineBounds(content, starts, line);
  }

  // ---------- the literal scan ----------

  lemma {:induction false} WordChars(s: string, p: nat, word: string, i: nat)
    requires WordAt(s, p, word) && i < |word| && '\n' !in word
    ensures s[p + i] != '\n'
  {
    assert word[i] in word && Lower(s[p + i]) == word[i];
  }

  /** Inside a call pattern, whatever stands behind the word is a space or the parenthesis. */
  lemma {:induction false} InsideCall(s: string, p: nat, word: string, q: nat)
    requires CallEnd(s, p, word).Some? && p <= q < CallEnd(s, p, word).value && '\n' !in word
    ensures SameLine(s, p, q) || IsSpace(s[q]) || s[q] == '('
  {
    if q < p + |word| {
      forall i | p <= i < q ensures s[i] != '\n' { WordChars(s, p, word, i - p); }
    }
  }

  lemma {:induction false} InsidePlain(s: string, p: nat, word: string, q: nat)
    requires WordAt(s, p, word) && p <= q < p + |word| && '\n' !in word
    ensures SameLine(s, p, q)
  {
    forall i | p <= i < q ensures s[i] != '\n' { WordChars(s, p, word, i - p); }
  }

  lemma {:induction false} LiteralStartsWithLetter(s: string, p: nat)
    requires LiteralAt(s, p)
    ensures p < |s| && !IsSpace(s[p]) && s[p] != '(' && LiteralEnd(s, p).value > p && LiteralEnd(s, p).value <= |s|
  {
    hide SkipSpaces, IsSpace;
    FirstLetter(s, p, "writefilesync", 'w');
    FirstLetter(s, p, "writefile", 'w');
    FirstLetter(s, p, "write_text", 'w');
    FirstLetter(s, p, "write_bytes", 'w');
    FirstLetter(s, p, "fs.write", 'f');
    FirstLetter(s, p, "yaml.safe_dump", 'y');
    FirstLetter(s, p, "json.dump", 'j');
    hide WordAt;
  }

  lemma {:induction false} FirstLetter(s: string, p: nat, word: string, c: char)
    requires |word| > 0 && word[0] == c && 'a' <= c <= 'z'
    ensures WordAt(s, p, word) ==> p < |s| && !IsSpace(s[p]) && s[p] != '('
  {
    if WordAt(s, p, word) { assert Lower(s[p + 0]) == c; }
  }

  /** A signal inside another literal signal starts on the same line, so nothing is lost by scanning on behind it. */
  lemma {:induction false} InsideLiteral(s: string, p: nat, q: nat)
    requires LiteralAt(s, p) && p <= q < LiteralEnd(s, p).value && LiteralAt(s, q)
    ensures SameLine(s, p, q)
  {
    LiteralStartsWithLetter(s, q);
    hide IsSpace, SkipSpaces, WordAt, CallEnd;
    if WordAt(s, p, "writefilesync") { InsidePlain(s, p, "writefilesync", q); }
    else if CallEnd(s, p, "writefile").Some? { InsideCall(s, p, "writefile", q); }
    else if CallEnd(s, p, "write_text").Some? { InsideCall(s, p, "write_text", q); }
    else if CallEnd(s, p, "write_bytes").Some? { InsideCall(s, p, "write_bytes", q); }
    else if WordAt(s, p, "fs.write") { InsidePlain(s, p, "fs.write", q); }
    else if WordAt(s, p, "yaml.safe_dump") { InsidePlain(s, p, "yaml.safe_dump", q); }
    else { InsidePlain(s, p, "json.dump", q); }
  }

  /** The positions found stand for all the signals of one kind, line by line. */
  ghost predicate Represents(s: string, positions: seq<nat>, kind: (string, nat) -> bool, upTo: nat) {
    && (forall p :: p in positions ==> kind(s, p))
    && forall p: nat {:trigger Represented(s, positions, p)} :: p < upTo && kind(s, p) ==> Represented(s, positions, p)
  }

  ghost predicate Represented(s: string, positions: seq<nat>, p: nat) {
    exists q :: q in positions && SameLine(s, q, p)
  }

  lemma {:induction false} StillRepresented(s: string, positions: seq<nat>, more: seq<nat>, p: nat)
    requires Represented(s, positions, p) && forall q :: q in positions ==> q in more
    ensures Represented(s, more, p)
  {}

  lemma {:induction false} NothingToRepresent(content: string)
    ensures Represents(content, [], LiteralAt, 0)
  {}

  /** The global scan: each match starts behind the last one. */
  method ScanLiterals(content: string) returns (positions: seq<nat>)
    ensures Represents(content, positions, LiteralAt, |content| + 1)
  {
    hide LiteralEnd, Represents;
    positions := [];
    NothingToRepresent(content);
    var from: nat := 0;
    var index := NextMatch(content, LiteralAt, from);
    while index != -1
      invariant index == NextMatch(content, LiteralAt, from)
      invariant Represents(content, positions, LiteralAt, from)
      decreases |content| + 1 - from
    {
      LiteralStartsWithLetter(content, index);
      LiteralFound(content, positions, from, index);
      positions := positions + [index];
      from := LiteralEnd(content, index).value;
      index := NextMatch(content, LiteralAt, from);
    }
    AllScanned(content, positions, from);
  }

  lemma {:induction false} AllScanned(content: string, positions: seq<nat>, from: nat)
    requires Represents(content, positions, LiteralAt, from) && NextMatch(content, LiteralAt, from) == -1
    ensures Represents(content, positions, LiteralAt, |content| + 1)
  {
    hide LiteralAt;
  }

  lemma {:induction false} LiteralFound(content: string, positions: seq<nat>, from: nat, index: nat)
    requires Represents(content, positions, LiteralAt, from) && index == NextMatch(content, LiteralAt, from)
    ensures LiteralAt(content, index) && Represents(content, positions + [index], LiteralAt, LiteralEnd(content, index).value)
  {
    var all, end := positions + [index], LiteralEnd(content, index).value;
    assert forall q :: q in all <==> q in positions || q == index;
    hide LiteralEnd;
    forall p: nat | p < end && LiteralAt(content, p) ensures Represented(content, all, p) {
      if p < from {
        StillRepresented(content, positions, all, p);
      } else {
        assert index <= p;
        InsideLiteral(content, index, p);
      }
    }
  }

  // ---------- the open( scan ----------

  lemma {:induction false} NotTheWord(s: string, q: nat, word: string)
    requires q < |s| && word != [] && Lower(s[q]) != word[0]
    ensures !WordAt(s, q, word)
  {}

  lemma {:induction false} OpensDoNotOverlap(s: string, p: nat, q: nat)
    requires OpenAt(s, p) && p < q < CallEnd(s, p, "open").value
    ensures !OpenAt(s, q)
  {
    var word := "open";
    if q < p + 4 {
      assert Lower(s[p + (q - p)]) == word[q - p];
      assert word[q - p] != 'o';
      NotTheWord(s, q, word);
    } else {
      assert IsSpace(s[q]) || s[q] == '(';
      FirstLetter(s, q, "open", 'o');
    }
  }

  /** A pointer that was set at some earlier position and has only moved forward since. */
  ghost predicate Pointer(s: string, kind: (string, nat) -> bool, value: int, from: nat) {
    || value == -2
    || (value == -1 && forall q: nat :: from <= q <= |s| ==> !kind(s, q))
    || (0 <= value <= |s| && kind(s, value) && forall q: nat :: from <= q < value ==> !kind(s, q))
  }

  /** Moved on to `after` when it has fallen behind: now the next match at or after it. */
  function Advance(s: string, kind: (string, nat) -> bool, value: int, after: nat): (r: int)
    ensures r == value || r == NextMatch(s, kind, after)
    ensures value != -1 && value < after ==> r == NextMatch(s, kind, after)
  {
    if value != -1 && value < after then NextMatch(s, kind, after) else value
  }

  lemma {:induction false} PointerIsNext(s: string, kind: (string, nat) -> bool, value: int, from: nat, after: nat)
    requires Pointer(s, kind, value, from) && from <= after
    ensures Advance(s, kind, value, after) == NextMatch(s, kind, after)
    ensures Pointer(s, kind, Advance(s, kind, value, after), after)
    ensures value >= 0 && Advance(s, kind, value, after) != -1 ==> Advance(s, kind, value, after) >= value
  {}

  lemma {:induction false} BeforeClose(s: string, after: nat)
    ensures var q, close := NextMatch(s, QuoteWAt, after), NextMatch(s, CloseAt, after);
            (q != -1 && (close == -1 || q < close)) <==> QuoteBeforeClose(s, after)
  {
    var q, close := NextMatch(s, QuoteWAt, after), NextMatch(s, CloseAt, after);
    hide NextMatch;
    if x: nat :| after <= x && QuoteWAt(s, x) && forall k: nat :: after <= k < x ==> !CloseAt(s, k) {
      assert q != -1 && q <= x;
      assert !CloseAt(s, x);
    }
  }

  /** `open(` counts when a quote-w comes before the next parenthesis; both pointers only move forward. */
  method ScanOpens(content: string) returns (positions: seq<nat>)
    ensures forall p: nat :: p in positions <==> WritingOpen(content, p)
  {
    hide QuoteWAt, CloseAt, QuoteBeforeClose;
    positions := [];
    var nextQuoteW, nextClose := -2, -2;
    var from: nat := 0;
    var index := NextMatch(content, OpenAt, from);
    while index != -1
      invariant index == NextMatch(content, OpenAt, from)
      invariant Pointer(content, QuoteWAt, nextQuoteW, from) && Pointer(content, CloseAt, nextClose, from)
      invariant forall p: nat :: p in positions <==> p < from && WritingOpen(content, p)
      decreases |content| + 1 - from
    {
      var after := CallEnd(content, index, "open").value;
      PointerIsNext(content, QuoteWAt, nextQuoteW, from, after);
      PointerIsNext(content, CloseAt, nextClose, from, after);
      nextQuoteW := Advance(content, QuoteWAt, nextQuoteW, after);
      nextClose := Advance(content, CloseAt, nextClose, after);
      BeforeClose(content, after);
      OpensUpTo(content, from, index, after);
      if nextQuoteW != -1 && (nextClose == -1 || nextQuoteW < nextClose) { positions := positions + [index]; }
      from := after;
      index := NextMatch(content, OpenAt, from);
    }
    OpensInside(content);
  }

  lemma {:induction false} OpensInside(content: string)
    ensures forall p: nat :: OpenAt(content, p) ==> p <= |content|
  {}

  lemma {:induction false} OpensUpTo(content: string, from: nat, index: nat, after: nat)
    requires index == NextMatch(content, OpenAt, from) && OpenAt(content, index) && after == CallEnd(content, index, "open").value
    ensures forall p: nat :: from <= p < after && OpenAt(content, p) ==> p == index
  {
    hide NextMatch;
    forall p: nat | from <= p < after && OpenAt(content, p) ensures p == index {
      if p > index { OpensDoNotOverlap(content, index, p); }
    }
  }

  // ---------- redirects ----------

  /** `meta` somewhere in the text, from a position on. */
  predicate MetaFrom(text: string, from: nat) {
    exists m: nat | from <= m <= |text| :: WordAt(text, m, "meta")
  }

  /** A text with the line at its place: what its own positions stand for. */
  lemma {:induction false} RedirectOnLine(content: string, starts: seq<nat>, line: nat)
    requires AreLineStarts(content, starts, |content|) && line < |starts|
    ensures starts[line] <= LineEnd(content, starts, line) <= |content|
    ensures var text := LineText(content, starts, line);
            var r := Find(text, '>', 0);
            forall p: nat :: OnLine(content, starts, line, p) ==>
              (Redirect(content, p) <==> r < |text| && MetaFrom(text, r + 1) && p == starts[line] + r)
  {
    LineBounds(content, starts, line);
    var start, end := starts[line], LineEnd(content, starts, line);
    var text := LineText(content, starts, line);
    var r := Find(text, '>', 0);
    forall p: nat | OnLine(content, starts, line, p)
      ensures Redirect(content, p) <==> r < |text| && MetaFrom(text, r + 1) && p == start + r
    {
      if r < |text| && MetaFrom(text, r + 1) && p == start + r {
        FoundIsRedirect(content, start, end, text, r);
      }
      if Redirect(content, p) {
        RedirectIsFound(content, starts, line, p);
      }
    }
  }

  lemma {:induction false} WordInSlice(content: string, start: nat, end: nat, m: nat, word: string)
    requires start <= end <= |content|
    ensures WordAt(content[start..end], m, word) <==> WordAt(content, start + m, word) && start + m + |word| <= end
  {
    var text := content[start..end];
    if m + |word| <= |text| {
      forall i | 0 <= i < |word| ensures Lower(text[m + i]) == word[i] <==> Lower(content[start + m + i]) == word[i] {
        assert text[m + i] == content[start + m + i];
      }
    }
  }

  lemma {:induction false} WordHasNoBreak(s: string, p: nat, word: string)
    requires WordAt(s, p, word) && '\n' !in word
    ensures SameLine(s, p, p + |word|)
  {
    forall i | p <= i < p + |word| ensures s[i] != '\n' { WordChars(s, p, word, i - p); }
  }

  lemma {:induction false} FoundIsRedirect(content: string, start: nat, end: nat, text: string, r: nat)
    requires start <= end <= |content| && text == content[start..end] && SameLine(content, start, end)
    requires start == 0 || content[start - 1] == '\n'
    requires r < |text| && r == Find(text, '>', 0) && MetaFrom(text, r + 1)
    ensures Redirect(content, start + r)
  {
    var p := start + r;
    assert content[p] == text[r];
    forall q: nat | q < p && SameLine(content, q, p) ensures content[q] != '>' {
      if q >= start { assert content[q] == text[q - start]; }
    }
    var m: nat :| r + 1 <= m <= |text| && WordAt(text, m, "meta");
    WordInSlice(content, start, end, m, "meta");
    assert p < start + m && SameLine(content, p, start + m);
  }

  lemma {:induction false} RedirectIsFound(content: string, starts: seq<nat>, line: nat, p: nat)
    requires AreLineStarts(content, starts, |content|) && OnLine(content, starts, line, p) && Redirect(content, p)
    ensures starts[line] <= LineEnd(content, starts, line) <= |content|
    ensures var text := LineText(content, starts, line);
            var r := Find(text, '>', 0);
            r < |text| && MetaFrom(text, r + 1) && p == starts[line] + r
  {
    LineBounds(content, starts, line);
    var start, end := starts[line], LineEnd(content, starts, line);
    var text := LineText(content, starts, line);
    var k := p - start;
    assert p < end;
    assert text[k] == '>';
    forall i | 0 <= i < k ensures text[i] != '>' {
      assert SameLine(content, start + i, p);
      assert content[start + i] == text[i];
    }
    FindUnique(text, '>', 0, k);
    var m: nat :| p < m && WordAt(content, m, "meta") && SameLine(content, p, m);
    SameLineSameNumber(content, starts, line, p, m);
    MetaOnLine(content, starts, line, m);
    WordInSlice(content, start, end, m - start, "meta");
  }

  lemma {:induction false} MetaOnLine(content: string, starts: seq<nat>, line: nat, m: nat)
    requires AreLineStarts(content, starts, |content|) && OnLine(content, starts, line, m) && WordAt(content, m, "meta")
    ensures m + 4 <= LineEnd(content, starts, line)
  {
    LineBounds(content, starts, line);
    WordHasNoBreak(content, m, "meta");
  }

  method ScanRedirects(content: string, starts: seq<nat>) returns (positions: seq<nat>)
    requires AreLineStarts(content, starts, |content|)
    ensures forall p: nat, line :: OnLine(content, starts, line, p) ==> (p in positions <==> Redirect(content, p))
    ensures forall p: nat :: p in positions ==> Redirect(content, p)
  {
    hide Redirect, AreLineStarts, MetaFrom;
    positions := [];
    var line: nat := 0;
    while line < |starts|
      invariant 0 <= line <= |starts|
      invariant forall p: nat :: p in positions ==> exists l: nat :: l < line && OnLine(content, starts, l, p)
      invariant forall p: nat, l: nat :: l < line && OnLine(content, starts, l, p) ==> (p in positions <==> Redirect(content, p))
    {
      LineBounds(content, starts, line);
      RedirectOnLine(content, starts, line);
      var text := LineText(content, starts, line);
      var redirect := Find(text, '>', 0);
      ghost var before := positions;
      if redirect < |text| && MetaFrom(text, redirect + 1) { positions := positions + [starts[line] + redirect]; }
      OnlyThisLine(content, starts, line, before, positions, starts[line] + redirect);
      line := line + 1;
    }
  }

  lemma {:induction false} OnlyThisLine(content: string, starts: seq<nat>, line: nat, before: seq<nat>, after: seq<nat>, found: nat)
    requires AreLineStarts(content, starts, |content|) && line < |starts| && OnLine(content, starts, line, found)
    requires after == before || after == before + [found]
    requires forall p: nat :: p in before ==> exists l: nat :: l < line && OnLine(content, starts, l, p)
    ensures forall p: nat :: p in after ==> exists l: nat :: l < line + 1 && OnLine(content, starts, l, p)
    ensures forall p: nat, l: nat :: l < line && OnLine(content, starts, l, p) ==> (p in after <==> p in before)
    ensures forall p: nat :: OnLine(content, starts, line, p) ==> (p in after <==> after != before && p == found)
  {
    forall p: nat, l: nat | l < line && OnLine(content, starts, l, p) ensures p in after <==> p in before {
      if p == found { LineIsUnique(content, starts, l, line, p); }
    }
    forall p: nat | OnLine(content, starts, line, p) ensures p in after <==> after != before && p == found {
      if p in before {
        var l: nat :| l < line && OnLine(content, starts, l, p);
        LineIsUnique(content, starts, l, line, p);
      }
    }
  }

  // ---------- the first position on each line ----------

  predicate NumberAtMost(a: nat, b: nat) {
    a <= b
  }

  /** What the map says about the positions read so far. */
  ghost predicate LineFirst(content: string, starts: seq<nat>, positions: seq<nat>, first: map<nat, nat>, l: nat) {
    if l in first
    then first[l] in positions && OnLine(content, starts, l, first[l])
         && forall p: nat :: p in positions && OnLine(content, starts, l, p) ==> first[l] <= p
    else forall p: nat :: p in positions ==> !OnLine(content, starts, l, p)
  }

  ghost predicate FirstOnLines(content: string, starts: seq<nat>, positions: seq<nat>, first: map<nat, nat>) {
    forall l: nat {:trigger LineFirst(content, starts, positions, first, l)} :: LineFirst(content, starts, positions, first, l)
  }

  lemma {:induction false} FirstAfter(content: string, starts: seq<nat>, positions: seq<nat>, first: map<nat, nat>, p: nat, line: nat)
    requires AreLineStarts(content, starts, |content|) && OnLine(content, starts, line, p)
    requires FirstOnLines(content, starts, positions, first) && forall q :: q in positions ==> q <= p
    ensures FirstOnLines(content, starts, positions + [p], if line in first then first else first[line := p])
  {
    var after := if line in first then first else first[line := p];
    assert forall q :: q in positions + [p] <==> q in positions || q == p;
    forall l: nat ensures LineFirst(content, starts, positions + [p], after, l) {
      assert LineFirst(content, starts, positions, first, l);
      if l != line && OnLine(content, starts, l, p) { LineIsUnique(content, starts, l, line, p); }
    }
  }

  /** The line of a position: the pointer stops on it. */
  method MapToLines(content: string, starts: seq<nat>, positions: seq<nat>) returns (first: map<nat, nat>, order: seq<nat>)
    requires AreLineStarts(content, starts, |content|) && forall p :: p in positions ==> p <= |content|
    requires forall i, j :: 0 <= i < j < |positions| ==> positions[i] <= positions[j]
    ensures FirstOnLines(content, starts, positions, first)
    ensures (forall l: nat :: l in order <==> l in first) && forall i, j :: 0 <= i < j < |order| ==> order[i] < order[j]
  {
    hide AreLineStarts, FirstOnLines;
    first, order := map[], [];
    NothingMapped(content, starts);
    FirstLineStarts(content, starts);
    var line: nat := 0;
    var i := 0;
    while i < |positions|
      invariant 0 <= i <= |positions| && line < |starts| && (i < |positions| ==> starts[line] <= positions[i])
      invariant FirstOnLines(content, starts, positions[..i], first)
      invariant (forall l: nat :: l in order <==> l in first) && forall a, b :: 0 <= a < b < |order| ==> order[a] < order[b]
      invariant forall l: nat :: l in first ==> l <= line
    {
      var position := positions[i];
      ghost var before := line;
      while line + 1 < |starts| && starts[line + 1] <= position
        invariant before <= line < |starts| && starts[line] <= position
        decreases |starts| - line
      {
        line := line + 1;
      }
      assert positions[..i + 1] == positions[..i] + [position];
      assert position in positions && forall a :: 0 <= a < |order| ==> order[a] in order;
      assert OnLine(content, starts, line, position);
      FirstAfter(content, starts, positions[..i], first, position, line);
      if line !in first { first, order := first[line := position], order + [line]; }
      i := i + 1;
    }
    assert positions[..i] == positions;
  }

  lemma {:induction false} NothingMapped(content: string, starts: seq<nat>)
    ensures FirstOnLines(content, starts, [], map[])
  {}

  lemma {:induction false} FirstLineStarts(content: string, starts: seq<nat>)
    requires AreLineStarts(content, starts, |content|)
    ensures starts != [] && starts[0] == 0
  {}

  /** Exactly the lines that carry a signal, each with the least signal position on it. */
  ghost predicate SignalLines(content: string, starts: seq<nat>, first: map<nat, nat>) {
    forall l: nat {:trigger SignalLine(content, starts, first, l)} :: SignalLine(content, starts, first, l)
  }

  ghost predicate SignalLine(content: string, starts: seq<nat>, first: map<nat, nat>, l: nat) {
    if l in first
    then Signal(content, first[l]) && OnLine(content, starts, l, first[l])
         && forall p: nat :: Signal(content, p) && OnLine(content, starts, l, p) ==> first[l] <= p
    else forall p: nat :: OnLine(content, starts, l, p) ==> !Signal(content, p)
  }

  /** The three scans together hold a least signal of every line that has one, and nothing but signals. */
  ghost predicate Stands(content: string, starts: seq<nat>, positions: seq<nat>) {
    && (forall p :: p in positions ==> Signal(content, p))
    && forall p: nat, l: nat :: Signal(content, p) && OnLine(content, starts, l, p) ==>
         exists q: nat :: q in positions && q <= p && OnLine(content, starts, l, q)
  }

  lemma {:induction false} ScansTogether(content: string, starts: seq<nat>, literals: seq<nat>, opens: seq<nat>, redirects: seq<nat>,
                                         positions: seq<nat>)
    requires AreLineStarts(content, starts, |content|) && Represents(content, literals, LiteralAt, |content| + 1)
    requires forall p: nat :: p in opens <==> WritingOpen(content, p)
    requires forall p: nat, line :: OnLine(content, starts, line, p) ==> (p in redirects <==> Redirect(content, p))
    requires forall p: nat :: p in redirects ==> Redirect(content, p)
    requires forall p :: p in positions <==> p in literals || p in opens || p in redirects
    ensures Stands(content, starts, positions)
  {
    hide LiteralAt, WritingOpen, Redirect, AreLineStarts;
    forall p: nat, l: nat | Signal(content, p) && OnLine(content, starts, l, p)
      ensures exists q: nat :: q in positions && q <= p && OnLine(content, starts, l, q)
    {
      if LiteralAt(content, p) {
        LiteralHasLine(content, starts, literals, positions, l, p);
      } else {
        assert p in positions;
      }
    }
  }

  lemma {:induction false} LiteralHasLine(content: string, starts: seq<nat>, literals: seq<nat>, positions: seq<nat>, l: nat, p: nat)
    requires AreLineStarts(content, starts, |content|) && Represents(content, literals, LiteralAt, |content| + 1)
    requires LiteralAt(content, p) && OnLine(content, starts, l, p) && forall q :: q in literals ==> q in positions
    ensures exists q: nat :: q in positions && q <= p && OnLine(content, starts, l, q)
  {
    LiteralStartsWithLetter(content, p);
    hide LiteralAt;
    assert Represented(content, literals, p);
    var q :| q in literals && SameLine(content, q, p);
    SameLineBack(content, starts, l, q, p);
    assert q in positions;
  }

  lemma {:induction false} SameLineBack(content: string, starts: seq<nat>, line: nat, q: nat, p: nat)
    requires AreLineStarts(content, starts, |content|) && OnLine(content, starts, line, p) && SameLine(content, q, p)
    ensures OnLine(content, starts, line, q)
  {
    LineBounds(content, starts, line);
    assert starts[line] <= q;
  }

  lemma {:induction false} LeastStands(content: string, starts: seq<nat>, positions: seq<nat>, sorted: seq<nat>, first: map<nat, nat>)
    requires Stands(content, starts, positions) && FirstOnLines(content, starts, sorted, first)
    requires forall p :: p in sorted <==> p in positions
    ensures SignalLines(content, starts, first)
  {
    hide Signal, OnLine;
    forall l: nat ensures SignalLine(content, starts, first, l) {
      assert LineFirst(content, starts, sorted, first, l);
      if l in first {
        forall p: nat | Signal(content, p) && OnLine(content, starts, l, p) ensures first[l] <= p {
          var q: nat :| q in positions && q <= p && OnLine(content, starts, l, q);
        }
      } else {
        assert forall q: nat :: q in positions ==> !OnLine(content, starts, l, q);
      }
    }
  }

  lemma {:induction false} SignalsInside(content: string)
    ensures forall p: nat :: Signal(content, p) ==> p <= |content|
  {
    forall p: nat | Signal(content, p) ensures p <= |content| {
      if LiteralAt(content, p) { LiteralStartsWithLetter(content, p); }
    }
  }

  method WriteSignalLines(content: string, starts: seq<nat>) returns (first: map<nat, nat>, order: seq<nat>)
    requires AreLineStarts(content, starts, |content|)
    ensures SignalLines(content, starts, first)
    ensures (forall l: nat :: l in order <==> l in first) && forall i, j :: 0 <= i < j < |order| ==> order[i] < order[j]
  {
    hide AreLineStarts, Represents, WritingOpen, Redirect, SignalLines, Stands, FirstOnLines, Sort, Signal;
    var literals := ScanLiterals(content);
    var opens := ScanOpens(content);
    var redirects := ScanRedirects(content, starts);
    var positions := literals + opens + redirects;
    ScansTogether(content, starts, literals, opens, redirects, positions);
    StandingAreSignals(content, starts, positions);
    SignalsInside(content);
    var sorted := Sort(positions, NumberAtMost);
    SortKeepsMembers(positions, NumberAtMost);
    SortOrders(positions, NumberAtMost);
    first, order := MapToLines(content, starts, sorted);
    LeastStands(content, starts, positions, sorted, first);
  }

  lemma {:induction false} StandingAreSignals(content: string, starts: seq<nat>, positions: seq<nat>)
    requires Stands(content, starts, positions)
    ensures forall p :: p in positions ==> Signal(content, p)
  {}

  // ---------- which write is an L9 metadata write ----------

  /** What the name and line patterns answer. */
  datatype Patterns = Patterns(canonical: string -> bool, token: string -> bool, namesWriter: bool)

  /** The signal of a line that names the L9 surface and does not invoke the canonical writer. */
  ghost predicate Qualifies(content: string, starts: seq<nat>, patterns: Patterns, l: nat) {
    && l < |starts| && starts[l] <= LineEnd(content, starts, l) <= |content|
    && !patterns.canonical(LineText(content, starts, l)) && patterns.token(LineText(content, starts, l))
  }

  ghost predicate SignalOn(content: string, starts: seq<nat>, l: nat, p: nat) {
    Signal(content, p) && OnLine(content, starts, l, p)
  }

  /** A write on a line that qualifies. */
  ghost predicate MetadataWrite(content: string, starts: seq<nat>, patterns: Patterns, p: nat) {
    exists l: nat :: SignalOn(content, starts, l, p) && Qualifies(content, starts, patterns, l)
  }

  /** The least write on a qualifying line; without one, the least write of all if the file's name claims to write metadata. */
  ghost predicate FirstMetadataWrite(content: string, starts: seq<nat>, patterns: Patterns, index: Option<nat>) {
    if exists p: nat :: MetadataWrite(content, starts, patterns, p) then
      index.Some? && MetadataWrite(content, starts, patterns, index.value)
      && forall p: nat :: MetadataWrite(content, starts, patterns, p) ==> index.value <= p
    else if patterns.namesWriter && exists l: nat, p: nat :: SignalOn(content, starts, l, p) then
      index.Some? && Signal(content, index.value)
      && forall l: nat, p: nat :: SignalOn(content, starts, l, p) ==> index.value <= p
    else index.None?
  }

  /** The first writes of the lines, in line order, are in the order of their positions. */
  lemma {:induction false} EarlierLine(content: string, starts: seq<nat>, a: nat, b: nat, p: nat, q: nat)
    requires AreLineStarts(content, starts, |content|) && a < b && OnLine(content, starts, a, p) && OnLine(content, starts, b, q)
    ensures p < q
  {
    LineBounds(content, starts, a);
    LineBounds(content, starts, b);
    assert starts[a + 1] <= starts[b];
  }

  /** Every write lies behind the first write of the first listed line that is not passed over. */
  lemma {:induction false} LeastFrom(content: string, starts: seq<nat>, signals: map<nat, nat>, order: seq<nat>, i: nat, l: nat, p: nat)
    requires AreLineStarts(content, starts, |content|) && SignalLines(content, starts, signals) && SignalOn(content, starts, l, p)
    requires (forall l: nat :: l in order <==> l in signals) && forall i, j :: 0 <= i < j < |order| ==> order[i] < order[j]
    requires i < |order| && forall k :: 0 <= k < i ==> order[k] != l
    ensures order[i] in signals && signals[order[i]] <= p
  {
    LineHasSignal(content, starts, signals, l, p);
    LineIsSignal(content, starts, signals, order[i]);
    hide AreLineStarts, SignalLines, OnLine, Signal;
    var k :| 0 <= k < |order| && order[k] == l;
    if k > i { EarlierLine(content, starts, order[i], l, signals[order[i]], p); }
  }

  lemma {:induction false} FoundIsFirst(content: string, starts: seq<nat>, patterns: Patterns, signals: map<nat, nat>, order: seq<nat>, i: nat)
    requires AreLineStarts(content, starts, |content|) && SignalLines(content, starts, signals)
    requires (forall l: nat :: l in order <==> l in signals) && forall i, j :: 0 <= i < j < |order| ==> order[i] < order[j]
    requires i < |order| && Qualifies(content, starts, patterns, order[i])
    requires forall k :: 0 <= k < i ==> !Qualifies(content, starts, patterns, order[k])
    ensures order[i] in signals && FirstMetadataWrite(content, starts, patterns, Some(signals[order[i]]))
  {
    LineIsSignal(content, starts, signals, order[i]);
    hide AreLineStarts, SignalLines, OnLine, Signal, Qualifies;
    var index := signals[order[i]];
    assert SignalOn(content, starts, order[i], index);
    assert MetadataWrite(content, starts, patterns, index);
    forall p: nat | MetadataWrite(content, starts, patterns, p) ensures index <= p {
      var l: nat :| SignalOn(content, starts, l, p) && Qualifies(content, starts, patterns, l);
      LeastFrom(content, starts, signals, order, i, l, p);
    }
  }

  lemma {:induction false} NoneQualifies(content: string, starts: seq<nat>, patterns: Patterns, signals: map<nat, nat>, order: seq<nat>)
    requires AreLineStarts(content, starts, |content|) && SignalLines(content, starts, signals)
    requires (forall l: nat :: l in order <==> l in signals) && forall i, j :: 0 <= i < j < |order| ==> order[i] < order[j]
    requires forall k :: 0 <= k < |order| ==> !Qualifies(content, starts, patterns, order[k])
    ensures var found := if patterns.namesWriter && |order| > 0 && order[0] in signals then Some(signals[order[0]]) else None;
            FirstMetadataWrite(content, starts, patterns, found)
  {
    hide AreLineStarts, SignalLines, OnLine, Signal, Qualifies;
    forall l: nat, p: nat | SignalOn(content, starts, l, p) ensures l in order && signals[order[0]] <= p {
      LineHasSignal(content, starts, signals, l, p);
      LeastFrom(content, starts, signals, order, 0, l, p);
    }
    forall p: nat ensures !MetadataWrite(content, starts, patterns, p) {}
    if |order| > 0 {
      LineIsSignal(content, starts, signals, order[0]);
      assert SignalOn(content, starts, order[0], signals[order[0]]);
    }
  }

  method FindMetadataWriteIndex(content: string, starts: seq<nat>, patterns: Patterns) returns (index: Option<nat>)
    requires AreLineStarts(content, starts, |content|)
    ensures FirstMetadataWrite(content, starts, patterns, index)
  {
    hide AreLineStarts, Signal, SignalLines, FirstMetadataWrite;
    var signals, order := WriteSignalLines(content, starts);
    var i := 0;
    while i < |order|
      invariant 0 <= i <= |order|
      invariant forall k :: 0 <= k < i ==> !Qualifies(content, starts, patterns, order[k])
    {
      var line := order[i];
      LineIsSignal(content, starts, signals, line);
      LineBounds(content, starts, line);
      var text := LineText(content, starts, line);
      if !patterns.canonical(text) && patterns.token(text) {
        FoundIsFirst(content, starts, patterns, signals, order, i);
        return Some(signals[line]);
      }
      i := i + 1;
    }
    NoneQualifies(content, starts, patterns, signals, order);
    if patterns.namesWriter && |order| > 0 { return Some(signals[order[0]]); }
    return None;
  }

  lemma {:induction false} LineIsSignal(content: string, starts: seq<nat>, first: map<nat, nat>, l: nat)
    requires SignalLines(content, starts, first) && l in first
    ensures Signal(content, first[l]) && OnLine(content, starts, l, first[l])
  {
    assert SignalLine(content, starts, first, l);
  }

  lemma {:induction false} LineHasSignal(content: string, starts: seq<nat>, first: map<nat, nat>, l: nat, p: nat)
    requires SignalLines(content, starts, first) && Signal(content, p) && OnLine(content, starts, l, p)
    ensures l in first && first[l] <= p
  {
    assert SignalLine(content, starts, first, l);
  }
}
