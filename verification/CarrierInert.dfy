/** The block stays a comment of its host: nothing in it closes the comment early or leaves it for a line. */
module CarrierInert {
  import opened Text
  import opened Carrier
  import opened CarrierRoundTrip

  // ---------- the line break a text uses ----------

  ghost predicate FirstBreak(text: string, before: string, behind: string) {
    text == before + "\r\n" + behind && '\n' !in before
  }

  /** A text uses CRLF exactly when its first line break is one. */
  lemma {:induction false} DetectNewlineIs(text: string)
    ensures DetectNewline(text) == "\r\n" <==> exists before, behind :: FirstBreak(text, before, behind)
  {
    var lf := Find(text, '\n', 0);
    if 0 < lf < |text| && text[lf - 1] == '\r' {
      assert text == text[..lf - 1] + [text[lf - 1]] + [text[lf]] + text[lf + 1..];
      assert FirstBreak(text, text[..lf - 1], text[lf + 1..]);
    }
    if before, behind :| FirstBreak(text, before, behind) {
      forall i | 0 <= i < |before| + 1 ensures text[i] != '\n' {
        if i < |before| { assert text[i] == before[i]; }
      }
      FindUnique(text, '\n', 0, |before| + 1);
    }
  }

  // ---------- block comments ----------

  predicate HasPair(s: string, x: char, y: char) {
    exists i :: 0 <= i < |s| - 1 && s[i] == x && s[i + 1] == y
  }

  lemma {:induction false} PairContained(s: string, x: char, y: char)
    ensures HasPair(s, x, y) <==> Contains(s, [x, y])
  {
    if i :| 0 <= i < |s| - 1 && s[i] == x && s[i + 1] == y {
      assert s[i..i + 2] == [x, y];
      ContainsShown(s, [x, y], i);
    }
    if Contains(s, [x, y]) {
      var i :| 0 <= i <= |s| - 2 && OccursAt(s, [x, y], i);
      assert s[i..i + 2][0] == s[i] && s[i..i + 2][1] == s[i + 1];
    }
  }

  /** No pair arises where two texts meet that hold none, when the left one does not end with its first half. */
  lemma {:induction false} NoPairAcross(a: string, b: string, x: char, y: char)
    requires !HasPair(a, x, y) && !HasPair(b, x, y) && (a == [] || b == [] || a[|a| - 1] != x || b[0] != y)
    ensures !HasPair(a + b, x, y)
  {
    forall i | 0 <= i < |a + b| - 1 ensures !((a + b)[i] == x && (a + b)[i + 1] == y) {
      if i + 1 < |a| {
        assert (a + b)[i] == a[i] && (a + b)[i + 1] == a[i + 1];
      } else if i >= |a| {
        assert (a + b)[i] == b[i - |a|] && (a + b)[i + 1] == b[i + 1 - |a|];
      }
    }
  }

  /** What closes a block comment early, or is read inside one. */
  predicate IsHazard(d: Delimiters, x: char, y: char) {
    d.Block? && ((d.open == "<!--" && x == '-' && y == '-') || (d.open == "/*" && ((x == '*' && y == '/') || (x == '#' && y == '{'))))
  }

  lemma {:induction false} LinesHoldNone(d: Delimiters, lines: seq<string>, x: char, y: char)
    requires Known(d) && Representable(lines, d) && IsHazard(d, x, y)
    ensures forall i :: 0 <= i < |lines| ==> !HasPair(lines[i], x, y)
  {
    var f := if x == '#' then 2 else 1;
    assert Forbidden(d)[f] == [x, y];
    hide Contains;
    forall i | 0 <= i < |lines| ensures !HasPair(lines[i], x, y) {
      assert !Contains(lines[i], Forbidden(d)[f]);
      PairContained(lines[i], x, y);
    }
  }

  /** The lines of a block comment, each behind a line break. */
  function Broken(lines: seq<string>, newline: string): string {
    if lines == [] then [] else lines[0] + newline + Broken(lines[1..], newline)
  }

  lemma {:induction false} BreakBetween(line: string, newline: string, more: string, x: char, y: char)
    requires IsNewline(newline) && x != '\n' && x != '\r' && y != '\n' && y != '\r' && !HasPair(line, x, y) && !HasPair(more, x, y)
    ensures !HasPair(line + newline + more, x, y)
  {
    assert !HasPair(newline, x, y);
    NoPairAcross(line, newline, x, y);
    NoPairAcross(line + newline, more, x, y);
  }

  lemma {:induction false} BrokenHoldsNone(lines: seq<string>, newline: string, last: string, x: char, y: char)
    requires IsNewline(newline) && x != '\n' && x != '\r' && y != '\n' && y != '\r'
    requires !HasPair(last, x, y) && forall i :: 0 <= i < |lines| ==> !HasPair(lines[i], x, y)
    ensures !HasPair(Broken(lines, newline) + last, x, y)
  {
    hide HasPair, IsNewline;
    if lines == [] {
      assert [] + last == last;
    } else {
      BrokenHoldsNone(lines[1..], newline, last, x, y);
      BreakBetween(lines[0], newline, Broken(lines[1..], newline) + last, x, y);
      assert lines[0] + newline + (Broken(lines[1..], newline) + last) == lines[0] + newline + Broken(lines[1..], newline) + last;
    }
  }

  lemma {:induction false} BlockRestIsBroken(d: Delimiters, lines: seq<string>, newline: string)
    requires d.Block?
    ensures BlockRest(d, lines, newline) == Broken(lines, newline) + CloseLine(d)
  {
    if lines == [] {
    } else {
      BlockRestIsBroken(d, lines[1..], newline);
      assert lines[0] + newline + (Broken(lines[1..], newline) + CloseLine(d)) == lines[0] + newline + Broken(lines[1..], newline) + CloseLine(d);
    }
  }

  /** What stands between the delimiters of a block comment. */
  function Between(lines: seq<string>, newline: string): string {
    " " + BLOCK_START + newline + (Broken(lines, newline) + BLOCK_END + " ")
  }

  lemma {:induction false} SentinelsAreInert(x: char, y: char)
    requires (x == '-' && y == '-') || (x == '*' && y == '/') || (x == '#' && y == '{')
    ensures !HasPair(" " + BLOCK_START, x, y) && !HasPair(BLOCK_END + " ", x, y)
  {}

  lemma {:induction false} BetweenDelimiters(open: string, mark: string, newline: string, inner: string, end: string, close: string)
    ensures open + " " + mark + newline + (inner + (end + " " + close))
            == open + (" " + mark + newline + (inner + end + " ")) + close
  {
    var head, tail := " " + mark + newline, inner + end + " ";
    assert open + " " + mark + newline == open + head;
    assert inner + (end + " " + close) == tail + close;
    assert open + head + (tail + close) == open + (head + tail) + close;
  }

  lemma {:induction false} BlockIsBetween(d: Delimiters, lines: seq<string>, newline: string)
    requires d.Block?
    ensures BlockText(d, lines, newline) == d.open + Between(lines, newline) + d.close
  {
    hide Broken, BlockRest, BLOCK_START, BLOCK_END;
    BlockRestIsBroken(d, lines, newline);
    BetweenDelimiters(d.open, BLOCK_START, newline, Broken(lines, newline), BLOCK_END, d.close);
  }

  /** A block comment ends where its block does: neither its end mark nor an interpolation stands in it earlier. */
  lemma {:induction false} BlockStaysInside(d: Delimiters, lines: seq<string>, newline: string, x: char, y: char)
    requires Known(d) && d.Block? && Representable(lines, d) && IsNewline(newline) && IsHazard(d, x, y)
    ensures BlockText(d, lines, newline) == d.open + Between(lines, newline) + d.close
    ensures !HasPair(Between(lines, newline), x, y)
  {
    BlockIsBetween(d, lines, newline);
    LinesHoldNone(d, lines, x, y);
    SentinelsAreInert(x, y);
    hide Broken, HasPair, Representable, BlockText, BLOCK_START, BLOCK_END;
    var inner := Broken(lines, newline);
    BrokenHoldsNone(lines, newline, BLOCK_END + " ", x, y);
    assert inner + (BLOCK_END + " ") == inner + BLOCK_END + " ";
    BreakBetween(" " + BLOCK_START, newline, inner + BLOCK_END + " ", x, y);
  }

  // ---------- line comments ----------

  /** What some host takes for the end of a line. */
  predicate EndsHostLine(c: char) {
    c == '\n' || c == '\r' || c == '\U{85}' || c == '\U{2028}' || c == '\U{2029}'
  }

  predicate OneHostLine(s: string) {
    forall i :: 0 <= i < |s| ==> !EndsHostLine(s[i])
  }

  /** Wherever some host ends a line inside the text, the comment prefix follows. */
  ghost predicate EveryLineCommented(text: string, prefix: string) {
    forall i :: 0 <= i < |text| && EndsHostLine(text[i]) ==>
      (i + 1 < |text| && text[i] == '\r' && text[i + 1] == '\n') || StartsWith(text[i + 1..], prefix)
  }

  lemma {:induction false} CharacterAbsent(line: string, c: char)
    requires !Contains(line, [c])
    ensures c !in line
  {
    forall i | 0 <= i < |line| ensures line[i] != c {
      if line[i] == c {
        assert line[i..i + 1] == [c];
        ContainsShown(line, [c], i);
      }
    }
  }

  lemma {:induction false} LinesAreHostLines(d: Delimiters, lines: seq<string>)
    requires d.Line? && Representable(lines, d) && forall i :: 0 <= i < |lines| ==> OneLine(lines[i])
    ensures forall i :: 0 <= i < |lines| ==> OneHostLine(lines[i])
  {
    forall i | 0 <= i < |lines| ensures OneHostLine(lines[i]) {
      assert !Contains(lines[i], Forbidden(d)[1]) && !Contains(lines[i], Forbidden(d)[2]) && !Contains(lines[i], Forbidden(d)[3])
             && !Contains(lines[i], Forbidden(d)[4]);
      hide Contains;
      CharacterAbsent(lines[i], '\r');
      CharacterAbsent(lines[i], '\U{85}');
      CharacterAbsent(lines[i], '\U{2028}');
      CharacterAbsent(lines[i], '\U{2029}');
    }
  }

  lemma {:induction false} CommentedMore(line: string, newline: string, more: string, prefix: string)
    requires IsNewline(newline) && OneHostLine(line) && EveryLineCommented(more, prefix) && StartsWith(more, prefix)
    ensures EveryLineCommented(line + newline + more, prefix)
  {
    hide EndsHostLine;
    var text, n := line + newline + more, |line| + |newline|;
    forall i | 0 <= i < |line| ensures !EndsHostLine(text[i]) { assert text[i] == line[i]; }
    forall i | 0 <= i < |text| && EndsHostLine(text[i])
      ensures (i + 1 < |text| && text[i] == '\r' && text[i + 1] == '\n') || StartsWith(text[i + 1..], prefix)
    {
      if i >= n {
        assert text[i] == more[i - n] && text[i + 1..] == more[i + 1 - n..];
      } else if i == n - 1 {
        assert text[i + 1..] == more;
      }
    }
  }

  lemma {:induction false} InnerIsHostLine(d: Delimiters, line: string)
    requires Known(d) && d.Line? && OneHostLine(line)
    ensures OneHostLine(InnerLine(d, line)) && StartsWith(InnerLine(d, line), d.prefix)
  {
    var inner := InnerLine(d, line);
    assert forall i :: 0 <= i < |d.prefix| ==> !EndsHostLine(d.prefix[i]);
    if line != [] {
      assert inner == d.prefix + " " + line;
      forall i | 0 <= i < |inner| ensures !EndsHostLine(inner[i]) {
        if i < |d.prefix| { assert inner[i] == d.prefix[i]; } else if i > |d.prefix| { assert inner[i] == line[i - |d.prefix| - 1]; }
      }
    }
  }

  lemma {:induction false} RestIsCommented(d: Delimiters, lines: seq<string>, newline: string)
    requires Known(d) && d.Line? && IsNewline(newline) && forall i :: 0 <= i < |lines| ==> OneHostLine(lines[i])
    ensures EveryLineCommented(BlockRest(d, lines, newline), d.prefix) && StartsWith(BlockRest(d, lines, newline), d.prefix)
  {
    if lines == [] {
      var close := CloseLine(d);
      assert OneHostLine(close);
      assert close[..|d.prefix|] == d.prefix;
    } else {
      RestIsCommented(d, lines[1..], newline);
      InnerIsHostLine(d, lines[0]);
      hide InnerLine, OneHostLine, EveryLineCommented, IsNewline, Known;
      var rest := BlockRest(d, lines[1..], newline);
      CommentedMore(InnerLine(d, lines[0]), newline, rest, d.prefix);
      assert (InnerLine(d, lines[0]) + newline + rest)[..|d.prefix|] == InnerLine(d, lines[0])[..|d.prefix|];
    }
  }

  /** Every line of a line-comment block is a comment, whatever a host takes for the end of a line. */
  lemma {:induction false} BlockIsAllComment(d: Delimiters, lines: seq<string>, newline: string)
    requires Known(d) && d.Line? && IsNewline(newline) && Representable(lines, d) && forall i :: 0 <= i < |lines| ==> OneLine(lines[i])
    ensures StartsWith(BlockText(d, lines, newline), d.prefix) && EveryLineCommented(BlockText(d, lines, newline), d.prefix)
  {
    LinesAreHostLines(d, lines);
    RestIsCommented(d, lines, newline);
    var open := OpenLine(d);
    assert OneHostLine(open) && open[..|d.prefix|] == d.prefix;
    hide OpenLine, OneHostLine, EveryLineCommented, BlockRest, IsNewline, Known;
    CommentedMore(open, newline, BlockRest(d, lines, newline), d.prefix);
    assert BlockText(d, lines, newline)[..|d.prefix|] == open[..|d.prefix|];
  }
}
