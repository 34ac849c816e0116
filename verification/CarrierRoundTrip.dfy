/** Removing the block after inserting it gives the text back, and exactly when it does not. */
module CarrierRoundTrip {
  import opened Text
  import opened Carrier
  import opened CarrierPlacement
  import opened CarrierTerminator

  // ---------- the block, line by line ----------

  /** The block behind its first line. */
  function BlockRest(d: Delimiters, lines: seq<string>, newline: string): string {
    if lines == [] then CloseLine(d)
    else InnerLine(d, lines[0]) + newline + BlockRest(d, lines[1..], newline)
  }

  function BlockText(d: Delimiters, lines: seq<string>, newline: string): string {
    OpenLine(d) + newline + BlockRest(d, lines, newline)
  }

  lemma {:induction false} BlockIsItsText(d: Delimiters, lines: seq<string>, newline: string)
    ensures Join(BlockLines(d, lines), newline) == BlockText(d, lines, newline)
  {
    RestIsJoined(d, lines, newline);
    assert BlockLines(d, lines)[1..] == InnerLines(d, lines) + [CloseLine(d)];
  }

  lemma {:induction false} RestIsJoined(d: Delimiters, lines: seq<string>, newline: string)
    ensures Join(InnerLines(d, lines) + [CloseLine(d)], newline) == BlockRest(d, lines, newline)
  {
    if lines == [] {
      assert InnerLines(d, lines) + [CloseLine(d)] == [CloseLine(d)];
    } else {
      RestIsJoined(d, lines[1..], newline);
      assert (InnerLines(d, lines) + [CloseLine(d)])[1..] == InnerLines(d, lines[1..]) + [CloseLine(d)];
    }
  }

  /** The lines of one block: each on one line, none holding a forbidden sequence. */
  ghost predicate Writable(d: Delimiters, lines: seq<string>) {
    Known(d) && forall i :: 0 <= i < |lines| ==> WritableLine(d, lines[i])
  }

  ghost predicate WritableLine(d: Delimiters, line: string) {
    && OneLine(line)
    && match d
       case Line(_) => '\r' !in line && !Contains(line, END)
       case Block(_, _) => !Contains(line, BLOCK_END)
  }

  lemma {:induction false} SplitLinesAreWritable(yaml: string, d: Delimiters)
    requires Known(d) && Representable(SplitLines(yaml), d)
    ensures Writable(d, SplitLines(yaml))
  {
    var lines := SplitLines(yaml);
    SplitLinesAreLines(yaml);
    hide SplitLines, OneLine, Contains;
    forall i | 0 <= i < |lines| ensures WritableLine(d, lines[i]) {
      assert !Contains(lines[i], Forbidden(d)[0]);
      if d.Line? {
        assert !Contains(lines[i], Forbidden(d)[1]);
        NoCR(lines[i]);
      }
    }
  }

  lemma {:induction false} NoCR(line: string)
    requires !Contains(line, "\r")
    ensures '\r' !in line
  {
    forall i | 0 <= i < |line| ensures line[i] != '\r' {
      if line[i] == '\r' {
        assert line[i..i + |"\r"|] == "\r";
        ContainsShown(line, "\r", i);
      }
    }
  }

  lemma {:induction false} ContainsPrefix(line: string, before: string, needle: string, after: string)
    requires before + needle + after <= before + line
    ensures Contains(line, needle)
  {
    var whole := before + needle + after;
    assert whole[|before|..|before| + |needle|] == needle;
    assert (before + line)[|before|..|before| + |needle|] == needle;
    assert line[..|needle|] == (before + line)[|before|..|before| + |needle|];
    ContainsShown(line, needle, 0);
  }

  /** No inner line reads as the closing line. */
  lemma {:induction false} InnerIsNotClose(d: Delimiters, line: string, newline: string)
    requires Known(d) && WritableLine(d, line)
    ensures TrimEnd(Rejoined(InnerLine(d, line), newline)) != CloseLine(d)
  {
    var inner := InnerLine(d, line);
    var content := Rejoined(inner, newline);
    assert content <= inner;
    if TrimEnd(content) == CloseLine(d) {
      hide TrimEnd, START, END, BLOCK_END, BLOCK_START;
      match d
      case Line(p) =>
        assert CloseLine(d) == (p + " ") + END + [];
        if line != [] {
          assert inner == (p + " ") + line;
          ContainsPrefix(line, p + " ", END, []);
        }
      case Block(_, close) =>
        assert CloseLine(d) == [] + BLOCK_END + (" " + close);
        assert inner == [] + line;
        ContainsPrefix(line, [], BLOCK_END, " " + close);
    }
  }

  /** Every inner line of a line-comment block is a comment. */
  lemma {:induction false} InnerIsComment(d: Delimiters, line: string, newline: string)
    requires Known(d) && d.Line? && WritableLine(d, line)
    ensures Rejoined(InnerLine(d, line), newline) == InnerLine(d, line)
    ensures TrimStart(InnerLine(d, line)) == InnerLine(d, line)
    ensures StartsWith(InnerLine(d, line), d.prefix)
  {}

  lemma {:induction false} InnerIsOneLine(d: Delimiters, line: string)
    requires Known(d) && WritableLine(d, line)
    ensures OneLine(InnerLine(d, line))
  {}

  lemma {:induction false} CloseLineIsPlain(d: Delimiters)
    requires Known(d)
    ensures OneLine(CloseLine(d)) && DropCR(CloseLine(d)) == CloseLine(d) && TrimEnd(CloseLine(d)) == CloseLine(d)
    ensures CloseLine(d) != []
  {
    SentinelText();
    assert END[|END| - 1] == '<' && |END| == 15;
    hide END, BLOCK_END;
    TrimEndSolid(CloseLine(d));
  }

  // ---------- the block is found ----------

  /** What follows a block: nothing, or a line break and more. */
  function Tail(newline: string, rest: Option<string>): string {
    if rest.Some? then newline + rest.value else []
  }

  lemma {:induction false} SeekStops(text: string, start: nat, cursor: nat, d: Delimiters, line: TextLine)
    requires cursor < |text| && LineAt(text, cursor) == line && TrimEnd(line.content) == CloseLine(d)
    ensures SeekClose(text, start, cursor, d) == Some(Span(start, cursor + |line.content|, line.next))
  {
    hide TrimEnd, CloseLine, LineAt, StartsWith;
  }

  lemma {:induction false} SeekGoesOn(text: string, start: nat, cursor: nat, d: Delimiters, line: TextLine)
    requires cursor < |text| && LineAt(text, cursor) == line && TrimEnd(line.content) != CloseLine(d)
    requires d.Line? ==> StartsWith(TrimStart(line.content), d.prefix)
    ensures SeekClose(text, start, cursor, d) == SeekClose(text, start, line.next, d)
  {
    hide TrimEnd, TrimStart, CloseLine, LineAt, StartsWith;
  }

  lemma {:induction false} CloseFoundLast(pre: string, start: nat, d: Delimiters)
    requires Known(d)
    ensures SeekClose(pre + CloseLine(d), start, |pre|, d)
            == Some(Span(start, |pre| + |CloseLine(d)|, |pre| + |CloseLine(d)|))
  {
    CloseLineIsPlain(d);
    hide TrimEnd, CloseLine, LineAt, SeekClose, OneLine, DropCR, Known;
    var close := CloseLine(d);
    LineLast(pre, close);
    SeekStops(pre + close, start, |pre|, d, TextLine(close, |pre| + |close|, false));
  }

  lemma {:induction false} CloseFoundMore(pre: string, start: nat, d: Delimiters, newline: string, more: string)
    requires Known(d) && IsNewline(newline)
    ensures var stop := |pre| + |CloseLine(d)|;
            SeekClose(pre + CloseLine(d) + newline + more, start, |pre|, d) == Some(Span(start, stop, stop + |newline|))
  {
    CloseLineIsPlain(d);
    hide TrimEnd, CloseLine, LineAt, SeekClose, OneLine, DropCR, Known;
    var close := CloseLine(d);
    LineJoined(pre, close, newline, more);
    SeekStops(pre + close + newline + more, start, |pre|, d, TextLine(close, |pre| + |close| + |newline|, true));
  }

  /** The span of a block that ends at `stop`, before `Tail(newline, rest)`. */
  function SpanTo(start: nat, stop: nat, newline: string, rest: Option<string>): Span {
    Span(start, stop, if rest.Some? then stop + |newline| else stop)
  }

  lemma {:induction false} CloseFound(pre: string, start: nat, d: Delimiters, newline: string, rest: Option<string>)
    requires Known(d) && IsNewline(newline)
    ensures SeekClose(pre + CloseLine(d) + Tail(newline, rest), start, |pre|, d)
            == Some(SpanTo(start, |pre| + |CloseLine(d)|, newline, rest))
  {
    hide CloseLine, SeekClose, Known, IsNewline;
    var close := CloseLine(d);
    if rest.Some? {
      CloseFoundMore(pre, start, d, newline, rest.value);
      assert pre + close + (newline + rest.value) == pre + close + newline + rest.value;
    } else {
      CloseFoundLast(pre, start, d);
      assert pre + close + [] == pre + close;
    }
  }

  lemma {:induction false} InnerLineRead(pre: string, d: Delimiters, line: string, newline: string, more: string)
    requires Known(d) && IsNewline(newline) && WritableLine(d, line)
    ensures LineAt(pre + InnerLine(d, line) + newline + more, |pre|)
            == TextLine(Rejoined(InnerLine(d, line), newline), |pre| + |InnerLine(d, line)| + |newline|, true)
  {
    InnerIsOneLine(d, line);
    hide InnerLine, LineAt, Rejoined, WritableLine, OneLine, Known;
    LineJoined(pre, InnerLine(d, line), newline, more);
  }

  lemma {:induction false} SeekPastInner(pre: string, start: nat, d: Delimiters, line: string, newline: string, more: string)
    requires Known(d) && IsNewline(newline) && WritableLine(d, line)
    ensures var text, next := pre + InnerLine(d, line) + newline + more, |pre| + |InnerLine(d, line)| + |newline|;
            SeekClose(text, start, |pre|, d) == SeekClose(text, start, next, d)
  {
    hide TrimEnd, TrimStart, StartsWith, CloseLine, InnerLine, LineAt, Rejoined, WritableLine, OneLine, SeekClose, Known;
    InnerIsNotClose(d, line, newline);
    if d.Line? { InnerIsComment(d, line, newline); }
    InnerLineRead(pre, d, line, newline, more);
    var inner := InnerLine(d, line);
    SeekGoesOn(pre + inner + newline + more, start, |pre|, d,
               TextLine(Rejoined(inner, newline), |pre| + |inner| + |newline|, true));
  }

  lemma {:induction false} Regroup(pre: string, first: string, newline: string, behind: string, tail: string)
    ensures pre + (first + newline + behind) + tail == pre + first + newline + (behind + tail)
    ensures pre + first + newline + (behind + tail) == pre + first + newline + behind + tail
  {}

  lemma {:induction false} CloseFoundBehind(pre: string, start: nat, d: Delimiters, lines: seq<string>, newline: string,
                                            rest: Option<string>)
    requires Writable(d, lines) && IsNewline(newline)
    ensures SeekClose(pre + BlockRest(d, lines, newline) + Tail(newline, rest), start, |pre|, d)
            == Some(SpanTo(start, |pre| + |BlockRest(d, lines, newline)|, newline, rest))
    decreases |lines|
  {
    hide SeekClose, WritableLine, InnerLine, CloseLine, Tail;
    if lines == [] {
      CloseFound(pre, start, d, newline, rest);
    } else {
      var inner, behind := InnerLine(d, lines[0]), BlockRest(d, lines[1..], newline);
      SeekPastInner(pre, start, d, lines[0], newline, behind + Tail(newline, rest));
      CloseFoundBehind(pre + inner + newline, start, d, lines[1..], newline, rest);
      Regroup(pre, inner, newline, behind, Tail(newline, rest));
    }
  }

  lemma {:induction false} BlockOpens(text: string, pos: nat, d: Delimiters, first: TextLine, span: Option<Span>)
    requires pos <= |text| && LineAt(text, pos) == first && first.terminated && TrimEnd(first.content) == OpenLine(d)
    requires SeekClose(text, pos, first.next, d) == span
    ensures BlockAt(text, pos, d) == span
  {
    hide TrimEnd, OpenLine, LineAt, SeekClose;
  }

  lemma {:induction false} OpenLineRead(pre: string, d: Delimiters, newline: string, more: string)
    requires Known(d) && IsNewline(newline)
    ensures LineAt(pre + OpenLine(d) + newline + more, |pre|)
            == TextLine(OpenLine(d), |pre| + |OpenLine(d)| + |newline|, true)
    ensures TrimEnd(OpenLine(d)) == OpenLine(d)
  {
    OpenLineIsInert(d);
    hide OpenLine, LineAt, TrimEnd, DropCR, IsCookie, IsDirective, OneLine, Known;
    LineJoined(pre, OpenLine(d), newline, more);
  }

  /** A written block is found where it starts, and exactly as long as it is. */
  lemma {:induction false} BlockFound(pre: string, d: Delimiters, lines: seq<string>, newline: string, rest: Option<string>)
    requires Writable(d, lines) && IsNewline(newline)
    ensures BlockAt(pre + BlockText(d, lines, newline) + Tail(newline, rest), |pre|, d)
            == Some(SpanTo(|pre|, |pre| + |BlockText(d, lines, newline)|, newline, rest))
  {
    hide BlockRest, OpenLine, LineAt, SeekClose, BlockAt, Tail, TrimEnd, WritableLine, SpanTo;
    var open, behind := OpenLine(d), BlockRest(d, lines, newline);
    assert BlockText(d, lines, newline) == open + newline + behind;
    CloseFoundBehind(pre + open + newline, |pre|, d, lines, newline, rest);
    OpenLineRead(pre, d, newline, behind + Tail(newline, rest));
    Regroup(pre, open, newline, behind, Tail(newline, rest));
    BlockOpens(pre + open + newline + (behind + Tail(newline, rest)), |pre|, d,
               TextLine(open, |pre| + |open| + |newline|, true),
               Some(SpanTo(|pre|, |pre + open + newline| + |behind|, newline, rest)));
  }

  // ---------- the head of an injected text ----------

  lemma {:induction false} HeadAt(text: string, spec: Spec, pos: nat, span: Span)
    requires CarrierPosition(text, spec.prologue) == Some(Position(pos, false))
    requires pos <= |text| && BlockAt(text, pos, spec.delimiters) == Some(span)
    ensures FindHead(text, spec) == Some(Head(span, RemoveFrom(text, span, BomLength(text)), spec.delimiters))
  {
    hide CarrierPosition, BlockAt, RemoveFrom, BomLength;
  }

  lemma {:induction false} HeadAtTheOldPlace(text: string, spec: Spec, pos: nat, span: Span)
    requires CarrierPosition(text, spec.prologue) == Some(Position(pos, false)) && pos <= |text|
    requires spec.legacy.None? && BlockAt(text, pos, spec.delimiters).None?
    requires BlockAt(text, BomLength(text), spec.delimiters) == Some(span)
    ensures FindHead(text, spec) == Some(Head(span, RemoveFrom(text, span, BomLength(text)), spec.delimiters))
  {
    hide CarrierPosition, BlockAt, RemoveFrom, BomLength;
  }

  /** The block written between `a` and `b`. */
  function Held(a: string, block: string, newline: string, b: string): string {
    a + block + Tail(newline, Some(b))
  }

  // ---------- the one text a block can be lost in ----------

  predicate IsHash(d: Delimiters) {
    d == Line("#")
  }

  /** The block's second line passes for an encoding cookie, so the position moves into the block. */
  predicate Intrudes(c: string, lines: seq<string>, spec: Spec) {
    && spec.prologue.EncodingCookie? && IsHash(spec.delimiters)
    && CarrierPosition(c, spec.prologue) == Some(Position(BomLength(c), false))
    && lines != [] && IsCookie(InnerLine(spec.delimiters, lines[0]))
  }

  /** And the line behind it passes for the first line of a block. */
  predicate Hijacked(c: string, lines: seq<string>, spec: Spec) {
    Intrudes(c, lines, spec) && |lines| >= 2 && TrimEnd(lines[1]) == START
  }

  lemma {:induction false} HashInnerOpens(d: Delimiters, line: string)
    requires IsHash(d) && WritableLine(d, line)
    ensures TrimEnd(InnerLine(d, line)) == OpenLine(d) <==> TrimEnd(line) == START
  {
    SentinelText();
    TrimEndConcat("# ", line);
    assert "# " + START == OpenLine(d);
    hide START;
    assert TrimEnd("# ") == TrimEnd("#") == "#";
    if line != [] && TrimEnd(line) != [] {
      assert ("# " + TrimEnd(line))[2..] == TrimEnd(line);
      assert ("# " + START)[2..] == START;
    }
  }

  lemma {:induction false} HashCloseOpensNot(d: Delimiters)
    requires IsHash(d)
    ensures TrimEnd(CloseLine(d)) != OpenLine(d)
  {
    CloseLineIsPlain(d);
    assert CloseLine(d)[2] == '<' && OpenLine(d)[2] == '>';
  }

  lemma {:induction false} CloseOpensNoBlock(pre: string, d: Delimiters, newline: string, more: string)
    requires IsHash(d) && IsNewline(newline)
    ensures BlockAt(pre + CloseLine(d) + newline + more, |pre|, d).None?
  {
    CloseLineIsPlain(d);
    HashCloseOpensNot(d);
    hide CloseLine, OpenLine, TrimEnd, LineAt, SeekClose, DropCR, OneLine, Known;
    LineJoined(pre, CloseLine(d), newline, more);
  }

  lemma {:induction false} OpensOrNot(text: string, pos: nat, d: Delimiters, first: TextLine, span: Option<Span>)
    requires pos <= |text| && LineAt(text, pos) == first && first.terminated
    requires SeekClose(text, pos, first.next, d) == span
    ensures BlockAt(text, pos, d) == if TrimEnd(first.content) == OpenLine(d) then span else None
  {
    hide TrimEnd, OpenLine, LineAt, SeekClose;
  }

  lemma {:induction false} HashInnerRead(pre: string, d: Delimiters, line: string, newline: string, more: string)
    requires IsHash(d) && WritableLine(d, line) && IsNewline(newline)
    ensures var inner := InnerLine(d, line);
            LineAt(pre + inner + newline + more, |pre|) == TextLine(inner, |pre| + |inner| + |newline|, true)
  {
    InnerIsComment(d, line, newline);
    hide InnerLine, LineAt, Rejoined, TrimStart, StartsWith, WritableLine;
    InnerLineRead(pre, d, line, newline, more);
  }

  lemma {:induction false} HashWritableTail(d: Delimiters, lines: seq<string>)
    requires IsHash(d) && Writable(d, lines) && lines != []
    ensures Known(d) && Writable(d, lines[1..]) && WritableLine(d, lines[0])
  {
    hide WritableLine;
  }

  lemma {:induction false} RestOpens(pre: string, d: Delimiters, lines: seq<string>, newline: string, tail: string)
    requires lines != []
    ensures pre + BlockRest(d, lines, newline) + tail
            == pre + InnerLine(d, lines[0]) + newline + (BlockRest(d, lines[1..], newline) + tail)
  {
    hide InnerLine;
    Regroup(pre, InnerLine(d, lines[0]), newline, BlockRest(d, lines[1..], newline), tail);
  }

  lemma {:induction false} InnerReadInText(text: string, pre: string, d: Delimiters, lines: seq<string>, newline: string,
                                           tail: string)
    requires IsHash(d) && Writable(d, lines) && lines != [] && IsNewline(newline)
    requires text == pre + BlockRest(d, lines, newline) + tail
    ensures LineAt(text, |pre|)
            == TextLine(InnerLine(d, lines[0]), |pre| + |InnerLine(d, lines[0])| + |newline|, true)
  {
    hide InnerLine, BlockRest, LineAt, WritableLine, IsNewline, IsHash, Writable;
    HashWritableTail(d, lines);
    RestOpens(pre, d, lines, newline, tail);
    HashInnerRead(pre, d, lines[0], newline, BlockRest(d, lines[1..], newline) + tail);
  }

  lemma {:induction false} InnerSeekInText(text: string, pre: string, d: Delimiters, lines: seq<string>, newline: string,
                                           rest: Option<string>)
    requires IsHash(d) && Writable(d, lines) && lines != [] && IsNewline(newline)
    requires text == pre + BlockRest(d, lines, newline) + Tail(newline, rest)
    ensures |pre| + |InnerLine(d, lines[0])| + |newline| <= |text|
    ensures SeekClose(text, |pre|, |pre| + |InnerLine(d, lines[0])| + |newline|, d)
            == Some(SpanTo(|pre|, |pre| + |BlockRest(d, lines, newline)|, newline, rest))
  {
    hide InnerLine, BlockRest, SeekClose, SpanTo, Tail, WritableLine, IsNewline, Known, IsHash, Writable;
    HashWritableTail(d, lines);
    CloseFoundBehind(pre, |pre|, d, lines, newline, rest);
    RestOpens(pre, d, lines, newline, Tail(newline, rest));
    SeekPastInner(pre, |pre|, d, lines[0], newline, BlockRest(d, lines[1..], newline) + Tail(newline, rest));
  }

  /** Read from an inner line: a block starts there exactly when the line passes for a first line. */
  lemma {:induction false} InnerOpensBlock(text: string, pre: string, d: Delimiters, lines: seq<string>, newline: string,
                                           rest: Option<string>)
    requires IsHash(d) && Writable(d, lines) && lines != [] && IsNewline(newline)
    requires text == pre + BlockRest(d, lines, newline) + Tail(newline, rest)
    ensures BlockAt(text, |pre|, d)
            == if TrimEnd(lines[0]) == START
               then Some(SpanTo(|pre|, |pre| + |BlockRest(d, lines, newline)|, newline, rest)) else None
  {
    hide InnerLine, BlockRest, TrimEnd, OpenLine, LineAt, SeekClose, BlockAt, SpanTo, Tail, WritableLine,
         START, IsNewline, IsHash;
    InnerReadInText(text, pre, d, lines, newline, Tail(newline, rest));
    InnerSeekInText(text, pre, d, lines, newline, rest);
    OpensOrNot(text, |pre|, d, TextLine(InnerLine(d, lines[0]), |pre| + |InnerLine(d, lines[0])| + |newline|, true),
               Some(SpanTo(|pre|, |pre| + |BlockRest(d, lines, newline)|, newline, rest)));
    HashInnerOpens(d, lines[0]);
  }

  /** Read behind the block's second line: a block starts there exactly when the third passes for a first. */
  lemma {:induction false} ThirdLine(text: string, pre: string, d: Delimiters, lines: seq<string>, newline: string, b: string)
    requires IsHash(d) && Writable(d, lines) && IsNewline(newline)
    requires text == pre + BlockRest(d, lines, newline) + Tail(newline, Some(b))
    ensures BlockAt(text, |pre|, d)
            == if lines != [] && TrimEnd(lines[0]) == START
               then Some(SpanTo(|pre|, |pre| + |BlockRest(d, lines, newline)|, newline, Some(b))) else None
  {
    hide InnerLine, TrimEnd, OpenLine, LineAt, SeekClose, BlockAt, SpanTo, WritableLine, START, IsNewline, IsHash;
    if lines == [] {
      CloseOpensNoBlock(pre, d, newline, b);
      assert text == pre + CloseLine(d) + newline + b;
    } else {
      hide BlockRest, Tail;
      InnerOpensBlock(text, pre, d, lines, newline, Some(b));
    }
  }

  lemma {:induction false} BlockOpensText(a: string, d: Delimiters, lines: seq<string>, newline: string, tail: string)
    ensures a + BlockText(d, lines, newline) + tail == (a + OpenLine(d) + newline) + BlockRest(d, lines, newline) + tail
    ensures a + BlockText(d, lines, newline) + tail == a + (OpenLine(d) + newline + (BlockRest(d, lines, newline) + tail))
  {
    hide OpenLine, BlockRest;
    Regroup(a, OpenLine(d), newline, BlockRest(d, lines, newline), tail);
  }

  lemma {:induction false} StartIsPlain()
    ensures OneLine(START) && TrimEnd(START) == START && |START| == 15
    ensures forall i :: 0 <= i < |START| ==> ' ' <= START[i] <= '~'
  {
    TrimEndSolid(START);
  }

  lemma {:induction false} HashTextIsComment(text: string)
    requires forall i :: 0 <= i < |text| ==> ' ' <= text[i] <= '~'
    ensures IsCommentOrBlank("# " + text)
  {
    var line := "# " + text;
    assert SkipIndent(line) == line;
    forall i | 1 <= i < |line| ensures !EndsLine(line[i]) {
      if i >= 2 { assert line[i] == text[i - 2]; }
    }
  }

  lemma {:induction false} HashOpenLine(d: Delimiters)
    requires IsHash(d)
    ensures IsCommentOrBlank(OpenLine(d))
  {
    hide START, IsCommentOrBlank;
    StartIsPlain();
    HashTextIsComment(START);
    assert OpenLine(d) == "# " + START;
  }

  lemma {:induction false} HashOpensComment(d: Delimiters)
    requires Known(d)
    ensures IsCommentOrBlank(OpenLine(d)) <==> IsHash(d)
  {
    hide OpenLine, IsCommentOrBlank, Inert, Known;
    OpenLineIsInert(d);
    if IsHash(d) { HashOpenLine(d); }
  }

  /** The second line of a text that starts with the block, and where the third begins. */
  lemma {:induction false} SecondLine(text: string, a: string, d: Delimiters, lines: seq<string>, newline: string, tail: string)
    requires IsHash(d) && Writable(d, lines) && lines != [] && IsNewline(newline)
    requires text == a + BlockText(d, lines, newline) + tail
    ensures var second := |a| + |OpenLine(d)| + |newline|;
            LineAt(text, second)
            == TextLine(InnerLine(d, lines[0]), second + |InnerLine(d, lines[0])| + |newline|, true)
  {
    hide OpenLine, InnerLine, BlockRest, BlockText, LineAt, IsHash, Writable, IsNewline;
    BlockOpensText(a, d, lines, newline, tail);
    InnerReadInText(text, a + OpenLine(d) + newline, d, lines, newline, tail);
  }

  lemma {:induction false} OpenLineIsPlain(d: Delimiters)
    requires Known(d)
    ensures OneLine(OpenLine(d)) && DropCR(OpenLine(d)) == OpenLine(d) && |OpenLine(d)| >= 6
  {
    OpenLineIsInert(d);
  }

  lemma {:induction false} OpensHeld(a: string, d: Delimiters, lines: seq<string>, newline: string, tail: string)
    requires Known(d) && IsNewline(newline)
    ensures OpensWith(a, BlockText(d, lines, newline) + tail, OpenLine(d), |a| + |OpenLine(d)| + |newline|)
    ensures var x := BlockText(d, lines, newline) + tail;
            Inert(OpenLine(d)) && |x| >= 6 && x[..6] == OpenLine(d)[..6]
  {
    hide OpenLine, BlockRest, LineAt, OpensWith, IsNewline, Inert, OneLine, DropCR, Known;
    OpenLineIsInert(d);
    OpenLineIsPlain(d);
    var behind := BlockRest(d, lines, newline) + tail;
    OpensWithJoined(a, OpenLine(d), newline, behind);
    assert BlockText(d, lines, newline) + tail == OpenLine(d) + newline + behind;
  }

  /** Where the block's third line begins. */
  function ThirdAt(a: string, d: Delimiters, first: string, newline: string): nat {
    |a| + |OpenLine(d)| + |newline| + |InnerLine(d, first)| + |newline|
  }

  lemma {:induction false} PlacedOnText(text: string, a: string, b: string, d: Delimiters, lines: seq<string>, newline: string,
                                        tail: string, prologue: Prologue)
    requires CarrierPosition(a + b, prologue) == Some(Position(|a|, false))
    requires Known(d) && IsNewline(newline) && text == a + BlockText(d, lines, newline) + tail
    ensures BomLength(text) == BomLength(a + b) && |a| + |OpenLine(d)| + |newline| <= |text|
    ensures var second := LineAt(text, |a| + |OpenLine(d)| + |newline|);
            CarrierPosition(text, prologue)
            == if prologue.EncodingCookie? && |a| == BomLength(a + b) && IsHash(d) && IsCookie(second.content)
               then Some(if second.terminated then Position(second.next, false) else Position(|text|, true))
               else Some(Position(|a|, false))
  {
    hide OpenLine, BlockText, CarrierPosition, OpensWith, InnerLine, IsCookie, IsCommentOrBlank, LineAt, Inert, BomLength,
         IsNewline, Known, IsHash;
    var x := BlockText(d, lines, newline) + tail;
    assert text == a + x;
    OpensHeld(a, d, lines, newline, tail);
    HashOpensComment(d);
    PlacedInText(text, a, b, x, OpenLine(d), |a| + |OpenLine(d)| + |newline|, prologue);
  }

  lemma {:induction false} PlacedInText(text: string, a: string, b: string, x: string, line: string, next: nat,
                                        prologue: Prologue)
    requires CarrierPosition(a + b, prologue) == Some(Position(|a|, false)) && text == a + x
    requires OpensWith(a, x, line, next) && Inert(line) && |x| >= 6 && x[..6] == line[..6]
    ensures BomLength(text) == BomLength(a + b) && next <= |text|
    ensures CarrierPosition(text, prologue)
            == if prologue.EncodingCookie? && |a| == BomLength(a + b) && IsCommentOrBlank(line)
                  && IsCookie(LineAt(text, next).content)
               then (var second := LineAt(text, next);
                     Some(if second.terminated then Position(second.next, false) else Position(|text|, true)))
               else Some(Position(|a|, false))
  {
    hide CarrierPosition, IsCookie, IsCommentOrBlank, LineAt, Inert, BomLength;
    PlacedAgain(a, b, x, line, next, prologue);
  }

  /** The position computed on a text that holds the block where it belongs. */
  lemma {:induction false} PlacedOnHeld(text: string, a: string, b: string, spec: Spec, lines: seq<string>, newline: string,
                                        tail: string)
    requires CarrierPosition(a + b, spec.prologue) == Some(Position(|a|, false))
    requires Writable(spec.delimiters, lines) && lines != [] && IsNewline(newline)
    requires text == a + BlockText(spec.delimiters, lines, newline) + tail
    ensures BomLength(text) == BomLength(a + b)
    ensures CarrierPosition(text, spec.prologue)
            == Some(Position(if Intrudes(a + b, lines, spec) then ThirdAt(a, spec.delimiters, lines[0], newline) else |a|, false))
  {
    var d := spec.delimiters;
    hide OpenLine, BlockText, CarrierPosition, InnerLine, IsCookie, LineAt, BomLength, IsNewline, WritableLine, Known;
    PlacedOnText(text, a, b, d, lines, newline, tail, spec.prologue);
    if IsHash(d) { SecondLine(text, a, d, lines, newline, tail); }
  }

  lemma {:induction false} ThirdShape(a: string, d: Delimiters, lines: seq<string>, newline: string, tail: string)
    returns (pre: string)
    requires lines != []
    ensures |pre| == ThirdAt(a, d, lines[0], newline)
    ensures |pre| + |BlockRest(d, lines[1..], newline)| == |a| + |BlockText(d, lines, newline)|
    ensures a + BlockText(d, lines, newline) + tail == pre + BlockRest(d, lines[1..], newline) + tail
  {
    var open, inner, behind := OpenLine(d), InnerLine(d, lines[0]), BlockRest(d, lines[1..], newline);
    assert BlockText(d, lines, newline) == open + newline + (inner + newline + behind);
    hide OpenLine, InnerLine, BlockRest, BlockText;
    pre := a + open + newline + inner + newline;
    Regroup(a, open, newline, inner + newline + behind, tail);
    Regroup(a + open + newline, inner, newline, behind, tail);
  }

  lemma {:induction false} ThirdOfHeld(text: string, a: string, d: Delimiters, lines: seq<string>, newline: string, b: string)
    requires IsHash(d) && Writable(d, lines) && lines != [] && IsNewline(newline)
    requires text == Held(a, BlockText(d, lines, newline), newline, b)
    ensures ThirdAt(a, d, lines[0], newline) <= |text|
    ensures BlockAt(text, ThirdAt(a, d, lines[0], newline), d)
            == if |lines| >= 2 && TrimEnd(lines[1]) == START
               then Some(SpanTo(ThirdAt(a, d, lines[0], newline), |a| + |BlockText(d, lines, newline)|, newline, Some(b)))
               else None
  {
    hide OpenLine, InnerLine, BlockRest, BlockText, ThirdAt, BlockAt, TrimEnd, START, IsHash, Writable, IsNewline, SpanTo, Tail;
    HashWritableTail(d, lines);
    var pre := ThirdShape(a, d, lines, newline, Tail(newline, Some(b)));
    ThirdLine(text, pre, d, lines[1..], newline, b);
  }

  lemma {:induction false} NothingSupplied(text: string, start: nat, stop: nat, newline: string, b: string)
    requires IsNewline(newline) && start <= |text|
    ensures RemoveFrom(text, SpanTo(start, stop, newline, Some(b)), BomLength(text)) == start
  {}

  lemma {:induction false} HeadWithin(text: string, spec: Spec, pos: nat, stop: nat, newline: string, b: string)
    requires CarrierPosition(text, spec.prologue) == Some(Position(pos, false)) && IsNewline(newline)
    requires pos <= |text| && BlockAt(text, pos, spec.delimiters) == Some(SpanTo(pos, stop, newline, Some(b)))
    ensures FindHead(text, spec) == Some(Head(SpanTo(pos, stop, newline, Some(b)), pos, spec.delimiters))
  {
    hide CarrierPosition, BlockAt, RemoveFrom, BomLength, SpanTo, FindHead, IsNewline;
    NothingSupplied(text, pos, stop, newline, b);
    HeadAt(text, spec, pos, SpanTo(pos, stop, newline, Some(b)));
  }

  lemma {:induction false} HeadWithinOld(text: string, spec: Spec, pos: nat, start: nat, stop: nat, newline: string, b: string)
    requires CarrierPosition(text, spec.prologue) == Some(Position(pos, false)) && IsNewline(newline)
    requires pos <= |text| && spec.legacy.None? && BlockAt(text, pos, spec.delimiters).None?
    requires start == BomLength(text) && BlockAt(text, start, spec.delimiters) == Some(SpanTo(start, stop, newline, Some(b)))
    ensures FindHead(text, spec) == Some(Head(SpanTo(start, stop, newline, Some(b)), start, spec.delimiters))
  {
    hide CarrierPosition, BlockAt, RemoveFrom, BomLength, SpanTo, FindHead, IsNewline;
    NothingSupplied(text, start, stop, newline, b);
    HeadAtTheOldPlace(text, spec, pos, SpanTo(start, stop, newline, Some(b)));
  }

  /** Where the position and the block are, on a text that holds the block. */
  lemma {:induction false} HeldFacts(a: string, b: string, spec: Spec, lines: seq<string>, newline: string)
    requires CarrierPosition(a + b, spec.prologue) == Some(Position(|a|, false))
    requires Writable(spec.delimiters, lines) && lines != [] && IsNewline(newline)
    ensures var text := Held(a, BlockText(spec.delimiters, lines, newline), newline, b);
            && BomLength(text) == BomLength(a + b) && |a| <= |text|
            && CarrierPosition(text, spec.prologue)
               == Some(Position(if Intrudes(a + b, lines, spec) then ThirdAt(a, spec.delimiters, lines[0], newline) else |a|, false))
            && BlockAt(text, |a|, spec.delimiters)
               == Some(SpanTo(|a|, |a| + |BlockText(spec.delimiters, lines, newline)|, newline, Some(b)))
  {
    hide BlockText, CarrierPosition, BlockAt, BomLength, IsNewline, Writable, SpanTo, ThirdAt, Tail, Intrudes;
    PlacedOnHeld(Held(a, BlockText(spec.delimiters, lines, newline), newline, b), a, b, spec, lines, newline, Tail(newline, Some(b)));
    BlockFound(a, spec.delimiters, lines, newline, Some(b));
  }

  lemma {:induction false} HeadOfIntruded(a: string, b: string, spec: Spec, lines: seq<string>, newline: string)
    requires Intrudes(a + b, lines, spec) && |a| == BomLength(a + b) && spec.legacy.None?
    requires Writable(spec.delimiters, lines) && IsNewline(newline)
    ensures var block := BlockText(spec.delimiters, lines, newline);
            var start := if |lines| >= 2 && TrimEnd(lines[1]) == START then ThirdAt(a, spec.delimiters, lines[0], newline) else |a|;
            FindHead(Held(a, block, newline, b), spec)
            == Some(Head(SpanTo(start, |a| + |block|, newline, Some(b)), start, spec.delimiters))
  {
    hide BlockText, CarrierPosition, InnerLine, IsCookie, BlockAt, BomLength, IsNewline, Writable, FindHead, Held,
         SpanTo, ThirdAt, TrimEnd, START, IsHash;
    var block := BlockText(spec.delimiters, lines, newline);
    var text, third := Held(a, block, newline, b), ThirdAt(a, spec.delimiters, lines[0], newline);
    HeldFacts(a, b, spec, lines, newline);
    ThirdOfHeld(text, a, spec.delimiters, lines, newline, b);
    if |lines| >= 2 && TrimEnd(lines[1]) == START {
      HeadWithin(text, spec, third, |a| + |block|, newline, b);
    } else {
      HeadWithinOld(text, spec, third, |a|, |a| + |block|, newline, b);
    }
  }

  lemma {:induction false} HeadOfUndisturbed(a: string, b: string, spec: Spec, lines: seq<string>, newline: string)
    requires CarrierPosition(a + b, spec.prologue) == Some(Position(|a|, false)) && !Intrudes(a + b, lines, spec)
    requires Writable(spec.delimiters, lines) && lines != [] && IsNewline(newline)
    ensures var block := BlockText(spec.delimiters, lines, newline);
            FindHead(Held(a, block, newline, b), spec)
            == Some(Head(SpanTo(|a|, |a| + |block|, newline, Some(b)), |a|, spec.delimiters))
  {
    var block := BlockText(spec.delimiters, lines, newline);
    hide BlockText, CarrierPosition, BlockAt, BomLength, IsNewline, Writable, FindHead, Held, SpanTo, ThirdAt, Intrudes;
    HeldFacts(a, b, spec, lines, newline);
    HeadWithin(Held(a, block, newline, b), spec, |a|, |a| + |block|, newline, b);
  }

  /** The block found in a text that holds one behind a terminated prologue. */
  lemma {:induction false} HeadOfHeld(a: string, b: string, spec: Spec, lines: seq<string>, newline: string)
    requires CarrierPosition(a + b, spec.prologue) == Some(Position(|a|, false)) && FromTables(spec)
    requires Writable(spec.delimiters, lines) && lines != [] && IsNewline(newline)
    ensures var block := BlockText(spec.delimiters, lines, newline);
            var start := if Hijacked(a + b, lines, spec) then ThirdAt(a, spec.delimiters, lines[0], newline) else |a|;
            FindHead(Held(a, block, newline, b), spec)
            == Some(Head(SpanTo(start, |a| + |block|, newline, Some(b)), start, spec.delimiters))
  {
    hide BlockText, CarrierPosition, InnerLine, IsCookie, BomLength, IsNewline, Writable, Known, FindHead, SpanTo, ThirdAt,
         TrimEnd, START, Held;
    if Intrudes(a + b, lines, spec) {
      HeadOfIntruded(a, b, spec, lines, newline);
    } else {
      HeadOfUndisturbed(a, b, spec, lines, newline);
    }
  }

  lemma {:induction false} SuppliedFacts(a: string, spec: Spec, lines: seq<string>, newline: string)
    requires CarrierPosition(a, spec.prologue) == Some(Position(|a|, false)) && |a| > BomLength(a)
    requires Writable(spec.delimiters, lines) && lines != [] && IsNewline(newline)
    ensures var text := a + BlockText(spec.delimiters, lines, newline);
            && BomLength(text) == BomLength(a)
            && CarrierPosition(text, spec.prologue) == Some(Position(|a|, false))
            && BlockAt(text, |a|, spec.delimiters) == Some(Span(|a|, |text|, |text|))
  {
    hide BlockText, CarrierPosition, BlockAt, BomLength, IsNewline, Writable, ThirdAt;
    var block := BlockText(spec.delimiters, lines, newline);
    assert a + [] == a && a + block + [] == a + block;
    PlacedOnHeld(a + block, a, [], spec, lines, newline, []);
    BlockFound(a, spec.delimiters, lines, newline, None);
  }

  /** The block found behind a prologue whose terminator the insertion supplied. */
  lemma {:induction false} HeadOfSupplied(c: string, spec: Spec, lines: seq<string>, newline: string)
    requires CarrierPosition(c, spec.prologue) == Some(Position(|c|, true))
    requires Writable(spec.delimiters, lines) && lines != [] && IsNewline(newline)
    ensures var text := c + newline + BlockText(spec.delimiters, lines, newline);
            var span := Span(|c| + |newline|, |text|, |text|);
            && FindHead(text, spec) == Some(Head(span, RemoveFrom(text, span, BomLength(text)), spec.delimiters))
            && BomLength(text) == BomLength(c)
  {
    hide BlockText, CarrierPosition, BlockAt, BomLength, Writable, FindHead, RemoveFrom;
    TerminatorSupplied(c, newline, spec.prologue);
    SuppliedFacts(c + newline, spec, lines, newline);
    var text := c + newline + BlockText(spec.delimiters, lines, newline);
    HeadAt(text, spec, |c| + |newline|, Span(|c| + |newline|, |text|, |text|));
  }
}
