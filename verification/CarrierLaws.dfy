/** What the comment carrier promises: removal, re-injection, extraction, and a stable strategy. */
module CarrierLaws {
  import opened Text
  import opened Carrier
  import opened CarrierRoundTrip

  // ---------- removal ----------

  predicate EndsWithCR(c: string) {
    c != [] && c[|c| - 1] == '\r'
  }

  /**
   When insertion had to supply a line break, removal must be able to tell which one it was. A
   newline of the body's own convention always satisfies this.
   */
  predicate NewlineMatches(body: string, newline: string, prologue: Prologue) {
    var position := CarrierPosition(body, prologue);
    position.Some? && position.value.unterminated ==>
      if newline == "\r\n" then DetectNewline(body) == "\r\n" else !(EndsWithCR(body) && DetectNewline(body) == "\r\n")
  }

  lemma {:induction false} OwnConventionMatches(body: string, prologue: Prologue)
    ensures NewlineMatches(body, DetectNewline(body), prologue)
  {}

  lemma {:induction false} DetectWithoutCR(c: string)
    requires EndsWithCR(c)
    ensures DetectNewline(c[..|c| - 1]) == DetectNewline(c)
  {
    var lf, t := Find(c, '\n', 0), c[..|c| - 1];
    assert forall i :: 0 <= i < |t| ==> t[i] == c[i];
    FindUnique(t, '\n', 0, if lf == |c| then |t| else lf);
  }

  /** How much of a supplied line break removal takes back. */
  lemma {:induction false} TakenBack(c: string, newline: string, block: string, bom: nat)
    requires IsNewline(newline) && bom <= |c|
    ensures var text := c + newline + block;
            RemoveFrom(text, Span(|c| + |newline|, |text|, |text|), bom)
            == if newline == "\r\n" then (if DetectNewline(c) == "\r\n" then |c| else |c| + 1)
               else if EndsWithCR(c) && DetectNewline(c) == "\r\n" then |c| - 1 else |c|
  {
    var text, start := c + newline + block, |c| + |newline|;
    hide DetectNewline;
    if newline == "\r\n" {
      assert text[start - 2..start] == newline && text[..start - 2] == c;
    } else {
      assert text[start - 1] == '\n';
      if EndsWithCR(c) {
        DetectWithoutCR(c);
        assert text[start - 2..start] == "\r\n" && text[..start - 2] == c[..|c| - 1];
      } else if start >= 2 {
        assert text[start - 2..start][0] == c[|c| - 1];
      }
    }
  }

  lemma {:induction false} SuppliedStripped(c: string, spec: Spec, lines: seq<string>, newline: string)
    requires CarrierPosition(c, spec.prologue) == Some(Position(|c|, true))
    requires Writable(spec.delimiters, lines) && lines != [] && IsNewline(newline)
    ensures Strip(c + newline + BlockText(spec.delimiters, lines, newline), spec) == c
            <==> NewlineMatches(c, newline, spec.prologue)
  {
    hide BlockText, CarrierPosition, BomLength, Writable, FindHead, RemoveFrom, DetectNewline;
    var block := BlockText(spec.delimiters, lines, newline);
    var text := c + newline + block;
    HeadOfSupplied(c, spec, lines, newline);
    TakenBack(c, newline, block, BomLength(c));
    var cut := RemoveFrom(text, Span(|c| + |newline|, |text|, |text|), BomLength(text));
    assert Strip(text, spec) == text[..cut] + text[|text|..] == text[..cut];
    if cut == |c| { assert text[..cut] == c; } else { assert |text[..cut]| != |c|; }
  }

  lemma {:induction false} HeldStripped(a: string, b: string, spec: Spec, lines: seq<string>, newline: string)
    requires CarrierPosition(a + b, spec.prologue) == Some(Position(|a|, false)) && FromTables(spec)
    requires Writable(spec.delimiters, lines) && lines != [] && IsNewline(newline)
    ensures Strip(Held(a, BlockText(spec.delimiters, lines, newline), newline, b), spec) == a + b
            <==> !Hijacked(a + b, lines, spec)
  {
    hide BlockText, CarrierPosition, BomLength, Writable, FindHead, Known, TrimEnd, IsCookie, InnerLine, START, OpenLine;
    var block := BlockText(spec.delimiters, lines, newline);
    var text := Held(a, block, newline, b);
    HeadOfHeld(a, b, spec, lines, newline);
    assert text[|a| + |block| + |newline|..] == b;
    if Hijacked(a + b, lines, spec) {
      assert |Strip(text, spec)| > |a + b|;
    } else {
      assert text[..|a|] == a;
    }
  }

  /** The lines the block is written from, and the text it becomes. */
  lemma {:induction false} BlockOfYaml(yaml: string, d: Delimiters, newline: string)
    requires Known(d) && YamlToBlock(yaml, d, newline).Some?
    ensures Writable(d, SplitLines(yaml)) && SplitLines(yaml) != []
    ensures YamlToBlock(yaml, d, newline) == Some(BlockText(d, SplitLines(yaml), newline))
  {
    SplitLinesAreWritable(yaml, d);
    BlockIsItsText(d, SplitLines(yaml), newline);
  }

  /** Insertion, seen from the two sides of the carrier position. */
  lemma {:induction false} InjectedText(body: string, block: string, newline: string, prologue: Prologue)
    requires CarrierPosition(body, prologue).Some?
    ensures var position := CarrierPosition(body, prologue).value;
            var a, b := body[..position.offset], body[position.offset..];
            && a + b == body && |a| == position.offset
            && Inject(body, block, newline, prologue)
               == Some(if position.unterminated then body + newline + block else Held(a, block, newline, b))
  {
    hide CarrierPosition;
    var position := CarrierPosition(body, prologue).value;
    var a, b := body[..position.offset], body[position.offset..];
    assert a + block + newline + b == a + block + (newline + b);
  }

  lemma {:induction false} UnterminatedAtEnd(body: string, prologue: Prologue)
    requires CarrierPosition(body, prologue).Some? && CarrierPosition(body, prologue).value.unterminated
    ensures CarrierPosition(body, prologue) == Some(Position(|body|, true))
  {
    hide AfterPrologue, AfterShebang;
  }

  /**
   Removing the block after inserting it gives the text back, character for character, exactly when
   the block's own lines do not pass for a cookie and a first line, and a line break that insertion
   supplied is of a kind removal recognises.
   */
  lemma {:induction false} StripUndoesInjection(body: string, yaml: string, newline: string, spec: Spec)
    requires FromTables(spec) && IsNewline(newline)
    requires YamlToBlock(yaml, spec.delimiters, newline).Some? && CarrierPosition(body, spec.prologue).Some?
    ensures Inject(body, YamlToBlock(yaml, spec.delimiters, newline).value, newline, spec.prologue).Some?
    ensures Strip(Inject(body, YamlToBlock(yaml, spec.delimiters, newline).value, newline, spec.prologue).value, spec) == body
            <==> !Hijacked(body, SplitLines(yaml), spec) && NewlineMatches(body, newline, spec.prologue)
  {
    hide YamlToBlock, BlockText, CarrierPosition, Strip, Inject, Held, Writable, DetectNewline, Known, SplitLines, BomLength,
         TrimEnd, START, IsCookie, InnerLine, IsHash, IsNewline;
    var lines := SplitLines(yaml);
    BlockOfYaml(yaml, spec.delimiters, newline);
    InjectedText(body, BlockText(spec.delimiters, lines, newline), newline, spec.prologue);
    var position := CarrierPosition(body, spec.prologue).value;
    if position.unterminated {
      UnterminatedAtEnd(body, spec.prologue);
      SuppliedStripped(body, spec, lines, newline);
    } else {
      HeldStripped(body[..position.offset], body[position.offset..], spec, lines, newline);
    }
  }

  // ---------- the form an earlier version wrote ----------

  lemma {:induction false} OpenersDiffer(d: Delimiters, e: Delimiters)
    requires Known(d) && Known(e) && d != e
    ensures OpenLine(d) != OpenLine(e)
  {
    assert OpenLine(d)[0] == (if d.Line? then d.prefix[0] else d.open[0]);
    assert OpenLine(e)[0] == (if e.Line? then e.prefix[0] else e.open[0]);
    assert d.Line? ==> OpenLine(d)[1] == (if |d.prefix| > 1 then d.prefix[1] else ' ');
    assert e.Line? ==> OpenLine(e)[1] == (if |e.prefix| > 1 then e.prefix[1] else ' ');
    assert d.Block? ==> OpenLine(d)[1] == d.open[1];
    assert e.Block? ==> OpenLine(e)[1] == e.open[1];
  }

  lemma {:induction false} OtherOpenerNotRead(pre: string, d: Delimiters, e: Delimiters, newline: string, more: string)
    requires Known(d) && Known(e) && d != e && IsNewline(newline)
    ensures BlockAt(pre + OpenLine(d) + newline + more, |pre|, e).None?
  {
    OpenersDiffer(d, e);
    OpenLineRead(pre, d, newline, more);
    hide OpenLine, LineAt, TrimEnd, SeekClose, Known, IsNewline;
  }

  lemma {:induction false} OldPlace(a: string, d: Delimiters, tail: string)
    requires Known(d) && (a == [] || a == BOM)
    ensures BomLength(a + OpenLine(d) + tail) == |a|
    ensures CarrierPosition(a + OpenLine(d) + tail, NoPrologue) == Some(Position(|a|, false))
  {
    var text := a + OpenLine(d) + tail;
    assert OpenLine(d)[0] != '\U{FEFF}' && (OpenLine(d)[0] != '#' || OpenLine(d)[1] != '!') && |OpenLine(d)| > 2;
    assert text[|a|] == OpenLine(d)[0] && text[|a| + 1] == OpenLine(d)[1];
    hide OpenLine;
    if a == BOM { assert text[..1] == BOM; } else { assert text[..1][0] != BOM[0]; }
    assert text[|a|..][..2][0] == text[|a|] && text[|a|..][..2][1] == text[|a| + 1];
  }

  lemma {:induction false} OlderHead(text: string, spec: Spec, pos: nat, span: Span)
    requires spec.prologue.NoPrologue? && spec.legacy.Some? && pos == BomLength(text)
    requires CarrierPosition(text, NoPrologue) == Some(Position(pos, false))
    requires BlockAt(text, pos, spec.delimiters).None? && BlockAt(text, pos, spec.legacy.value) == Some(span)
    requires RemoveFrom(text, span, pos) == pos
    ensures Strip(text, spec) == text[..pos] + text[span.end..]
  {
    hide CarrierPosition, BlockAt, RemoveFrom, BomLength;
  }

  /** A block in the older form, right behind the byte-order mark where that form stood, is removed as well. */
  lemma {:induction false} OlderFormIsRemoved(a: string, b: string, spec: Spec, lines: seq<string>, newline: string)
    requires FromTables(spec) && spec.legacy.Some? && spec.legacy.value != spec.delimiters
    requires Writable(spec.legacy.value, lines) && IsNewline(newline) && (a == [] || a == BOM)
    ensures Strip(Held(a, BlockText(spec.legacy.value, lines, newline), newline, b), spec) == a + b
  {
    hide OpenLine, CarrierPosition, BlockRest, BlockAt, BlockText, Known, IsNewline, BomLength, RemoveFrom, Strip, WritableLine, Tail;
    var older := spec.legacy.value;
    var block := BlockText(older, lines, newline);
    var text := Held(a, block, newline, b);
    var behind := BlockRest(older, lines, newline) + Tail(newline, Some(b));
    OlderText(a, older, lines, newline, b);
    OtherOpenerNotRead(a, older, spec.delimiters, newline, behind);
    OldPlace(a, older, newline + behind);
    BlockFound(a, older, lines, newline, Some(b));
    var span := SpanTo(|a|, |a| + |block|, newline, Some(b));
    NothingSupplied(text, |a|, |a| + |block|, newline, b);
    OlderHead(text, spec, |a|, span);
    OlderCut(a, block, newline, b);
  }

  lemma {:induction false} OlderText(a: string, d: Delimiters, lines: seq<string>, newline: string, b: string)
    ensures var behind := BlockRest(d, lines, newline) + Tail(newline, Some(b));
            Held(a, BlockText(d, lines, newline), newline, b) == a + OpenLine(d) + newline + behind == a + OpenLine(d) + (newline + behind)
  {
    hide OpenLine, BlockRest, Tail;
    Regroup(a, OpenLine(d), newline, BlockRest(d, lines, newline), Tail(newline, Some(b)));
    var behind := BlockRest(d, lines, newline) + Tail(newline, Some(b));
    assert a + OpenLine(d) + newline + behind == a + OpenLine(d) + (newline + behind);
  }

  lemma {:induction false} OlderCut(a: string, block: string, newline: string, b: string)
    ensures var text, span := Held(a, block, newline, b), SpanTo(|a|, |a| + |block|, newline, Some(b));
            |a| <= span.end <= |text| && text[..|a|] + text[span.end..] == a + b
  {}

  // ---------- the two ways removal fails ----------

  lemma {:induction false} NoneHoldsIt(line: string, needle: string)
    requires |line| < |needle| || (|line| == |needle| && line != needle)
    ensures !Contains(line, needle)
  {
    if |line| == |needle| { assert line[0..|needle|] == line; }
  }

  lemma {:induction false} OneCharacterMissing(line: string, needle: string)
    requires |needle| == 1 && needle[0] !in line
    ensures !Contains(line, needle)
  {
    forall i | 0 <= i <= |line| - |needle| ensures !OccursAt(line, needle, i) {
      assert line[i..i + |needle|][0] == line[i];
    }
  }

  lemma {:induction false} PlainLine(line: string)
    requires |line| < 15 || line == START
    requires forall i :: 0 <= i < |line| ==> ' ' <= line[i] <= '~'
    ensures forall f :: 0 <= f < |Forbidden(Line("#"))| ==> !Contains(line, Forbidden(Line("#"))[f])
  {
    assert |START| == 15 && |END| == 15 && START[0] != END[0];
    NoneHoldsIt(line, END);
    OneCharacterMissing(line, "\r");
    OneCharacterMissing(line, "\U{85}");
    OneCharacterMissing(line, "\U{2028}");
    OneCharacterMissing(line, "\U{2029}");
  }

  /** A first line that passes for a cookie, and behind it a line that is the opening sentinel itself. */
  lemma {:induction false} HijackHappens()
    ensures var spec, yaml := Spec(Line("#"), EncodingCookie, None), "coding: u" + "\n" + START;
            && YamlToBlock(yaml, spec.delimiters, "\n").Some?
            && Inject([], YamlToBlock(yaml, spec.delimiters, "\n").value, "\n", spec.prologue).Some?
            && Strip(Inject([], YamlToBlock(yaml, spec.delimiters, "\n").value, "\n", spec.prologue).value, spec) != []
  {
    var first, yaml, spec := "coding: u", "coding: u" + "\n" + START, Spec(Line("#"), EncodingCookie, None);
    StartIsPlain();
    CookieLine();
    hide SplitLines, IsCookie, START, TrimEnd, Contains, Inject, Strip, CarrierPosition;
    TwoLines(first, START);
    PlainLine(first);
    PlainLine(START);
    assert Representable([first, START], Line("#"));
    NothingToSkip();
    assert InnerLine(Line("#"), first) == "# " + first;
    hide InnerLine, Representable;
    assert Intrudes([], SplitLines(yaml), spec);
    assert Hijacked([], SplitLines(yaml), spec);
    hide Hijacked;
    StripUndoesInjection([], yaml, "\n", spec);
  }

  lemma {:induction false} NothingToSkip()
    ensures CarrierPosition([], EncodingCookie) == Some(Position(BomLength([]), false))
  {
    assert LineAt([], 0) == TextLine([], 0, false);
  }

  lemma {:induction false} TwoLines(first: string, second: string)
    requires OneLine(first) && OneLine(second) && DropCR(first) == first
    ensures SplitLines(first + "\n" + second) == [first, second]
  {
    SplitFirst(first, "\n", second);
    FindUnique(second, '\n', 0, |second|);
  }

  lemma {:induction false} CookieLine()
    ensures IsCookie("# " + "coding: u")
  {
    var line, rest := "# " + "coding: u", "coding: u";
    assert SkipIndent(line) == line;
    assert line[1..][1..] == rest;
    assert rest[..6] == "coding" && rest[6] == ':' && rest[7..] == " u";
    assert SkipBlanks(" u") == " u"[1..] == "u";
    assert CodingHere(rest);
    assert CodingLater(line[1..][1..]);
    assert line[1..][0] == ' ';
  }

  lemma {:induction false} BareShebang()
    ensures CarrierPosition("#!x", NoPrologue) == Some(Position(3, true)) && !NewlineMatches("#!x", "\r\n", NoPrologue)
  {
    var body := "#!x";
    assert !StartsWith(body, BOM) by { assert body[..1][0] == '#'; }
    assert body[0..] == body && body[..2] == "#!";
    FindUnique(body, '\n', 0, 3);
    assert LineAt(body, 0) == TextLine(body, 3, false);
  }

  /** A line break of the other convention is only half taken back. */
  lemma {:induction false} MismatchHappens()
    ensures var spec, yaml, newline := Spec(Line("#"), NoPrologue, None), "a", "\r\n";
            && YamlToBlock(yaml, spec.delimiters, newline).Some?
            && Inject("#!x", YamlToBlock(yaml, spec.delimiters, newline).value, newline, spec.prologue).Some?
            && Strip(Inject("#!x", YamlToBlock(yaml, spec.delimiters, newline).value, newline, spec.prologue).value, spec) != "#!x"
  {
    hide SplitLines, IsCookie, START, TrimEnd, Contains, Inject, Strip, CarrierPosition, Hijacked, NewlineMatches, InnerLine;
    var yaml, spec := "a", Spec(Line("#"), NoPrologue, None);
    OneLineYaml();
    PlainLine(yaml);
    assert Representable([yaml], Line("#"));
    BareShebang();
    hide Representable;
    StripUndoesInjection("#!x", yaml, "\r\n", spec);
  }

  lemma {:induction false} OneLineYaml()
    ensures SplitLines("a") == ["a"]
  {
    FindUnique("a", '\n', 0, 1);
  }
}
