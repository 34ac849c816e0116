/** Reading the block back: extraction, re-injection, and the strategy an injected file resolves to. */
module CarrierReading {
  import opened Text
  import opened Carrier
  import opened CarrierPlacement
  import opened CarrierRoundTrip
  import opened CarrierLaws

  // ---------- extraction ----------

  /** One line without its comment prefix, and without one blank behind it. */
  function Uncomment(prefix: string, line: string): string {
    var s := TrimStart(line);
    if !StartsWith(s, prefix) then line
    else
      var rest := s[|prefix|..];
      if rest != [] && rest[0] == ' ' then rest[1..] else rest
  }

  function Bare(d: Delimiters, lines: seq<string>): (bare: seq<string>)
    ensures |bare| == |lines|
  {
    match d
    case Line(p) => seq(|lines|, i requires 0 <= i < |lines| => Uncomment(p, lines[i]))
    case Block(_, _) => lines
  }

  /** Everything between the first and the last line. */
  function Inside(lines: seq<string>): seq<string> {
    if |lines| < 2 then [] else lines[1..|lines| - 1]
  }

  function ExtractInjectedYaml(raw: string, spec: Spec): Option<string> {
    match FindHead(raw, spec)
    case None => None
    case Some(head) =>
      Some(Trim(Join(Bare(head.delimiters, Inside(SplitLines(raw[head.span.start..head.span.blockEnd]))), "\n")))
  }

  /** The inner lines as a reader gets them: a line break swallows a carriage return before it. */
  function Reread(lines: seq<string>, newline: string): seq<string> {
    seq(|lines|, i requires 0 <= i < |lines| => Rejoined(lines[i], newline))
  }

  lemma {:induction false} UncommentInner(d: Delimiters, line: string, newline: string)
    requires Known(d) && d.Line? && WritableLine(d, line)
    ensures Uncomment(d.prefix, Rejoined(InnerLine(d, line), newline)) == line == Rejoined(line, newline)
  {
    InnerIsComment(d, line, newline);
    hide TrimStart, Contains, OneLine;
    if line == [] {
      assert InnerLine(d, line)[|d.prefix|..] == [];
    } else {
      assert InnerLine(d, line)[|d.prefix|..] == " " + line;
    }
  }

  lemma {:induction false} BlockLinesAreLines(d: Delimiters, lines: seq<string>)
    requires Writable(d, lines)
    ensures forall i :: 0 <= i < |BlockLines(d, lines)| ==> OneLine(BlockLines(d, lines)[i])
  {
    hide OpenLine, CloseLine, InnerLine, OneLine, WritableLine, Known, TrimEnd, DropCR;
    OpenLineIsPlain(d);
    CloseLineIsPlain(d);
    forall i | 0 <= i < |lines| ensures OneLine(InnerLines(d, lines)[i]) {
      InnerIsOneLine(d, lines[i]);
    }
  }

  lemma {:induction false} BlockSplit(d: Delimiters, lines: seq<string>, newline: string)
    requires Writable(d, lines) && IsNewline(newline)
    ensures var inner := Inside(SplitLines(BlockText(d, lines, newline)));
            |inner| == |lines| && forall i :: 0 <= i < |lines| ==> inner[i] == Rejoined(InnerLine(d, lines[i]), newline)
  {
    hide OpenLine, CloseLine, InnerLine, OneLine, Writable, SplitLines, BlockText, Rejoined, IsNewline;
    BlockIsItsText(d, lines, newline);
    BlockLinesAreLines(d, lines);
    var all := BlockLines(d, lines);
    SplitJoin(all, newline);
    forall i | 0 <= i < |lines| ensures Inside(SplitLines(BlockText(d, lines, newline)))[i] == Rejoined(InnerLine(d, lines[i]), newline) {
      assert all[i + 1] == InnerLines(d, lines)[i] == InnerLine(d, lines[i]);
    }
  }

  lemma {:induction false} BareBlock(d: Delimiters, lines: seq<string>, newline: string)
    requires Writable(d, lines) && IsNewline(newline)
    ensures Bare(d, Inside(SplitLines(BlockText(d, lines, newline)))) == Reread(lines, newline)
  {
    hide OpenLine, CloseLine, SplitLines, BlockText, Rejoined, IsNewline, WritableLine, Uncomment, Inside, Known;
    BlockSplit(d, lines, newline);
    forall i | 0 <= i < |lines|
      ensures Bare(d, Inside(SplitLines(BlockText(d, lines, newline))))[i] == Rejoined(lines[i], newline)
    {
      assert WritableLine(d, lines[i]);
      if d.Line? { UncommentInner(d, lines[i], newline); }
    }
  }

  lemma {:induction false} ExtractAt(text: string, spec: Spec, head: Head, block: string)
    requires FindHead(text, spec) == Some(head) && text[head.span.start..head.span.blockEnd] == block
    ensures ExtractInjectedYaml(text, spec) == Some(Trim(Join(Bare(head.delimiters, Inside(SplitLines(block))), "\n")))
  {
    hide FindHead, Trim, Join, Bare, Inside, SplitLines;
  }

  lemma {:induction false} ExtractHeld(a: string, b: string, spec: Spec, lines: seq<string>, newline: string)
    requires CarrierPosition(a + b, spec.prologue) == Some(Position(|a|, false)) && FromTables(spec)
    requires Writable(spec.delimiters, lines) && lines != [] && IsNewline(newline) && !Hijacked(a + b, lines, spec)
    ensures ExtractInjectedYaml(Held(a, BlockText(spec.delimiters, lines, newline), newline, b), spec)
            == Some(Trim(Join(Reread(lines, newline), "\n")))
  {
    hide BlockText, CarrierPosition, Writable, FindHead, Known, Hijacked, ThirdAt, IsNewline, Join, Trim, Reread,
         ExtractInjectedYaml, FromTables, SplitLines, Bare, Inside;
    var block := BlockText(spec.delimiters, lines, newline);
    HeadOfHeld(a, b, spec, lines, newline);
    BareBlock(spec.delimiters, lines, newline);
    assert Held(a, block, newline, b)[|a|..|a| + |block|] == block;
    ExtractAt(Held(a, block, newline, b), spec, Head(SpanTo(|a|, |a| + |block|, newline, Some(b)), |a|, spec.delimiters), block);
  }

  lemma {:induction false} ExtractSupplied(c: string, spec: Spec, lines: seq<string>, newline: string)
    requires CarrierPosition(c, spec.prologue) == Some(Position(|c|, true)) && IsNewline(newline)
    requires Writable(spec.delimiters, lines) && lines != []
    ensures ExtractInjectedYaml(c + newline + BlockText(spec.delimiters, lines, newline), spec)
            == Some(Trim(Join(Reread(lines, newline), "\n")))
  {
    hide BlockText, CarrierPosition, Writable, FindHead, Known, IsNewline, Join, Trim, Reread, RemoveFrom, BomLength,
         ExtractInjectedYaml, SplitLines, Bare, Inside;
    var block := BlockText(spec.delimiters, lines, newline);
    var text := c + newline + block;
    HeadOfSupplied(c, spec, lines, newline);
    BareBlock(spec.delimiters, lines, newline);
    assert text[|c| + |newline|..|text|] == block;
    ExtractAt(text, spec, FindHead(text, spec).value, block);
  }

  /** A reader gets the trimmed inner text of the block back. */
  lemma {:induction false} ExtractionReadsTheBlock(body: string, yaml: string, newline: string, spec: Spec)
    requires FromTables(spec) && IsNewline(newline)
    requires YamlToBlock(yaml, spec.delimiters, newline).Some? && CarrierPosition(body, spec.prologue).Some?
    requires !Hijacked(body, SplitLines(yaml), spec)
    ensures Inject(body, YamlToBlock(yaml, spec.delimiters, newline).value, newline, spec.prologue).Some?
    ensures ExtractInjectedYaml(Inject(body, YamlToBlock(yaml, spec.delimiters, newline).value, newline, spec.prologue).value, spec)
            == Some(Trim(Join(Reread(SplitLines(yaml), newline), "\n")))
  {
    hide YamlToBlock, BlockText, CarrierPosition, Inject, Held, Writable, Known, SplitLines, Hijacked, IsNewline, Join, Trim,
         Reread, ExtractInjectedYaml;
    var lines := SplitLines(yaml);
    BlockOfYaml(yaml, spec.delimiters, newline);
    InjectedText(body, BlockText(spec.delimiters, lines, newline), newline, spec.prologue);
    var position := CarrierPosition(body, spec.prologue).value;
    if position.unterminated {
      UnterminatedAtEnd(body, spec.prologue);
      ExtractSupplied(body, spec, lines, newline);
    } else {
      ExtractHeld(body[..position.offset], body[position.offset..], spec, lines, newline);
    }
  }

  lemma {:induction false} NoReturn(s: string, t: string)
    requires '\r' !in s + "\n" + t
    ensures '\r' !in s && '\r' !in t && DropCR(s) == s
  {
    forall i | 0 <= i < |s| ensures s[i] != '\r' { assert (s + "\n" + t)[i] == s[i]; }
    forall i | 0 <= i < |t| ensures t[i] != '\r' { assert (s + "\n" + t)[|s| + 1 + i] == t[i]; }
  }

  lemma {:induction false} SplitFirst(text: string)
    requires Find(text, '\n', 0) < |text|
    ensures var nl := Find(text, '\n', 0);
            && text == text[..nl] + "\n" + text[nl + 1..]
            && SplitLines(text) == [DropCR(text[..nl])] + SplitLines(text[nl + 1..])
  {
    hide DropCR;
  }

  lemma {:induction false} JoinSplit(yaml: string)
    requires '\r' !in yaml
    ensures Join(SplitLines(yaml), "\n") == yaml
    ensures forall line :: line in SplitLines(yaml) ==> '\r' !in line
    decreases |yaml|
  {
    hide DropCR, Find;
    var nl := Find(yaml, '\n', 0);
    if nl == |yaml| {
    } else {
      hide Join, SplitLines;
      SplitFirst(yaml);
      NoReturn(yaml[..nl], yaml[nl + 1..]);
      JoinSplit(yaml[nl + 1..]);
      JoinMore(yaml[..nl], SplitLines(yaml[nl + 1..]), "\n");
    }
  }

  /** Without carriage returns, that is the text the block was written from. */
  lemma {:induction false} ExtractionReturnsTheYaml(body: string, yaml: string, newline: string, spec: Spec)
    requires FromTables(spec) && IsNewline(newline) && '\r' !in yaml
    requires YamlToBlock(yaml, spec.delimiters, newline).Some? && CarrierPosition(body, spec.prologue).Some?
    requires !Hijacked(body, SplitLines(yaml), spec)
    ensures Inject(body, YamlToBlock(yaml, spec.delimiters, newline).value, newline, spec.prologue).Some?
    ensures ExtractInjectedYaml(Inject(body, YamlToBlock(yaml, spec.delimiters, newline).value, newline, spec.prologue).value, spec)
            == Some(Trim(yaml))
  {
    hide YamlToBlock, CarrierPosition, Inject, SplitLines, Hijacked, Join, Trim, ExtractInjectedYaml, FromTables, IsNewline;
    JoinSplit(yaml);
    var lines := SplitLines(yaml);
    assert Reread(lines, newline) == lines by {
      forall i | 0 <= i < |lines| ensures Rejoined(lines[i], newline) == lines[i] {
        assert lines[i] in lines && '\r' !in lines[i];
      }
    }
    hide Reread;
    ExtractionReadsTheBlock(body, yaml, newline, spec);
  }

  // ---------- re-injection ----------

  /** Rewriting the header of an injected text is writing it into the clean body. */
  lemma {:induction false} ReinjectionReplaces(body: string, first: string, second: string, newline: string, spec: Spec)
    requires FromTables(spec) && IsNewline(newline) && CarrierPosition(body, spec.prologue).Some?
    requires YamlToBlock(first, spec.delimiters, newline).Some? && YamlToBlock(second, spec.delimiters, newline).Some?
    requires !Hijacked(body, SplitLines(first), spec) && NewlineMatches(body, newline, spec.prologue)
    ensures var injected := Inject(body, YamlToBlock(first, spec.delimiters, newline).value, newline, spec.prologue);
            var block := YamlToBlock(second, spec.delimiters, newline).value;
            && injected.Some?
            && Inject(Strip(injected.value, spec), block, newline, spec.prologue) == Inject(body, block, newline, spec.prologue)
  {
    hide YamlToBlock, CarrierPosition, Inject, Strip, SplitLines, Hijacked, NewlineMatches, FromTables, IsNewline;
    StripUndoesInjection(body, first, newline, spec);
  }

  // ---------- the strategy ----------

  /** What the file's name decides. */
  datatype Family = BinaryName | FrontmatterName | CommentName(spec: Spec) | OtherName

  datatype Strategy = SkipBinary | YamlFrontmatter | Sidecar | Comment(spec: Spec)

  predicate ProbablyBinary(raw: string) {
    exists i :: 0 <= i < |raw| && i < 8192 && raw[i] == '\U{0}'
  }

  function ResolveStrategy(family: Family, raw: string): Strategy {
    if family.BinaryName? || ProbablyBinary(raw) then SkipBinary
    else match family
      case FrontmatterName => YamlFrontmatter
      case CommentName(spec) =>
        if !spec.prologue.NoPrologue? && CarrierPosition(Strip(raw, spec), spec.prologue).None? then Sidecar else Comment(spec)
      case _ => Sidecar
  }

  lemma {:induction false} BlockWithoutNul(d: Delimiters, lines: seq<string>, newline: string)
    requires Known(d) && IsNewline(newline) && forall i :: 0 <= i < |lines| ==> '\U{0}' !in lines[i]
    ensures '\U{0}' !in BlockText(d, lines, newline)
  {
    RestWithoutNul(d, lines, newline);
    SentinelsWithoutNul(d);
    hide OpenLine, BlockRest;
  }

  lemma {:induction false} SentinelsWithoutNul(d: Delimiters)
    requires Known(d)
    ensures '\U{0}' !in OpenLine(d) && '\U{0}' !in CloseLine(d)
  {
    assert '\U{0}' !in START && '\U{0}' !in END && '\U{0}' !in BLOCK_START && '\U{0}' !in BLOCK_END;
    hide START, END, BLOCK_START, BLOCK_END;
  }

  lemma {:induction false} RestWithoutNul(d: Delimiters, lines: seq<string>, newline: string)
    requires Known(d) && IsNewline(newline) && forall i :: 0 <= i < |lines| ==> '\U{0}' !in lines[i]
    ensures '\U{0}' !in BlockRest(d, lines, newline)
  {
    SentinelsWithoutNul(d);
    hide CloseLine;
    if lines == [] {
    } else {
      RestWithoutNul(d, lines[1..], newline);
    }
  }

  lemma {:induction false} LinesWithoutNul(yaml: string)
    requires '\U{0}' !in yaml
    ensures forall i :: 0 <= i < |SplitLines(yaml)| ==> '\U{0}' !in SplitLines(yaml)[i]
    decreases |yaml|
  {
    var nl := Find(yaml, '\n', 0);
    if nl == |yaml| {
    } else {
      LinesWithoutNul(yaml[nl + 1..]);
    }
  }

  lemma {:induction false} StillText(a: string, block: string, b: string)
    requires !ProbablyBinary(a + b) && '\U{0}' !in block
    ensures !ProbablyBinary(a + block + b)
  {
    var text := a + block + b;
    forall i | 0 <= i < |text| && i < 8192 ensures text[i] != '\U{0}' {
      if i < |a| { assert text[i] == (a + b)[i]; }
      else if i < |a| + |block| { assert text[i] == block[i - |a|]; }
      else { assert text[i] == (a + b)[i - |block|]; }
    }
  }

  lemma {:induction false} InjectedIsStillText(body: string, block: string, newline: string, prologue: Prologue)
    requires CarrierPosition(body, prologue).Some? && IsNewline(newline)
    requires !ProbablyBinary(body) && '\U{0}' !in block
    ensures Inject(body, block, newline, prologue).Some?
    ensures !ProbablyBinary(Inject(body, block, newline, prologue).value)
  {
    hide CarrierPosition, ProbablyBinary;
    var position := CarrierPosition(body, prologue).value;
    if position.unterminated {
      assert body + [] == body && body + newline + block == body + (newline + block) + [];
      StillText(body, newline + block, []);
    } else {
      var a, b := body[..position.offset], body[position.offset..];
      assert a + b == body && a + block + newline + b == a + (block + newline) + b;
      StillText(a, block + newline, b);
    }
  }

  lemma {:induction false} CookieTextAlwaysHasAPlace(text: string)
    ensures CarrierPosition(text, EncodingCookie).Some?
  {
    hide AfterCookie, AfterShebang;
  }

  /** A clean file and the file that holds its block resolve to the same strategy. */
  lemma {:induction false} StrategyIsStable(body: string, yaml: string, newline: string, spec: Spec)
    requires FromTables(spec) && IsNewline(newline)
    requires YamlToBlock(yaml, spec.delimiters, newline).Some? && '\U{0}' !in yaml
    requires Strip(body, spec) == body && ResolveStrategy(CommentName(spec), body) == Comment(spec)
    requires CarrierPosition(body, spec.prologue).Some? && NewlineMatches(body, newline, spec.prologue)
    ensures var injected := Inject(body, YamlToBlock(yaml, spec.delimiters, newline).value, newline, spec.prologue);
            injected.Some? && ResolveStrategy(CommentName(spec), injected.value) == Comment(spec)
  {
    hide YamlToBlock, CarrierPosition, Inject, Strip, SplitLines, NewlineMatches, IsNewline, BlockText,
         ProbablyBinary, Known;
    BlockOfYaml(yaml, spec.delimiters, newline);
    LinesWithoutNul(yaml);
    BlockWithoutNul(spec.delimiters, SplitLines(yaml), newline);
    InjectedIsStillText(body, BlockText(spec.delimiters, SplitLines(yaml), newline), newline, spec.prologue);
    StripUndoesInjection(body, yaml, newline, spec);
    if spec.prologue.EncodingCookie? {
      CookieTextAlwaysHasAPlace(Strip(Inject(body, YamlToBlock(yaml, spec.delimiters, newline).value, newline, spec.prologue).value, spec));
    }
  }
}
