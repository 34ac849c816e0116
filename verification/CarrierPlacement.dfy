/** The carrier position of a text that already holds the block: computed again, it is the same. */
module CarrierPlacement {
  import opened Text
  import opened Carrier

  // ---------- lines of a text put together from parts ----------

  /** A line that ends inside `a` does not depend on what follows `a`. */
  lemma {:induction false} LineWithin(a: string, b: string, x: string, pos: nat)
    requires pos <= |a| && LineAt(a + b, pos).terminated && LineAt(a + b, pos).next <= |a|
    ensures LineAt(a + x, pos) == LineAt(a + b, pos)
  {
    var nl := Find(a + b, '\n', pos);
    forall i | pos <= i < nl ensures (a + x)[i] != '\n' {
      assert (a + x)[i] == a[i] == (a + b)[i];
    }
    assert (a + x)[nl] == a[nl] == (a + b)[nl];
    FindUnique(a + x, '\n', pos, nl);
    assert (a + x)[pos..nl] == a[pos..nl] == (a + b)[pos..nl];
  }

  lemma {:induction false} LineJoined(before: string, line: string, newline: string, rest: string)
    requires OneLine(line) && IsNewline(newline)
    ensures LineAt(before + line + newline + rest, |before|)
            == TextLine(Rejoined(line, newline), |before| + |line| + |newline|, true)
  {
    var text := before + line + newline + rest;
    var nl := |before| + |line| + |newline| - 1;
    assert text[nl] == newline[|newline| - 1];
    forall i | |before| <= i < nl ensures text[i] != '\n' {
      if i < |before| + |line| { assert text[i] == line[i - |before|]; }
      else { assert text[i] == newline[i - |before| - |line|]; }
    }
    FindUnique(text, '\n', |before|, nl);
    assert text[|before|..nl] == line + newline[..|newline| - 1];
    if newline == "\r\n" {
      assert line + newline[..1] == line + "\r";
    } else {
      assert line + newline[..0] == line;
    }
  }

  lemma {:induction false} LineLast(before: string, line: string)
    requires OneLine(line)
    ensures LineAt(before + line, |before|) == TextLine(line, |before| + |line|, false)
  {
    var text := before + line;
    forall i | |before| <= i < |text| ensures text[i] != '\n' {
      assert text[i] == line[i - |before|];
    }
    FindUnique(text, '\n', |before|, |text|);
  }

  // ---------- the block's first line is no prologue ----------

  lemma {:induction false} StartsWithHead(s: string, prefix: string)
    requires s != [] && prefix != [] && s[0] != prefix[0]
    ensures !StartsWith(s, prefix)
  {
    if |prefix| <= |s| { assert s[..|prefix|][0] == s[0]; }
  }

  lemma {:induction false} NoCodingWithoutC(s: string)
    requires 'c' !in s
    ensures !CodingLater(s)
  {
    if s == [] {
    } else {
      assert s[0] in s;
      StartsWithHead(s, "coding");
      NoCodingWithoutC(s[1..]);
    }
  }

  /** What makes a line safe to stand right behind a prologue. */
  ghost predicate Inert(line: string) {
    && OneLine(line) && |line| >= 6
    && TrimEnd(line) == line && DropCR(line) == line
    && !IsCookie(line) && !IsDirective(line)
    && line[..2] != "#!" && line[0] != '@' && line[..5] != "<?xml" && line[0] != BOM[0]
  }

  lemma {:induction false} NotACommentLine(line: string)
    requires line != [] && line[0] != '#' && !IsSpace(line[0])
    ensures !IsCookie(line) && !IsDirective(line) && !IsCommentOrBlank(line)
  {}

  lemma {:induction false} SentinelText()
    ensures OneLine(START) && OneLine(BLOCK_START) && OneLine(END) && OneLine(BLOCK_END)
    ensures 'c' !in START && |START| == 15 && |BLOCK_START| == 13 && START[0] == '>' && START[14] == '>' && BLOCK_START[12] == 't'
  {}

  lemma {:induction false} HashLineIsInert()
    ensures !IsCookie("# " + START) && !IsDirective("# " + START)
  {
    SentinelText();
    hide START;
    var line := "# " + START;
    assert line[1..] == " " + START && line[2..] == START;
    NoCodingWithoutC(line[1..]);
    assert SkipIndent(line) == line;
    assert SkipBlanks(line[1..]) == SkipBlanks(line[1..][1..]) == START;
    hide CodingLater;
  }

  lemma {:induction false} OpenLineIsInert(d: Delimiters)
    requires Known(d)
    ensures Inert(OpenLine(d))
    ensures IsCommentOrBlank(OpenLine(d)) ==> d == Line("#")
  {
    SentinelText();
    HashLineIsInert();
    hide START, BLOCK_START, IsCookie, IsDirective, IsCommentOrBlank;
    var line := OpenLine(d);
    assert OneLine(line);
    TrimEndSolid(line);
    if d == Line("#") {
      assert line == "# " + START;
      assert line[..2] == "# ";
    } else {
      NotACommentLine(line);
    }
    assert line[0] != '@' && line[0] != BOM[0];
    assert d == Block("<!--", "-->") ==> line[..5][1] == '!';
  }

  // ---------- the prologue is read again the same way ----------

  lemma {:induction false} SameBom(a: string, b: string, x: string)
    requires BomLength(a + b) <= |a| && x != [] && x[0] != BOM[0]
    ensures BomLength(a + x) == BomLength(a + b)
  {
    if |a| > 0 {
      assert (a + b)[..1] == (a + x)[..1];
    } else {
      assert a + x == x && (a + x)[..1] == [x[0]];
    }
  }

  lemma {:induction false} SameShebang(a: string, b: string, x: string)
    requires BomLength(a + x) == BomLength(a + b) <= |a| && |x| >= 2 && x[..2] != "#!"
    requires |a| == BomLength(a + b) || |a| >= BomLength(a + b) + 2
    requires AfterShebang(a + b).pos <= |a| && AfterShebang(a + b).terminated
    ensures AfterShebang(a + x) == AfterShebang(a + b)
  {
    var start := BomLength(a + b);
    if |a| == start {
      assert (a + x)[start..] == x;
      assert StartsWith((a + b)[start..], "#!") ==> AfterShebang(a + b).pos > start;
    } else {
      assert (a + b)[start..][..2] == a[start..start + 2] == (a + x)[start..][..2];
      if StartsWith((a + b)[start..], "#!") { LineWithin(a, b, x, start); }
    }
  }

  /** Text whose first line, put behind `a`, reads as `line` and is followed by more. */
  ghost predicate OpensWith(a: string, x: string, line: string, next: nat) {
    LineAt(a + x, |a|) == TextLine(line, next, true)
  }

  lemma {:induction false} OpensWithJoined(a: string, line: string, newline: string, rest: string)
    requires OneLine(line) && IsNewline(newline) && DropCR(line) == line
    ensures OpensWith(a, line + newline + rest, line, |a| + |line| + |newline|)
  {
    LineJoined(a, line, newline, rest);
    assert a + line + newline + rest == a + (line + newline + rest);
  }

  /** A cookie prologue is read again, unless the block's own second line passes for a cookie. */
  lemma {:induction false} CookieAgain(a: string, b: string, x: string, line: string, next: nat, s: Scan)
    requires s.pos <= |a| && s.terminated && x != []
    requires AfterCookie(a + b, s).pos == |a| && AfterCookie(a + b, s).terminated
    requires OpensWith(a, x, line, next) && !IsCookie(line)
    ensures AfterCookie(a + x, s)
            == if s.pos == |a| && !s.consumed && IsCommentOrBlank(line) && IsCookie(LineAt(a + x, next).content)
               then Taken(LineAt(a + x, next)) else AfterCookie(a + b, s)
  {
    var first := LineAt(a + b, s.pos);
    hide IsCookie, IsCommentOrBlank, LineAt;
    if s.pos < |a + b| && IsCookie(first.content) {
      LineWithin(a, b, x, s.pos);
    } else if !s.consumed && first.terminated && IsCommentOrBlank(first.content)
              && IsCookie(LineAt(a + b, first.next).content) {
      LineWithin(a, b, x, first.next);
      LineWithin(a, b, x, s.pos);
    }
  }

  lemma {:induction false} DirectivesAgain(a: string, b: string, x: string, line: string, next: nat, s: Scan)
    requires s.pos <= |a| && s.terminated
    requires AfterDirectives(a + b, s).pos == |a| && AfterDirectives(a + b, s).terminated
    requires OpensWith(a, x, line, next) && !IsDirective(line)
    ensures AfterDirectives(a + x, s) == AfterDirectives(a + b, s)
    decreases |a| - s.pos
  {
    var first := LineAt(a + b, s.pos);
    hide IsDirective, LineAt;
    if s.pos < |a + b| && IsDirective(first.content) {
      assert first.terminated;
      LineWithin(a, b, x, s.pos);
      DirectivesAgain(a, b, x, line, next, Taken(first));
    }
  }

  lemma {:induction false} DeclarationEndWithin(a: string, b: string, x: string, from: nat)
    requires from <= |a| && FindDeclarationEnd(a + b, from) + 2 <= |a|
    ensures FindDeclarationEnd(a + x, from) == FindDeclarationEnd(a + b, from)
    decreases |a| - from
  {
    assert (a + b)[from] == a[from] == (a + x)[from];
    if from + 1 < |a| { assert (a + b)[from + 1] == a[from + 1] == (a + x)[from + 1]; }
    if FindDeclarationEnd(a + b, from) != from { DeclarationEndWithin(a, b, x, from + 1); }
  }

  lemma {:induction false} DeclarationAgain(a: string, b: string, x: string, s: Scan)
    requires s.pos <= |a| && s.terminated && |x| >= 6 && x[..5] != "<?xml"
    requires AfterDeclaration(a + b, s).Some?
    requires AfterDeclaration(a + b, s).value.pos == |a| && AfterDeclaration(a + b, s).value.terminated
    ensures AfterDeclaration(a + x, s) == AfterDeclaration(a + b, s)
  {
    hide XmlStarts, FindDeclarationEnd, LineAt, AllBlank;
    if !s.consumed {
      if XmlStarts((a + b)[s.pos..]) {
        DeclarationLineAgain(a, b, x, s.pos);
      } else {
        assert (a + x)[s.pos..] == x;
        NoXmlStart(x);
      }
    }
  }

  lemma {:induction false} NoXmlStart(x: string)
    requires |x| >= 6 && x[..5] != "<?xml"
    ensures !XmlStarts(x)
  {}

  lemma {:induction false} DeclarationLineAgain(a: string, b: string, x: string, pos: nat)
    requires pos <= |a| && XmlStarts((a + b)[pos..]) && FindDeclarationEnd(a + b, pos) + 2 <= |a + b|
    requires var rest := LineAt(a + b, FindDeclarationEnd(a + b, pos) + 2); rest.next == |a| && rest.terminated
    ensures XmlStarts((a + x)[pos..]) && FindDeclarationEnd(a + x, pos) == FindDeclarationEnd(a + b, pos)
    ensures var close := FindDeclarationEnd(a + b, pos);
            close + 2 <= |a + x| && LineAt(a + x, close + 2) == LineAt(a + b, close + 2)
  {
    hide LineAt, FindDeclarationEnd, XmlStarts;
    var close := FindDeclarationEnd(a + b, pos);
    DeclarationEndAfterName(a + b, pos);
    LineGoesOn(a + b, close + 2);
    DeclarationEndWithin(a, b, x, pos);
    LineWithin(a, b, x, close + 2);
    assert (a + b)[pos..][..6] == a[pos..pos + 6] == (a + x)[pos..][..6];
    XmlStartsSix((a + b)[pos..], (a + x)[pos..]);
  }

  lemma {:induction false} LineGoesOn(text: string, pos: nat)
    requires pos <= |text|
    ensures pos <= LineAt(text, pos).next
  {}

  lemma {:induction false} XmlStartsSix(s: string, t: string)
    requires |s| >= 6 && |t| >= 6 && s[..6] == t[..6]
    ensures XmlStarts(s) == XmlStarts(t)
  {
    assert s[..5] == s[..6][..5] && t[..5] == t[..6][..5];
    assert s[5] == s[..6][5] && t[5] == t[..6][5];
  }

  /** The declaration cannot close before its own name is over. */
  lemma {:induction false} DeclarationEndAfterName(text: string, pos: nat)
    requires pos <= |text| && XmlStarts(text[pos..])
    ensures pos + 4 <= FindDeclarationEnd(text, pos)
  {
    var s := text[pos..];
    assert s[..5] == "<?xml";
    assert s[0] == '<' && s[1] == '?' && s[2] == 'x' && s[3] == 'm' && s[4] == 'l';
    assert text[pos] == '<' && text[pos + 1] == '?' && text[pos + 2] == 'x' && text[pos + 3] == 'm';
    assert FindDeclarationEnd(text, pos) == FindDeclarationEnd(text, pos + 1) == FindDeclarationEnd(text, pos + 2)
           == FindDeclarationEnd(text, pos + 3) == FindDeclarationEnd(text, pos + 4);
  }

  lemma {:induction false} CharsetAgain(a: string, b: string, x: string, s: Scan)
    requires s.pos <= |a| && s.terminated && x != [] && x[0] != '@'
    requires AfterPrologue(a + b, CssCharset, s).Some?
    requires AfterPrologue(a + b, CssCharset, s).value.pos == |a| && AfterPrologue(a + b, CssCharset, s).value.terminated
    ensures AfterPrologue(a + x, CssCharset, s) == AfterPrologue(a + b, CssCharset, s)
  {
    var name := "@charset \"";
    if !s.consumed {
      if StartsWith((a + b)[s.pos..], name) {
        var line := LineAt(a + b, s.pos);
        LineWithin(a, b, x, s.pos);
        assert |line.content| >= 10;
        assert (a + b)[s.pos..][..10] == a[s.pos..s.pos + 10] == (a + x)[s.pos..][..10];
      } else {
        assert (a + x)[s.pos..] == x;
        StartsWithHead(x, name);
      }
    }
  }

  /** A prologue that is over, and over with a terminator. */
  lemma {:induction false} ShebangWasTerminated(text: string, prologue: Prologue)
    requires CarrierPosition(text, prologue).Some? && !CarrierPosition(text, prologue).value.unterminated
    ensures AfterShebang(text).terminated
    ensures AfterPrologue(text, prologue, AfterShebang(text)).Some?
    ensures AfterPrologue(text, prologue, AfterShebang(text)).value.terminated
  {
    hide XmlStarts, IsCharset, IsCommentOrBlank, IsDirective;
    var s := AfterShebang(text);
    hide IsCookie, IsBarePhp, FindDeclarationEnd;
    var r := AfterPrologue(text, prologue, s);
    if prologue.DockerDirectives? { DirectivesConsume(text, s); }
    assert r.Some? && (r.value == s || r.value.consumed);
  }

  lemma {:induction false} DirectivesConsume(text: string, s: Scan)
    requires s.pos <= |text|
    ensures AfterDirectives(text, s) == s || AfterDirectives(text, s).consumed
    ensures AfterDirectives(text, s) == s || AfterDirectives(text, s).pos >= s.pos + 1
    ensures AfterDirectives(text, s) != s && AfterDirectives(text, s).terminated ==> AfterDirectives(text, s).pos >= s.pos + 2
    decreases |text| - s.pos
  {
    if s.pos < |text| && IsDirective(LineAt(text, s.pos).content) {
      DirectivesConsume(text, Taken(LineAt(text, s.pos)));
    }
  }

  /** A prologue is no single character. */
  lemma {:induction false} PrologueIsLonger(text: string, prologue: Prologue)
    requires CarrierPosition(text, prologue).Some? && !CarrierPosition(text, prologue).value.unterminated
    ensures var offset := CarrierPosition(text, prologue).value.offset;
            offset == BomLength(text) || offset >= BomLength(text) + 2
  {
    ShebangWasTerminated(text, prologue);
    var s := AfterShebang(text);
    if s.consumed {
      assert text[BomLength(text)..][..2] == "#!";
      ShebangLineLength(text);
    } else if prologue.DockerDirectives? {
      DirectivesConsume(text, s);
    } else {
      hide XmlStarts, IsCharset, IsCommentOrBlank, LineAt, StartsWith, FindDeclarationEnd;
      assert forall line :: IsCookie(line) ==> line != [];
      assert forall line :: IsBarePhp(line) ==> line != [];
      hide IsCookie, IsBarePhp;
      CharsetLength(text);
    }
  }

  lemma {:induction false} ShebangLineLength(text: string)
    requires StartsWith(text[BomLength(text)..], "#!")
    ensures AfterShebang(text).pos >= BomLength(text) + 2
  {
    var start := BomLength(text);
    assert text[start..][..2][0] == '#' && text[start..][..2][1] == '!';
    assert text[start] == '#' && text[start + 1] == '!';
    assert Find(text, '\n', start) >= start + 2 by {
      assert Find(text, '\n', start) == Find(text, '\n', start + 1) == Find(text, '\n', start + 2);
    }
  }

  lemma {:induction false} CharsetLength(text: string)
    ensures forall line :: IsCharset(line) ==> |line| >= 10
  {}

  // ---------- the whole position ----------

  /** The carrier position behind a terminated prologue is found again behind the same prologue. */
  lemma {:induction false} PlacedAgain(a: string, b: string, x: string, line: string, next: nat, prologue: Prologue)
    requires CarrierPosition(a + b, prologue) == Some(Position(|a|, false))
    requires OpensWith(a, x, line, next) && Inert(line) && |x| >= 6 && x[..6] == line[..6]
    ensures BomLength(a + x) == BomLength(a + b)
    ensures CarrierPosition(a + x, prologue)
            == if prologue.EncodingCookie? && |a| == BomLength(a + b) && IsCommentOrBlank(line)
                  && IsCookie(LineAt(a + x, next).content)
               then (var second := LineAt(a + x, next);
                     Some(if second.terminated then Position(second.next, false) else Position(|a + x|, true)))
               else Some(Position(|a|, false))
  {
    HeadOfX(x, line);
    ShebangWasTerminated(a + b, prologue);
    PrologueIsLonger(a + b, prologue);
    var s := AfterShebang(a + b);
    SameBom(a, b, x);
    SameShebang(a, b, x);
    hide AfterCookie, AfterDirectives, AfterDeclaration, IsCookie, IsCommentOrBlank, BomLength;
    match prologue
    case NoPrologue =>
    case EncodingCookie => CookieAgain(a, b, x, line, next, s);
    case PhpOpenTag => LineWithin(a, b, x, s.pos);
    case XmlDeclaration => DeclarationAgain(a, b, x, s);
    case CssCharset => CharsetAgain(a, b, x, s);
    case DockerDirectives => DirectivesAgain(a, b, x, line, next, s);
  }

  lemma {:induction false} HeadOfX(x: string, line: string)
    requires |line| >= 6 && |x| >= 6 && x[..6] == line[..6]
    ensures x[0] == line[0] && x[..2] == line[..2] && x[..5] == line[..5]
  {
    assert x[..2] == x[..6][..2] && line[..2] == line[..6][..2];
    assert x[..5] == x[..6][..5] && line[..5] == line[..6][..5];
    assert x[0] == x[..6][0] && line[0] == line[..6][0];
  }
}
