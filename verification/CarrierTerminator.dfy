/** Supplying the terminator a prologue's last line lacks turns it into a terminated prologue. */
module CarrierTerminator {
  import opened Text
  import opened Carrier
  import opened CarrierPlacement

  // ---------- a carriage return at the end of a line changes no verdict ----------

  lemma {:induction false} SkipBlanksAppend(s: string, c: char)
    requires !IsBlank(c)
    ensures SkipBlanks(s + [c]) == SkipBlanks(s) + [c]
  {
    if s == [] {
    } else {
      assert (s + [c])[1..] == s[1..] + [c];
      if IsBlank(s[0]) { SkipBlanksAppend(s[1..], c); }
    }
  }

  lemma {:induction false} SkipIndentAppend(s: string, c: char)
    requires !IsBlank(c) && c != '\U{0C}'
    ensures SkipIndent(s + [c]) == SkipIndent(s) + [c]
  {
    if s == [] {
    } else {
      assert (s + [c])[1..] == s[1..] + [c];
      if IsBlank(s[0]) || s[0] == '\U{0C}' { SkipIndentAppend(s[1..], c); }
    }
  }

  lemma {:induction false} CodingHereWithoutCR(s: string)
    requires CodingHere(s + "\r")
    ensures CodingHere(s)
  {
    var t := s + "\r";
    assert t[..6] == "coding";
    assert t[6] != '\r' && |s| > 6;
    assert s[..6] == t[..6];
    assert t[7..] == s[7..] + ['\r'];
    SkipBlanksAppend(s[7..], '\r');
  }

  lemma {:induction false} CodingLaterWithoutCR(s: string)
    requires CodingLater(s + "\r")
    ensures CodingLater(s)
  {
    var t := s + "\r";
    if CodingHere(t) {
      CodingHereWithoutCR(s);
    } else if s != [] {
      assert t[1..] == s[1..] + "\r";
      CodingLaterWithoutCR(s[1..]);
    }
  }

  lemma {:induction false} DropCRSplit(s: string)
    ensures DropCR(s) == s || s == DropCR(s) + "\r"
  {}

  lemma {:induction false} CookieWithoutCR(s: string)
    requires IsCookie(s)
    ensures IsCookie(DropCR(s))
  {
    var t := DropCR(s);
    DropCRSplit(s);
    if s != t {
      SkipIndentAppend(t, '\r');
      var r := SkipIndent(t);
      assert SkipIndent(s) == r + "\r";
      assert r != [] && (r + "\r")[1..] == r[1..] + "\r";
      CodingLaterWithoutCR(r[1..]);
    }
  }

  lemma {:induction false} WordWithoutCR(s: string, word: string)
    requires StartsWithWord(s + "\r", word) && '\r' !in word
    ensures StartsWithWord(s, word)
  {
    var t := s + "\r";
    assert forall i :: 0 <= i < |word| ==> Lower(t[i]) == word[i] && word[i] in word;
    assert t[|s|] == '\r' == Lower('\r');
  }

  lemma {:induction false} AssignWithoutCR(s: string, i: nat)
    requires AssignsAt(s + "\r", i)
    ensures AssignsAt(s, i)
  {
    var t := s + "\r";
    if i <= |s| {
      assert t[i..] == s[i..] + ['\r'];
      SkipBlanksAppend(s[i..], '\r');
    }
  }

  lemma {:induction false} DirectiveWithoutCR(s: string)
    requires IsDirective(s)
    ensures IsDirective(DropCR(s))
  {
    var t := DropCR(s);
    DropCRSplit(s);
    if s != t {
      assert s[1..] == t[1..] + ['\r'];
      SkipBlanksAppend(t[1..], '\r');
      var r := SkipBlanks(t[1..]);
      assert SkipBlanks(s[1..]) == r + "\r";
      hide SkipBlanks, AssignsAt, StartsWithWord;
      if StartsWithWord(r + "\r", "syntax") && AssignsAt(r + "\r", 6) { WordWithoutCR(r, "syntax"); AssignWithoutCR(r, 6); }
      else if StartsWithWord(r + "\r", "escape") && AssignsAt(r + "\r", 6) { WordWithoutCR(r, "escape"); AssignWithoutCR(r, 6); }
      else { WordWithoutCR(r, "check"); AssignWithoutCR(r, 5); }
    }
  }

  lemma {:induction false} AnchoredHasNoCR(s: string)
    ensures IsBarePhp(s) ==> DropCR(s) == s
    ensures AllBlank(s) ==> DropCR(s) == s
    ensures IsCharset(s) ==> DropCR(s) == s
  {
    if IsBarePhp(s) && |s| > 5 { assert s[5..][|s| - 6] == s[|s| - 1]; }
    if IsCharset(s) {
      var quote := Find(s, '\"', 10);
      if |s| > quote + 2 { assert s[quote + 2..][|s| - quote - 3] == s[|s| - 1]; }
    }
  }

  // ---------- the last line, once it is ended ----------

  lemma {:induction false} LineSupplied(c: string, newline: string, pos: nat)
    requires IsNewline(newline) && pos <= |c| && !LineAt(c, pos).terminated
    ensures LineAt(c + newline, pos) == TextLine(Rejoined(c[pos..], newline), |c| + |newline|, true)
  {
    var line := c[pos..];
    assert forall i :: 0 <= i < |line| ==> line[i] == c[pos + i];
    assert OneLine(line);
    assert c[..pos] + line + newline + [] == c + newline;
    LineJoined(c[..pos], line, newline, []);
  }

  lemma {:induction false} LineKept(c: string, newline: string, pos: nat)
    requires pos <= |c| && LineAt(c, pos).terminated
    ensures LineAt(c + newline, pos) == LineAt(c, pos)
  {
    assert c + [] == c;
    LineWithin(c, [], newline, pos);
  }

  lemma {:induction false} ShebangSupplied(c: string, newline: string)
    requires IsNewline(newline) && c != []
    ensures BomLength(c + newline) == BomLength(c)
    ensures AfterShebang(c + newline)
            == if AfterShebang(c).terminated then AfterShebang(c) else Scan(|c| + |newline|, true, true)
  {
    var t, start := c + newline, BomLength(c);
    assert c[..1] == t[..1];
    if |c| >= start + 2 {
      assert c[start..][..2] == t[start..][..2];
    } else {
      assert |t[start..]| >= 2 ==> t[start..][..2] != "#!" by {
        if |t| >= start + 2 { assert t[start..][..2][1] == t[start + 1] == newline[start + 1 - |c|]; }
      }
    }
    if StartsWith(c[start..], "#!") {
      if LineAt(c, start).terminated { LineKept(c, newline, start); } else { LineSupplied(c, newline, start); }
    }
  }

  lemma {:induction false} DirectivesSupplied(c: string, newline: string, s: Scan)
    requires IsNewline(newline) && s.pos <= |c| && s.terminated && !AfterDirectives(c, s).terminated
    ensures AfterDirectives(c + newline, s) == Scan(|c| + |newline|, true, true)
    decreases |c| - s.pos
  {
    var line := LineAt(c, s.pos);
    hide LineAt, IsDirective;
    if line.terminated {
      LineKept(c, newline, s.pos);
      DirectivesSupplied(c, newline, Taken(line));
    } else {
      LineSupplied(c, newline, s.pos);
      DirectiveWithoutCR(line.content);
    }
  }

  lemma {:induction false} CookieSupplied(c: string, newline: string, s: Scan)
    requires IsNewline(newline) && s.pos <= |c| && s.terminated && !AfterCookie(c, s).terminated
    ensures AfterCookie(c + newline, s) == Scan(|c| + |newline|, true, true)
  {
    var line := LineAt(c, s.pos);
    hide IsCookie, IsCommentOrBlank, LineAt;
    if s.pos < |c| && IsCookie(line.content) {
      LineSupplied(c, newline, s.pos);
      CookieWithoutCR(line.content);
    } else {
      LineKept(c, newline, s.pos);
      LineSupplied(c, newline, line.next);
      CookieWithoutCR(LineAt(c, line.next).content);
    }
  }

  lemma {:induction false} DeclarationSupplied(c: string, newline: string, s: Scan)
    requires IsNewline(newline) && s.pos <= |c| && s.terminated
    requires AfterDeclaration(c, s).Some? && !AfterDeclaration(c, s).value.terminated
    ensures AfterDeclaration(c + newline, s) == Some(Scan(|c| + |newline|, true, true))
  {
    hide FindDeclarationEnd, XmlStarts, LineAt, AllBlank;
    DeclarationLineSupplied(c, newline, s.pos);
  }

  lemma {:induction false} DeclarationLineSupplied(c: string, newline: string, pos: nat)
    requires IsNewline(newline) && pos <= |c| && XmlStarts(c[pos..]) && FindDeclarationEnd(c, pos) + 2 <= |c|
    requires var rest := LineAt(c, FindDeclarationEnd(c, pos) + 2); !rest.terminated && AllBlank(rest.content)
    ensures XmlStarts((c + newline)[pos..]) && FindDeclarationEnd(c + newline, pos) == FindDeclarationEnd(c, pos)
    ensures var rest := LineAt(c + newline, FindDeclarationEnd(c, pos) + 2);
            rest.next == |c| + |newline| && rest.terminated && AllBlank(rest.content)
  {
    hide LineAt, FindDeclarationEnd, XmlStarts, AllBlank, DropCR, IsNewline;
    var close := FindDeclarationEnd(c, pos);
    DeclarationEndAfterName(c, pos);
    AnchoredHasNoCR(LineAt(c, close + 2).content);
    AnchoredLineSupplied(c, newline, close + 2);
    assert c + [] == c;
    DeclarationEndWithin(c, [], newline, pos);
    XmlHeadKept(c, newline, pos);
  }

  lemma {:induction false} XmlHeadKept(c: string, newline: string, pos: nat)
    requires pos + 6 <= |c| && XmlStarts(c[pos..])
    ensures XmlStarts((c + newline)[pos..])
  {
    hide XmlStarts;
    assert c[pos..][..6] == c[pos..pos + 6] == (c + newline)[pos..][..6];
    XmlStartsSix(c[pos..], (c + newline)[pos..]);
  }

  lemma {:induction false} AnchoredLineSupplied(c: string, newline: string, pos: nat)
    requires IsNewline(newline) && pos <= |c| && !LineAt(c, pos).terminated
    requires DropCR(LineAt(c, pos).content) == LineAt(c, pos).content
    ensures LineAt(c + newline, pos) == TextLine(LineAt(c, pos).content, |c| + |newline|, true)
  {
    LineSupplied(c, newline, pos);
  }

  lemma {:induction false} CharsetSupplied(c: string, newline: string, s: Scan)
    requires IsNewline(newline) && s.pos <= |c| && s.terminated
    requires AfterPrologue(c, CssCharset, s).Some? && !AfterPrologue(c, CssCharset, s).value.terminated
    ensures AfterPrologue(c + newline, CssCharset, s) == Some(Scan(|c| + |newline|, true, true))
  {
    var line := LineAt(c, s.pos);
    AnchoredHasNoCR(line.content);
    AnchoredLineSupplied(c, newline, s.pos);
    assert |line.content| >= 10;
    assert c[s.pos..][..10] == c[s.pos..s.pos + 10] == (c + newline)[s.pos..][..10];
  }

  lemma {:induction false} PhpSupplied(c: string, newline: string, s: Scan)
    requires IsNewline(newline) && s.pos <= |c| && s.terminated
    requires AfterPrologue(c, PhpOpenTag, s).Some? && !AfterPrologue(c, PhpOpenTag, s).value.terminated
    ensures AfterPrologue(c + newline, PhpOpenTag, s) == Some(Scan(|c| + |newline|, true, true))
  {
    AnchoredHasNoCR(LineAt(c, s.pos).content);
    AnchoredLineSupplied(c, newline, s.pos);
  }

  lemma {:induction false} UnterminatedShebang(c: string, newline: string, prologue: Prologue)
    requires IsNewline(newline) && CarrierPosition(c, prologue).Some? && !AfterShebang(c).terminated
    ensures AfterPrologue(c + newline, prologue, Scan(|c| + |newline|, true, true)) == Some(Scan(|c| + |newline|, true, true))
  {
    hide XmlStarts, IsCharset, IsCookie, IsCommentOrBlank, IsDirective;
    assert AfterShebang(c) == Scan(|c|, true, false);
    assert LineAt(c, |c|).content == [];
    assert !IsBarePhp([]);
  }

  lemma {:induction false} PrologueSupplied(c: string, newline: string, prologue: Prologue, s: Scan)
    requires IsNewline(newline) && s.pos <= |c| && s.terminated
    requires AfterPrologue(c, prologue, s).Some? && !AfterPrologue(c, prologue, s).value.terminated
    ensures AfterPrologue(c + newline, prologue, s) == Some(Scan(|c| + |newline|, true, true))
  {
    hide AfterCookie, AfterDirectives, AfterDeclaration, IsCharset, IsBarePhp, LineAt, StartsWith;
    match prologue
    case EncodingCookie => CookieSupplied(c, newline, s);
    case PhpOpenTag => PhpSupplied(c, newline, s);
    case XmlDeclaration => DeclarationSupplied(c, newline, s);
    case CssCharset => CharsetSupplied(c, newline, s);
    case DockerDirectives => DirectivesSupplied(c, newline, s);
    case NoPrologue =>
  }

  lemma {:induction false} UnterminatedFacts(c: string, prologue: Prologue)
    requires CarrierPosition(c, prologue) == Some(Position(|c|, true))
    ensures AfterPrologue(c, prologue, AfterShebang(c)).Some?
    ensures !AfterPrologue(c, prologue, AfterShebang(c)).value.terminated
  {
    hide AfterPrologue, AfterShebang;
  }

  lemma {:induction false} PositionFrom(text: string, prologue: Prologue, s: Scan, r: Scan)
    requires AfterShebang(text) == s && s.pos <= |text| && AfterPrologue(text, prologue, s) == Some(r) && r.terminated
    ensures CarrierPosition(text, prologue) == Some(Position(r.pos, false))
  {
    hide AfterPrologue, AfterShebang;
  }

  /** With its terminator supplied, an unterminated prologue is a terminated one over the whole text. */
  lemma {:induction false} TerminatorSupplied(c: string, newline: string, prologue: Prologue)
    requires IsNewline(newline) && CarrierPosition(c, prologue) == Some(Position(|c|, true))
    ensures CarrierPosition(c + newline, prologue) == Some(Position(|c| + |newline|, false))
    ensures BomLength(c + newline) == BomLength(c)
  {
    hide AfterPrologue, AfterShebang, BomLength, CarrierPosition;
    if c == [] { NothingInNothing(prologue); }
    UnterminatedFacts(c, prologue);
    ShebangSupplied(c, newline);
    var s, r := AfterShebang(c), Scan(|c| + |newline|, true, true);
    if s.terminated {
      PrologueSupplied(c, newline, prologue, s);
      PositionFrom(c + newline, prologue, s, r);
    } else {
      UnterminatedShebang(c, newline, prologue);
      PositionFrom(c + newline, prologue, r, r);
    }
  }

  lemma {:induction false} NothingInNothing(prologue: Prologue)
    ensures CarrierPosition([], prologue) != Some(Position(0, true))
  {
    assert AfterShebang([]) == Scan(0, false, true);
    assert LineAt([], 0) == TextLine([], 0, false);
    assert !IsCookie([]) && !IsBarePhp([]) && !XmlStarts([]);
  }
}
