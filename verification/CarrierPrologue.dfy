/**
 Where the carrier position lies, said of the text and its lines alone: no step of the routine is
 named here, only where lines begin and what they hold.
 */
module CarrierPrologue {
  import opened Text
  import opened Carrier

  // ---------- lines of a text ----------

  /** A line begins at `p` when `from` is there, or a line break right before. */
  predicate BeginsLine(text: string, from: nat, p: nat) {
    from <= p <= |text| && (p == from || text[p - 1] == '\n')
  }

  /** `content` up to the next line break or the end of the text, without the break or its carriage return. */
  ghost predicate IsLineOf(text: string, p: nat, line: TextLine) {
    && p <= line.next <= |text|
    && if line.terminated then
         && p < line.next && text[line.next - 1] == '\n' && '\n' !in text[p..line.next - 1]
         && line.content == DropCR(text[p..line.next - 1])
       else line.next == |text| && '\n' !in text[p..] && line.content == text[p..]
  }

  lemma {:induction false} LineAtIs(text: string, p: nat, line: TextLine)
    requires p <= |text|
    ensures IsLineOf(text, p, line) <==> line == LineAt(text, p)
  {
    if IsLineOf(text, p, line) {
      var nl := if line.terminated then line.next - 1 else |text|;
      forall i | p <= i < nl ensures text[i] != '\n' {
        assert text[p..nl][i - p] == text[i];
      }
      FindUnique(text, '\n', p, nl);
    } else {
      var nl := Find(text, '\n', p);
      forall i | 0 <= i < nl - p ensures text[p..nl][i] != '\n' { assert text[p..nl][i] == text[p + i]; }
    }
  }

  /** Nothing between `p` and the end of its line begins another line. */
  lemma {:induction false} NextBegins(text: string, from: nat, p: nat, q: nat)
    requires BeginsLine(text, from, p) && p < |text| && p < q <= LineAt(text, p).next
    ensures BeginsLine(text, from, q) ==> q == LineAt(text, p).next && LineAt(text, p).terminated
    ensures LineAt(text, p).terminated ==> BeginsLine(text, from, LineAt(text, p).next)
  {}

  // ---------- byte-order mark and shebang ----------

  predicate HasShebang(text: string) {
    StartsWith(text[BomLength(text)..], "#!")
  }

  /** Where the byte-order mark and the shebang line end. */
  ghost predicate HeadEndsAt(text: string, h: nat) {
    if HasShebang(text) then exists line :: IsLineOf(text, BomLength(text), line) && h == line.next else h == BomLength(text)
  }

  lemma {:induction false} HeadEndsIff(text: string, h: nat)
    ensures HeadEndsAt(text, h) <==> h == AfterShebang(text).pos
    ensures AfterShebang(text).consumed <==> HasShebang(text)
  {
    var bom := BomLength(text);
    LineAtIs(text, bom, LineAt(text, bom));
    forall line | IsLineOf(text, bom, line) ensures line == LineAt(text, bom) {
      LineAtIs(text, bom, line);
    }
  }

  // ---------- directives ----------

  /** Every line between `h` and `o` is a directive, and the one at `o` is not. */
  ghost predicate DirectivesEndAt(text: string, h: nat, o: nat) {
    && h <= o <= |text|
    && (o == |text| || BeginsLine(text, h, o))
    && (forall p :: h <= p < o && BeginsLine(text, h, p) ==> IsDirective(LineAt(text, p).content))
    && (o < |text| ==> !IsDirective(LineAt(text, o).content))
  }

  lemma {:induction false} DirectivesAreTaken(text: string, h: nat, s: Scan)
    requires s.pos <= |text| && (s.pos == |text| || BeginsLine(text, h, s.pos)) && h <= s.pos
    requires forall p :: h <= p < s.pos && BeginsLine(text, h, p) ==> IsDirective(LineAt(text, p).content)
    ensures DirectivesEndAt(text, h, AfterDirectives(text, s).pos)
    decreases |text| - s.pos
  {
    hide IsDirective, LineAt;
    if s.pos < |text| && IsDirective(LineAt(text, s.pos).content) {
      var line := LineAt(text, s.pos);
      forall p | h <= p < line.next && BeginsLine(text, h, p) ensures IsDirective(LineAt(text, p).content) {
        if p > s.pos { NextBegins(text, h, s.pos, p); }
      }
      LineEnds(text, h, s.pos);
      DirectivesAreTaken(text, h, Taken(line));
    }
  }

  lemma {:induction false} LineEnds(text: string, h: nat, p: nat)
    requires BeginsLine(text, h, p) && p < |text|
    ensures LineAt(text, p).next == |text| || BeginsLine(text, h, LineAt(text, p).next)
  {}

  lemma {:induction false} DirectivesEndOnce(text: string, h: nat, o: nat, k: nat)
    requires DirectivesEndAt(text, h, o) && DirectivesEndAt(text, h, k)
    ensures o == k
  {
    hide IsDirective, LineAt;
    assert o < k ==> BeginsLine(text, h, o);
    assert k < o ==> BeginsLine(text, h, k);
  }

  lemma {:induction false} DirectivesIff(text: string, h: nat, s: Scan, o: nat)
    requires s.pos == h <= |text|
    ensures DirectivesEndAt(text, h, o) <==> o == AfterDirectives(text, s).pos
  {
    hide IsDirective, LineAt, DirectivesEndAt, AfterDirectives;
    DirectivesAreTaken(text, h, s);
    if DirectivesEndAt(text, h, o) { DirectivesEndOnce(text, h, o, AfterDirectives(text, s).pos); }
  }

  // ---------- the encoding cookie ----------

  /** The line at `p` is the one behind the line at `h`. */
  ghost predicate IsSecondLine(text: string, h: nat, p: nat) {
    && h < p && BeginsLine(text, h, p)
    && forall q :: h < q < p ==> !BeginsLine(text, h, q)
  }

  /** PEP 263: a cookie counts on the first line, or on the second when the first is a comment or blank; a shebang is one. */
  ghost predicate CookieCounts(text: string, h: nat, p: nat) {
    && p < |text| && IsCookie(LineAt(text, p).content)
    && (p == h || (!HasShebang(text) && h < |text| && IsSecondLine(text, h, p) && IsCommentOrBlank(LineAt(text, h).content)))
  }

  /** Behind the first cookie that counts, or nowhere when none does. */
  ghost predicate CookieEndsAt(text: string, h: nat, o: nat) {
    || ((forall p: nat :: !CookieCounts(text, h, p)) && o == h)
    || exists p: nat :: CookieCounts(text, h, p) && (p > h ==> !CookieCounts(text, h, h)) && o == LineAt(text, p).next
  }

  lemma {:induction false} SecondLineIs(text: string, h: nat, p: nat)
    requires h < |text|
    ensures IsSecondLine(text, h, p) <==> LineAt(text, h).terminated && p == LineAt(text, h).next
  {
    hide LineAt;
    var line := LineAt(text, h);
    if line.terminated {
      NextBegins(text, h, h, line.next);
      if p > line.next { assert h < line.next < p ==> BeginsLine(text, h, line.next); }
    }
    forall q | h < q <= line.next && BeginsLine(text, h, q) ensures line.terminated && q == line.next {
      NextBegins(text, h, h, q);
    }
    if IsSecondLine(text, h, p) {
      PastTheLine(text, h, p);
    }
  }

  lemma {:induction false} PastTheLine(text: string, h: nat, p: nat)
    requires h < |text| && h < p <= |text| && BeginsLine(text, h, p)
    ensures LineAt(text, h).terminated && p >= LineAt(text, h).next
  {}

  lemma {:induction false} CookieIff(text: string, h: nat, s: Scan, o: nat)
    requires s.pos == h <= |text| && (s.consumed <==> HasShebang(text))
    ensures CookieEndsAt(text, h, o) <==> o == AfterCookie(text, s).pos
  {
    hide IsCookie, IsCommentOrBlank, LineAt, HasShebang, IsSecondLine;
    EmptyIsNoCookie();
    forall p: nat | h < |text| ensures IsSecondLine(text, h, p) <==> LineAt(text, h).terminated && p == LineAt(text, h).next {
      SecondLineIs(text, h, p);
    }
    AtTheEnd(text);
    var line := LineAt(text, h);
    if h < |text| && IsCookie(line.content) {
      assert CookieCounts(text, h, h);
    } else if !s.consumed && line.terminated && IsCommentOrBlank(line.content) && IsCookie(LineAt(text, line.next).content) {
      assert CookieCounts(text, h, line.next);
    } else {
      forall p: nat ensures !CookieCounts(text, h, p) {}
    }
  }

  lemma {:induction false} EmptyIsNoCookie()
    ensures !IsCookie("")
  {}

  lemma {:induction false} AtTheEnd(text: string)
    ensures LineAt(text, |text|) == TextLine("", |text|, false)
  {}

  // ---------- declaration, charset and open tag ----------

  /** The first `?>` at or behind `h`. */
  ghost predicate FirstClose(text: string, h: nat, c: nat) {
    h <= c && OccursAt(text, "?>", c) && forall q :: h <= q < c ==> !OccursAt(text, "?>", q)
  }

  /** What follows the `?>` at `c` on its line. */
  ghost predicate IsRest(text: string, c: nat, line: TextLine) {
    c + 2 <= |text| && IsLineOf(text, c + 2, line)
  }

  lemma {:induction false} FirstCloseIff(text: string, h: nat, c: nat)
    requires h <= |text|
    ensures FirstClose(text, h, c) <==> c == FindDeclarationEnd(text, h) && c + 2 <= |text|
    decreases |text| - h
  {
    if h == |text| {
    } else if text[h] == '?' && h + 1 < |text| && text[h + 1] == '>' {
      assert OccursAt(text, "?>", h);
    } else {
      FirstCloseIff(text, h + 1, c);
      assert h + 2 <= |text| ==> text[h..h + 2][0] == text[h] && text[h..h + 2][1] == text[h + 1];
      assert !OccursAt(text, "?>", h);
    }
  }

  /** A declaration at the very start is read to its first `?>`; it has to end its line. */
  ghost predicate DeclarationEndsAt(text: string, h: nat, o: nat)
    requires h <= |text|
  {
    if HasShebang(text) || !XmlStarts(text[h..]) then o == h
    else exists c: nat, line :: FirstClose(text, h, c) && IsRest(text, c, line) && AllBlank(line.content) && o == line.next
  }

  lemma {:induction false} DeclarationIff(text: string, h: nat, s: Scan, o: nat)
    requires s.pos == h <= |text| && (s.consumed <==> HasShebang(text))
    ensures DeclarationEndsAt(text, h, o) <==> AfterDeclaration(text, s).Some? && o == AfterDeclaration(text, s).value.pos
  {
    hide XmlStarts, AllBlank, HasShebang, IsLineOf, LineAt, FindDeclarationEnd;
    var close := FindDeclarationEnd(text, h);
    forall c: nat ensures FirstClose(text, h, c) <==> c == close && c + 2 <= |text| {
      FirstCloseIff(text, h, c);
    }
    hide FirstClose;
    if close + 2 <= |text| {
      LineAtIs(text, close + 2, LineAt(text, close + 2));
      forall line | IsRest(text, close, line) ensures line == LineAt(text, close + 2) {
        LineAtIs(text, close + 2, line);
      }
      assert FirstClose(text, h, close) && IsRest(text, close, LineAt(text, close + 2));
    }
  }

  /** The line at `h` matches, and `o` is behind it. */
  ghost predicate LineTaken(text: string, h: nat, matches: string -> bool, o: nat) {
    exists line :: IsLineOf(text, h, line) && matches(line.content) && o == line.next
  }

  lemma {:induction false} LineTakenIff(text: string, h: nat, matches: string -> bool, o: nat)
    requires h <= |text|
    ensures LineTaken(text, h, matches, o) <==> matches(LineAt(text, h).content) && o == LineAt(text, h).next
  {
    hide IsLineOf, LineAt;
    LineAtIs(text, h, LineAt(text, h));
    if line :| IsLineOf(text, h, line) && matches(line.content) && o == line.next { LineAtIs(text, h, line); }
  }

  ghost predicate CharsetEndsAt(text: string, h: nat, o: nat)
    requires h <= |text|
  {
    if HasShebang(text) || !StartsWith(text[h..], "@charset \"") then o == h else LineTaken(text, h, IsCharset, o)
  }

  // ---------- the position ----------

  /** What each language asks to stay above the block, behind the mark and the shebang that end at `h`. */
  ghost predicate PrologueEndsAt(text: string, prologue: Prologue, h: nat, o: nat)
    requires h <= |text|
  {
    match prologue
    case NoPrologue => o == h
    case EncodingCookie => CookieEndsAt(text, h, o)
    case PhpOpenTag => LineTaken(text, h, IsBarePhp, o)
    case XmlDeclaration => DeclarationEndsAt(text, h, o)
    case CssCharset => CharsetEndsAt(text, h, o)
    case DockerDirectives => DirectivesEndAt(text, h, o)
  }

  /** The prologue ends at `o`, and lacks its line break exactly when text stands above `o` without one. */
  ghost predicate IsPosition(text: string, prologue: Prologue, o: nat, unterminated: bool) {
    exists h: nat :: h <= |text| && HeadEndsAt(text, h) && PrologueEndsAt(text, prologue, h, o)
                     && o <= |text| && (unterminated <==> o > BomLength(text) && text[o - 1] != '\n')
  }

  lemma {:induction false} PrologueIff(text: string, prologue: Prologue, s: Scan, o: nat)
    requires s.pos <= |text| && (s.consumed <==> HasShebang(text))
    ensures PrologueEndsAt(text, prologue, s.pos, o)
            <==> AfterPrologue(text, prologue, s).Some? && o == AfterPrologue(text, prologue, s).value.pos
  {
    hide HasShebang, CookieEndsAt, LineTaken, DeclarationEndsAt, DirectivesEndAt, AfterCookie, AfterDeclaration, AfterDirectives,
         IsBarePhp, IsCharset, LineAt;
    match prologue
    case NoPrologue =>
    case EncodingCookie => CookieIff(text, s.pos, s, o);
    case PhpOpenTag => LineTakenIff(text, s.pos, IsBarePhp, o);
    case XmlDeclaration => DeclarationIff(text, s.pos, s, o);
    case CssCharset => LineTakenIff(text, s.pos, IsCharset, o);
    case DockerDirectives => DirectivesIff(text, s.pos, s, o);
  }

  /** Something was consumed exactly when text stands above, and its last line ends exactly when a break does. */
  ghost predicate Sound(text: string, s: Scan) {
    && BomLength(text) <= s.pos <= |text|
    && (s.consumed <==> s.pos > BomLength(text))
    && (s.consumed ==> (s.terminated <==> text[s.pos - 1] == '\n') && (s.terminated || s.pos == |text|))
  }

  lemma {:induction false} TakenIsSound(text: string, p: nat)
    requires BomLength(text) <= p <= |text| && LineAt(text, p).next > BomLength(text) && (p == |text| ==> text[p - 1] != '\n')
    ensures Sound(text, Taken(LineAt(text, p)))
  {
    LineAtIs(text, p, LineAt(text, p));
    hide LineAt, Find;
    if !LineAt(text, p).terminated && p < |text| { assert text[p..][|text| - 1 - p] == text[|text| - 1]; }
  }

  lemma {:induction false} HeadIsSound(text: string)
    ensures Sound(text, AfterShebang(text))
  {
    hide LineAt;
    if HasShebang(text) { TakenIsSound(text, BomLength(text)); }
  }

  lemma {:induction false} DirectivesAreSound(text: string, s: Scan)
    requires Sound(text, s)
    ensures Sound(text, AfterDirectives(text, s))
    decreases |text| - s.pos
  {
    hide IsDirective, LineAt, Sound;
    if s.pos < |text| && IsDirective(LineAt(text, s.pos).content) {
      SoundBounds(text, s);
      TakenIsSound(text, s.pos);
      DirectivesAreSound(text, Taken(LineAt(text, s.pos)));
    }
  }

  lemma {:induction false} SoundBounds(text: string, s: Scan)
    requires Sound(text, s)
    ensures BomLength(text) <= s.pos <= |text|
  {}

  lemma {:induction false} PrologueIsSound(text: string, prologue: Prologue, s: Scan)
    requires Sound(text, s) && AfterPrologue(text, prologue, s).Some?
    ensures Sound(text, AfterPrologue(text, prologue, s).value)
  {
    hide Sound, IsCookie, IsCommentOrBlank, LineAt, AfterDirectives;
    SoundBounds(text, s);
    EmptyIsNoCookie();
    AtTheEnd(text);
    match prologue
    case NoPrologue =>
    case EncodingCookie =>
      if s.pos < |text| && IsCookie(LineAt(text, s.pos).content) { TakenIsSound(text, s.pos); }
      else if IsCookie(LineAt(text, LineAt(text, s.pos).next).content) { TakenIsSound(text, LineAt(text, s.pos).next); }
    case PhpOpenTag => if s.pos < |text| { TakenIsSound(text, s.pos); }
    case XmlDeclaration => DeclarationIsSound(text, s);
    case CssCharset => if s.pos < |text| { TakenIsSound(text, s.pos); }
    case DockerDirectives => DirectivesAreSound(text, s);
  }

  lemma {:induction false} DeclarationIsSound(text: string, s: Scan)
    requires Sound(text, s) && AfterDeclaration(text, s).Some?
    ensures Sound(text, AfterDeclaration(text, s).value)
  {
    hide Sound, LineAt, AllBlank, XmlStarts, FindDeclarationEnd;
    SoundBounds(text, s);
    if !s.consumed && XmlStarts(text[s.pos..]) {
      var close := FindDeclarationEnd(text, s.pos);
      FirstCloseIff(text, s.pos, close);
      assert OccursAt(text, "?>", close) && text[close..close + 2][1] == text[close + 1];
      TakenIsSound(text, close + 2);
    }
  }

  /** The carrier position is exactly the end of the prologue, and there is none exactly when the language leaves none. */
  lemma {:induction false} PositionIff(text: string, prologue: Prologue, o: nat, unterminated: bool)
    ensures CarrierPosition(text, prologue) == Some(Position(o, unterminated)) <==> IsPosition(text, prologue, o, unterminated)
  {
    hide Sound, AfterPrologue, PrologueEndsAt, HeadEndsAt, AfterShebang, HasShebang;
    var s := AfterShebang(text);
    forall h: nat ensures HeadEndsAt(text, h) <==> h == s.pos { HeadEndsIff(text, h); }
    HeadEndsIff(text, s.pos);
    HeadIsSound(text);
    PrologueIff(text, prologue, s, o);
    if AfterPrologue(text, prologue, s).Some? {
      PrologueIsSound(text, prologue, s);
      PositionOf(text, AfterPrologue(text, prologue, s).value);
    }
  }

  lemma {:induction false} PositionOf(text: string, s: Scan)
    requires Sound(text, s)
    ensures BomLength(text) <= s.pos <= |text|
    ensures s.consumed && !s.terminated <==> s.pos > BomLength(text) && text[s.pos - 1] != '\n'
    ensures s.consumed && !s.terminated ==> s.pos == |text|
  {}

  /**
   The three ways a language leaves no place: a first line that is no bare open tag, and a declaration
   or charset rule that does not end its line.
   */
  lemma {:induction false} RefusedIff(text: string, prologue: Prologue)
    ensures var h := AfterShebang(text).pos;
            CarrierPosition(text, prologue).None? <==>
              || (prologue.PhpOpenTag? && !IsBarePhp(LineAt(text, h).content))
              || (prologue.CssCharset? && !HasShebang(text) && StartsWith(text[h..], "@charset \"") && !IsCharset(LineAt(text, h).content))
              || (prologue.XmlDeclaration? && !HasShebang(text) && XmlStarts(text[h..])
                  && forall c: nat :: FirstClose(text, h, c) ==> !AllBlank(LineAt(text, c + 2).content))
  {
    hide LineAt, IsBarePhp, IsCharset, AllBlank, XmlStarts, FindDeclarationEnd;
    var h := AfterShebang(text).pos;
    HeadEndsIff(text, h);
    forall c: nat ensures FirstClose(text, h, c) <==> c == FindDeclarationEnd(text, h) && c + 2 <= |text| {
      FirstCloseIff(text, h, c);
    }
    hide FirstClose;
    if FindDeclarationEnd(text, h) + 2 <= |text| { assert FirstClose(text, h, FindDeclarationEnd(text, h)); }
  }
}
