/** What the prologue patterns match, as the parts a matching line is put together from. */
module CarrierPatterns {
  import opened Text
  import opened Carrier

  // ---------- blanks in front ----------

  lemma {:induction false} SkipBlanksParts(s: string) returns (blanks: string)
    ensures s == blanks + SkipBlanks(s) && AllBlank(blanks)
    ensures SkipBlanks(s) != [] ==> !IsBlank(SkipBlanks(s)[0])
  {
    if s != [] && IsBlank(s[0]) {
      var rest := SkipBlanksParts(s[1..]);
      blanks := [s[0]] + rest;
    } else {
      blanks := [];
    }
  }

  lemma {:induction false} SkipsBlanks(blanks: string, rest: string)
    requires AllBlank(blanks) && (rest == [] || !IsBlank(rest[0]))
    ensures SkipBlanks(blanks + rest) == rest
  {
    if blanks == [] {
      assert blanks + rest == rest;
    } else {
      SkipsBlanks(blanks[1..], rest);
      assert (blanks + rest)[1..] == blanks[1..] + rest;
    }
  }

  predicate IsIndent(c: char) {
    c == ' ' || c == '\t' || c == '\U{0C}'
  }

  predicate AllIndent(s: string) {
    forall i :: 0 <= i < |s| ==> IsIndent(s[i])
  }

  lemma {:induction false} SkipIndentParts(s: string) returns (indent: string)
    ensures s == indent + SkipIndent(s) && AllIndent(indent)
    ensures SkipIndent(s) != [] ==> !IsIndent(SkipIndent(s)[0])
  {
    if s != [] && IsIndent(s[0]) {
      var rest := SkipIndentParts(s[1..]);
      indent := [s[0]] + rest;
    } else {
      indent := [];
    }
  }

  lemma {:induction false} SkipsIndent(indent: string, rest: string)
    requires AllIndent(indent) && (rest == [] || !IsIndent(rest[0]))
    ensures SkipIndent(indent + rest) == rest
  {
    if indent == [] {
      assert indent + rest == rest;
    } else {
      SkipsIndent(indent[1..], rest);
      assert (indent + rest)[1..] == indent[1..] + rest;
    }
  }

  // ---------- directives ----------

  /** `word` in any case. */
  predicate Spells(s: string, word: string) {
    |s| == |word| && forall i :: 0 <= i < |word| ==> Lower(s[i]) == word[i]
  }

  predicate IsDirectiveWord(word: string) {
    Spells(word, "syntax") || Spells(word, "escape") || Spells(word, "check")
  }

  ghost predicate DirectiveParts(line: string, before: string, word: string, after: string, rest: string) {
    && line == "#" + before + word + after + "=" + rest
    && AllBlank(before) && IsDirectiveWord(word) && AllBlank(after)
  }

  lemma {:induction false} AssignsParts(s: string, i: nat) returns (after: string, rest: string)
    requires AssignsAt(s, i)
    ensures s == s[..i] + after + "=" + rest && AllBlank(after)
  {
    after := SkipBlanksParts(s[i..]);
    rest := SkipBlanks(s[i..])[1..];
    assert SkipBlanks(s[i..]) == "=" + rest;
    assert s == s[..i] + s[i..];
  }

  lemma {:induction false} AssignsBehind(word: string, after: string, rest: string)
    requires AllBlank(after)
    ensures AssignsAt(word + after + "=" + rest, |word|)
  {
    var s := word + after + "=" + rest;
    assert s[|word|..] == after + ("=" + rest);
    SkipsBlanks(after, "=" + rest);
  }

  lemma {:induction false} DirectiveHasParts(line: string) returns (before: string, word: string, after: string, rest: string)
    requires IsDirective(line)
    ensures DirectiveParts(line, before, word, after, rest)
  {
    hide SkipBlanks, AssignsAt, AllBlank;
    var s := SkipBlanks(line[1..]);
    before := SkipBlanksParts(line[1..]);
    var n := if StartsWithWord(s, "check") && AssignsAt(s, 5) then 5 else 6;
    after, rest := AssignsParts(s, n);
    word := s[..n];
    assert IsDirectiveWord(word);
    assert line == "#" + line[1..];
  }

  lemma {:induction false} PartsAreDirective(line: string, before: string, word: string, after: string, rest: string)
    requires DirectiveParts(line, before, word, after, rest)
    ensures IsDirective(line)
  {
    hide SkipBlanks, AssignsAt, AllBlank;
    var s := word + after + "=" + rest;
    assert line[1..] == before + s;
    assert s[0] == word[0] && !IsBlank(word[0]);
    SkipsBlanks(before, s);
    AssignsBehind(word, after, rest);
    assert forall i :: 0 <= i < |word| ==> s[i] == word[i];
  }

  /** A parser directive: a hash, one of three words in any case, an equals sign, and blanks between them. */
  lemma {:induction false} DirectiveIff(line: string)
    ensures IsDirective(line) <==> exists before, word, after, rest :: DirectiveParts(line, before, word, after, rest)
  {
    hide IsDirective, DirectiveParts;
    if IsDirective(line) { var before, word, after, rest := DirectiveHasParts(line); }
    if before, word, after, rest :| DirectiveParts(line, before, word, after, rest) {
      PartsAreDirective(line, before, word, after, rest);
    }
  }

  // ---------- the cookie ----------

  ghost predicate CodingParts(s: string, sign: char, blanks: string, name: char, rest: string) {
    && s == "coding" + [sign] + blanks + [name] + rest
    && (sign == ':' || sign == '=') && AllBlank(blanks) && NameChar(name)
  }

  lemma {:induction false} CodingHereIff(s: string)
    ensures CodingHere(s) <==> exists sign, blanks, name, rest :: CodingParts(s, sign, blanks, name, rest)
  {
    hide SkipBlanks, AllBlank;
    if CodingHere(s) {
      var blanks := SkipBlanksParts(s[7..]);
      var tail := SkipBlanks(s[7..]);
      assert tail == [tail[0]] + tail[1..] && s == s[..6] + [s[6]] + s[7..];
      assert CodingParts(s, s[6], blanks, tail[0], tail[1..]);
    }
    if sign, blanks, name, rest :| CodingParts(s, sign, blanks, name, rest) {
      assert s[..6] == "coding" && s[6] == sign && s[7..] == blanks + ([name] + rest);
      SkipsBlanks(blanks, [name] + rest);
    }
  }

  predicate OnOneLine(s: string) {
    forall i :: 0 <= i < |s| ==> !EndsLine(s[i])
  }

  ghost predicate LaterParts(s: string, skipped: string, tail: string) {
    s == skipped + tail && OnOneLine(skipped) && CodingHere(tail)
  }

  lemma {:induction false} CodingLaterIff(s: string)
    ensures CodingLater(s) <==> exists skipped, tail :: LaterParts(s, skipped, tail)
  {
    hide CodingHere;
    EmptyIsNoCoding();
    if CodingHere(s) {
      assert LaterParts(s, [], s);
    } else if s != [] && !EndsLine(s[0]) {
      CodingLaterIff(s[1..]);
      if skipped, tail :| LaterParts(s[1..], skipped, tail) { assert LaterParts(s, [s[0]] + skipped, tail); }
    }
    if skipped, tail :| LaterParts(s, skipped, tail) {
      if skipped == [] {
        assert s == tail;
      } else {
        assert s[0] == skipped[0] && s[1..] == skipped[1..] + tail;
        CodingLaterIff(s[1..]);
        assert LaterParts(s[1..], skipped[1..], tail);
      }
    }
  }

  lemma {:induction false} EmptyIsNoCoding()
    ensures !CodingHere("")
  {}

  ghost predicate CookieParts(line: string, indent: string, skipped: string, tail: string) {
    line == indent + "#" + skipped + tail && AllIndent(indent) && OnOneLine(skipped) && CodingHere(tail)
  }

  /** An encoding cookie: a comment with the words `coding:` or `coding=` and a name anywhere behind the hash. */
  lemma {:induction false} CookieIff(line: string)
    ensures IsCookie(line) <==> exists indent, skipped, tail :: CookieParts(line, indent, skipped, tail)
  {
    hide CodingHere, CodingLater, SkipIndent, AllIndent, OnOneLine;
    if IsCookie(line) {
      var s := SkipIndent(line);
      var indent := SkipIndentParts(line);
      CodingLaterIff(s[1..]);
      var skipped, tail :| LaterParts(s[1..], skipped, tail);
      assert s == "#" + s[1..];
      assert CookieParts(line, indent, skipped, tail);
    }
    if indent, skipped, tail :| CookieParts(line, indent, skipped, tail) {
      var s := "#" + skipped + tail;
      assert line == indent + s && s[1..] == skipped + tail;
      SkipsIndent(indent, s);
      CodingLaterIff(s[1..]);
      assert LaterParts(s[1..], skipped, tail);
    }
  }

  ghost predicate CommentParts(line: string, indent: string, comment: string) {
    line == indent + comment && AllIndent(indent) && (comment == [] || (comment[0] == '#' && OnOneLine(comment)))
  }

  lemma {:induction false} CommentOrBlankIff(line: string)
    ensures IsCommentOrBlank(line) <==> exists indent, comment :: CommentParts(line, indent, comment)
  {
    hide SkipIndent, AllIndent;
    if IsCommentOrBlank(line) {
      var indent := SkipIndentParts(line);
      assert CommentParts(line, indent, SkipIndent(line));
    }
    if indent, comment :| CommentParts(line, indent, comment) { SkipsIndent(indent, comment); }
  }

  // ---------- open tag and charset ----------

  ghost predicate OpenTagParts(line: string, tag: string, blanks: string) {
    line == tag + blanks && Spells(tag, "<?php") && AllBlank(blanks)
  }

  lemma {:induction false} BarePhpIff(line: string)
    ensures IsBarePhp(line) <==> exists tag, blanks :: OpenTagParts(line, tag, blanks)
  {
    if IsBarePhp(line) { assert OpenTagParts(line, line[..5], line[5..]); }
    if tag, blanks :| OpenTagParts(line, tag, blanks) {
      assert line[5..] == blanks && forall i :: 0 <= i < 5 ==> line[i] == tag[i];
    }
  }

  ghost predicate CharsetParts(line: string, name: string, blanks: string) {
    line == "@charset \"" + name + "\";" + blanks && '\"' !in name && AllBlank(blanks)
  }

  lemma {:induction false} CharsetHasParts(line: string) returns (name: string, blanks: string)
    requires IsCharset(line)
    ensures CharsetParts(line, name, blanks)
  {
    hide AllBlank;
    var quote := Find(line, '\"', 10);
    name, blanks := line[10..quote], line[quote + 2..];
    forall i | 0 <= i < |name| ensures name[i] != '\"' { assert name[i] == line[10 + i]; }
    hide Find;
    assert line[quote..quote + 2] == "\";";
    assert line == line[..10] + name + line[quote..quote + 2] + blanks;
  }

  lemma {:induction false} PartsAreCharset(line: string, name: string, blanks: string)
    requires CharsetParts(line, name, blanks)
    ensures IsCharset(line)
  {
    hide AllBlank, Find;
    var quote := 10 + |name|;
    assert line[..10] == "@charset \"";
    assert line[quote] == '\"' && line[quote + 1] == ';' && line[quote + 2..] == blanks;
    forall i | 10 <= i < quote ensures line[i] != '\"' { assert line[i] == name[i - 10]; }
    FindUnique(line, '\"', 10, quote);
  }

  lemma {:induction false} CharsetIff(line: string)
    ensures IsCharset(line) <==> exists name, blanks :: CharsetParts(line, name, blanks)
  {
    hide IsCharset, CharsetParts;
    if IsCharset(line) { var name, blanks := CharsetHasParts(line); }
    if name, blanks :| CharsetParts(line, name, blanks) { PartsAreCharset(line, name, blanks); }
  }
}
