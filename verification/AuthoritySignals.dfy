/** What counts as a literal write, said of the text from a position on. */
module AuthoritySignals {
  import opened Text
  import opened AuthorityScan

  /** `word` in any case. */
  predicate Spells(s: string, word: string) {
    |s| == |word| && forall i :: 0 <= i < |word| ==> Lower(s[i]) == word[i]
  }

  predicate AllSpace(s: string) {
    forall i :: 0 <= i < |s| ==> IsSpace(s[i])
  }

  ghost predicate WordParts(s: string, word: string, name: string, rest: string) {
    s == name + rest && Spells(name, word)
  }

  /** A name, white space or none, and an opening parenthesis. */
  ghost predicate CallParts(s: string, word: string, name: string, spaces: string, rest: string) {
    s == name + spaces + "(" + rest && Spells(name, word) && AllSpace(spaces)
  }

  lemma {:induction false} WordIff(s: string, p: nat, word: string)
    requires p <= |s|
    ensures WordAt(s, p, word) <==> exists name, rest :: WordParts(s[p..], word, name, rest)
  {
    if WordAt(s, p, word) {
      var name, rest := s[p..p + |word|], s[p + |word|..];
      assert s[p..] == name + rest;
      assert WordParts(s[p..], word, name, rest);
    }
    if name, rest :| WordParts(s[p..], word, name, rest) {
      forall i | 0 <= i < |word| ensures Lower(s[p + i]) == word[i] { assert s[p..][i] == name[i]; }
    }
  }

  lemma {:induction false} SkipsSpaces(s: string, p: nat, spaces: string, c: char, rest: string)
    requires p <= |s| && s[p..] == spaces + [c] + rest && AllSpace(spaces) && !IsSpace(c)
    ensures SkipSpaces(s, p) == p + |spaces| < |s| && s[p + |spaces|] == c
    decreases |spaces|
  {
    hide IsSpace;
    assert s[p..][|spaces|] == c;
    assert |s[p..]| == |spaces| + 1 + |rest|;
    if spaces == [] {
      assert s[p] == s[p..][0] == c;
    } else {
      assert s[p] == s[p..][0] == spaces[0];
      assert s[p + 1..] == s[p..][1..] == spaces[1..] + [c] + rest;
      SkipsSpaces(s, p + 1, spaces[1..], c, rest);
    }
  }

  lemma {:induction false} CallHasParts(s: string, p: nat, word: string) returns (name: string, spaces: string, rest: string)
    requires p <= |s| && CallEnd(s, p, word).Some?
    ensures CallParts(s[p..], word, name, spaces, rest)
  {
    hide IsSpace;
    var open := SkipSpaces(s, p + |word|);
    name, spaces, rest := s[p..p + |word|], s[p + |word|..open], s[open + 1..];
    assert s[p..] == name + spaces + [s[open]] + rest;
  }

  lemma {:induction false} PartsAreCall(s: string, p: nat, word: string, name: string, spaces: string, rest: string)
    requires p <= |s| && CallParts(s[p..], word, name, spaces, rest)
    ensures CallEnd(s, p, word) == Some(p + |word| + |spaces| + 1)
  {
    assert !IsSpace('(');
    hide IsSpace, AllSpace, WordAt, SkipSpaces, Spells;
    NameFirst(name, spaces, rest);
    WordIff(s, p, word);
    assert WordParts(s[p..], word, name, spaces + "(" + rest);
    SpelledLength(name, word);
    assert s[p + |word|..] == s[p..][|word|..] == spaces + "(" + rest;
    SkipsSpaces(s, p + |word|, spaces, '(', rest);
  }

  lemma {:induction false} NameFirst(name: string, spaces: string, rest: string)
    ensures name + spaces + "(" + rest == name + (spaces + "(" + rest)
    ensures (name + (spaces + "(" + rest))[|name|..] == spaces + "(" + rest
  {}

  lemma {:induction false} SpelledLength(name: string, word: string)
    requires Spells(name, word)
    ensures |name| == |word|
  {}

  lemma {:induction false} CallIff(s: string, p: nat, word: string)
    requires p <= |s|
    ensures CallEnd(s, p, word).Some? <==> exists name, spaces, rest :: CallParts(s[p..], word, name, spaces, rest)
  {
    hide CallEnd, CallParts;
    if CallEnd(s, p, word).Some? { var name, spaces, rest := CallHasParts(s, p, word); }
    if name, spaces, rest :| CallParts(s[p..], word, name, spaces, rest) { PartsAreCall(s, p, word, name, spaces, rest); }
  }

  ghost predicate Begins(s: string, word: string) {
    exists name, rest :: WordParts(s, word, name, rest)
  }

  ghost predicate Calls(s: string, word: string) {
    exists name, spaces, rest :: CallParts(s, word, name, spaces, rest)
  }

  /**
   A literal write signal: one of four names, or one of three in front of a parenthesis, in any case
   and whatever stands behind.
   */
  lemma {:induction false} LiteralIff(s: string, p: nat)
    requires p <= |s|
    ensures LiteralAt(s, p) <==>
              || Begins(s[p..], "writefilesync") || Begins(s[p..], "fs.write") || Begins(s[p..], "yaml.safe_dump")
              || Begins(s[p..], "json.dump")
              || Calls(s[p..], "writefile") || Calls(s[p..], "write_text") || Calls(s[p..], "write_bytes")
  {
    WordIff(s, p, "writefilesync");
    WordIff(s, p, "fs.write");
    WordIff(s, p, "yaml.safe_dump");
    WordIff(s, p, "json.dump");
    CallIff(s, p, "writefile");
    CallIff(s, p, "write_text");
    CallIff(s, p, "write_bytes");
    hide WordAt, CallEnd, WordParts, CallParts;
  }

  lemma {:induction false} OpenIff(s: string, p: nat)
    requires p <= |s|
    ensures OpenAt(s, p) <==> Calls(s[p..], "open")
  {
    CallIff(s, p, "open");
    hide CallEnd, CallParts;
  }
}
