/** Reading the authority grammar back: every flow list of fitting items, and every line that holds one. */
module AuthorityReading {
  import opened Text
  import opened AuthorityList
  import opened AuthorityGrammar

  // ---------- what an item says ----------

  /** Plain text that is a string: no indicator in front, no null or bool, no quote at the end, no mapping inside. */
  predicate IsString(w: string) {
    && w != [] && !NonStringPlain(w) && w[|w| - 1] != '\'' && w[|w| - 1] != '\"' && w[|w| - 1] != ':'
    && w[0] !in {'[', ']', '{', '}', '&', '*', '!', '>', '|', '%', '@', '`'}
    && forall i :: 0 <= i < |w| - 1 ==> !(w[i] == ':' && w[i + 1] == ' ')
  }

  /** The string an item stands for; `None` when the grammar refuses it. */
  function Says(item: Item, parse: DoubleQuoted): Option<string> {
    match item
    case InSingle(text) => Some(text)
    case InDouble(_) => parse(Written(item))
    case Bare(word) => if IsString(word) then Some(word) else None
  }

  /** All of them, or `None` when one is refused. */
  function SayAll(items: seq<Item>, parse: DoubleQuoted): Option<seq<string>> {
    if items == [] then Some([])
    else
      var first, rest := Says(items[0], parse), SayAll(items[1..], parse);
      if first.Some? && rest.Some? then Some([first.value] + rest.value) else None
  }

  // ---------- one scalar ----------

  lemma {:induction false} UndoubleDoubled(s: string)
    ensures Undouble(Doubled(s)) == s
  {
    if s == [] {
    } else {
      UndoubleDoubled(s[1..]);
      var rest := Doubled(s[1..]);
      if s[0] == '\'' {
        assert ("''" + rest)[2..] == rest;
      } else {
        assert ([s[0]] + rest)[1..] == rest;
      }
      assert s == [s[0]] + s[1..];
    }
  }

  lemma {:induction false} QuotedShape(s: string)
    ensures |Quoted(s)| >= 2 && Quoted(s)[0] == '\'' && Quoted(s)[|Quoted(s)| - 1] == '\''
    ensures Quoted(s)[1..|Quoted(s)| - 1] == Doubled(s)
  {}

  lemma {:induction false} TrimSolid(s: string)
    requires s != [] && !IsSpace(s[0]) && !IsSpace(s[|s| - 1])
    ensures Trim(s) == s
  {
    TrimEndSolid(s);
  }

  lemma {:induction false} TrimBlanks(blanks: string, s: string)
    requires (blanks == "" || blanks == " ") && s != [] && !IsSpace(s[0]) && !IsSpace(s[|s| - 1])
    ensures Trim(blanks + s) == s
  {
    assert (blanks + s)[|blanks + s| - 1] == s[|s| - 1];
    TrimEndSolid(blanks + s);
    assert TrimStart(s) == s;
    if blanks == " " {
      assert (" " + s)[0] == ' ' && (" " + s)[1..] == s;
      assert TrimStart(" " + s) == TrimStart((" " + s)[1..]);
    } else {
      assert blanks + s == s;
    }
  }

  lemma {:induction false} WrittenSolid(item: Item)
    requires Fits(item, true)
    ensures Written(item) != [] && !IsSpace(Written(item)[0]) && !IsSpace(Written(item)[|Written(item)| - 1])
  {
    hide Doubled, Escaped;
    SpaceIsNot();
  }

  lemma {:induction false} HoldsMapping(w: string)
    ensures Contains(w, ": ") <==> exists i :: 0 <= i < |w| - 1 && w[i] == ':' && w[i + 1] == ' '
  {
    if Contains(w, ": ") {
      var i :| 0 <= i <= |w| - 2 && OccursAt(w, ": ", i);
      assert w[i..i + 2][0] == w[i] && w[i..i + 2][1] == w[i + 1];
    }
    if i :| 0 <= i < |w| - 1 && w[i] == ':' && w[i + 1] == ' ' {
      assert w[i..i + 2] == ": ";
      ContainsShown(w, ": ", i);
    }
  }

  /** Each style of scalar is read as what it says. */
  lemma {:induction false} ScalarSays(blanks: string, item: Item, parse: DoubleQuoted)
    requires (blanks == "" || blanks == " ") && Fits(item, true)
    ensures Scalar(blanks + Written(item), parse) == Says(item, parse)
  {
    hide Trim, Doubled, Undouble, IsSpace, NonStringPlain, Contains, MidWord;
    WrittenSolid(item);
    TrimBlanks(blanks, Written(item));
    match item
    case InSingle(text) =>
      QuotedShape(text);
      hide Quoted;
      UndoubleDoubled(text);
    case InDouble(body) =>
      var value := Written(item);
      assert |value| >= 2 && value[0] == '\"' && value[|value| - 1] == '\"';
    case Bare(word) =>
      HoldsMapping(word);
      assert word[0] != '\'' && word[0] != '\"';
  }

  // ---------- along the body ----------

  lemma {:induction false} ParseInSingle(body: string, p: nat, current: string, done: seq<string>, parse: DoubleQuoted)
    requires p < |body|
    ensures body[p] != '\'' ==> ParseItems(body, p, current, Single, done, parse)
                                == ParseItems(body, p + 1, current + [body[p]], Single, done, parse)
    ensures body[p] == '\'' && p + 1 < |body| && body[p + 1] == '\'' ==>
              ParseItems(body, p, current, Single, done, parse) == ParseItems(body, p + 2, current + "''", Single, done, parse)
    ensures body[p] == '\'' && (p + 1 == |body| || body[p + 1] != '\'') ==>
              ParseItems(body, p, current, Single, done, parse) == ParseItems(body, p + 1, current + "'", NoQuote, done, parse)
  {
    hide Scalar, Trim;
    assert current + "'" + "'" == current + "''";
  }

  lemma {:induction false} ParseInDouble(body: string, p: nat, current: string, done: seq<string>, parse: DoubleQuoted)
    requires p < |body|
    ensures body[p] == '\\' && p + 1 < |body| ==>
              ParseItems(body, p, current, Double, done, parse)
              == ParseItems(body, p + 2, current + body[p..p + 2], Double, done, parse)
    ensures body[p] == '\"' ==>
              ParseItems(body, p, current, Double, done, parse) == ParseItems(body, p + 1, current + "\"", NoQuote, done, parse)
    ensures body[p] != '\\' && body[p] != '\"' ==>
              ParseItems(body, p, current, Double, done, parse)
              == ParseItems(body, p + 1, current + [body[p]], Double, done, parse)
  {
    hide Scalar, Trim;
    if p + 1 < |body| { assert current + [body[p]] + [body[p + 1]] == current + body[p..p + 2]; }
  }

  lemma {:induction false} ParseBare(body: string, p: nat, current: string, done: seq<string>, parse: DoubleQuoted)
    requires p < |body| && body[p] != ',' && ((body[p] == '\'' || body[p] == '\"') ==> Trim(current) != [])
    ensures ParseItems(body, p, current, NoQuote, done, parse) == ParseItems(body, p + 1, current + [body[p]], NoQuote, done, parse)
  {
    hide Scalar, Trim;
  }

  lemma {:induction false} ParseOpens(body: string, p: nat, blanks: string, done: seq<string>, parse: DoubleQuoted)
    requires p < |body| && (blanks == "" || blanks == " ")
    ensures body[p] == '\'' ==>
              ParseItems(body, p, blanks, NoQuote, done, parse) == ParseItems(body, p + 1, blanks + "'", Single, done, parse)
    ensures body[p] == '\"' ==>
              ParseItems(body, p, blanks, NoQuote, done, parse) == ParseItems(body, p + 1, blanks + "\"", Double, done, parse)
  {
    assert Trim(blanks) == [] by { assert TrimEnd(" ") == TrimEnd(""); }
    hide Scalar, Trim;
  }

  lemma {:induction false} DoubledOpens(s: string, after: string)
    requires s != []
    ensures Doubled(s) + "'" + after == (if s[0] == '\'' then "''" else [s[0]]) + (Doubled(s[1..]) + "'" + after)
    ensures |Doubled(s)| == (if s[0] == '\'' then 2 else 1) + |Doubled(s[1..])|
  {}

  lemma {:induction false} ParseQuoted(body: string, p: nat, current: string, s: string, after: string, done: seq<string>, parse: DoubleQuoted)
    requires Reads(body, p, Doubled(s) + "'" + after) && (after == [] || after[0] != '\'')
    ensures Reads(body, p + |Doubled(s)| + 1, after)
    ensures ParseItems(body, p, current, Single, done, parse)
            == ParseItems(body, p + |Doubled(s)| + 1, current + Doubled(s) + "'", NoQuote, done, parse)
    decreases |s|
  {
    hide ParseItems;
    if s == [] {
      assert Doubled(s) + "'" + after == "'" + after && current + Doubled(s) + "'" == current + "'";
      ReadsOn(body, p, "'", after);
      assert body[p + 0] == '\'';
      assert after != [] ==> body[p + 1..][0] == after[0];
      ParseInSingle(body, p, current, done, parse);
    } else {
      var head, rest := (if s[0] == '\'' then "''" else [s[0]]), Doubled(s[1..]) + "'" + after;
      DoubledOpens(s, after);
      assert current + Doubled(s) + "'" == current + head + Doubled(s[1..]) + "'";
      hide Doubled;
      ReadsOn(body, p, head, rest);
      assert body[p + 0] == s[0] && (s[0] == '\'' ==> body[p + 1] == head[1]);
      hide Reads;
      ParseInSingle(body, p, current, done, parse);
      ParseQuoted(body, p + |head|, current + head, s[1..], after, done, parse);
    }
  }

  lemma {:induction false} ParseEscaped(body: string, p: nat, current: string, s: string, after: string, done: seq<string>, parse: DoubleQuoted)
    requires Reads(body, p, s + "\"" + after) && Escaped(s)
    ensures Reads(body, p + |s| + 1, after)
    ensures ParseItems(body, p, current, Double, done, parse)
            == ParseItems(body, p + |s| + 1, current + s + "\"", NoQuote, done, parse)
    decreases |s|
  {
    hide ParseItems;
    if s == [] {
      assert s + "\"" + after == "\"" + after && current + s + "\"" == current + "\"";
      ReadsOn(body, p, "\"", after);
      assert body[p + 0] == '\"';
      ParseInDouble(body, p, current, done, parse);
    } else {
      var n := if s[0] == '\\' then 2 else 1;
      var head, rest := s[..n], s[n..];
      assert s + "\"" + after == head + (rest + "\"" + after);
      assert current + s + "\"" == current + head + rest + "\"";
      ReadsOn(body, p, head, rest + "\"" + after);
      assert body[p + 0] == s[0] && body[p..p + n] == head && (n == 1 ==> [body[p]] == head);
      hide Reads;
      ParseInDouble(body, p, current, done, parse);
      ParseEscaped(body, p + n, current + head, rest, after, done, parse);
    }
  }

  lemma {:induction false} NotBlank(current: string, c: char)
    requires c in current && !IsSpace(c)
    ensures Trim(current) != []
  {
    TrimEndKeeps(current, c);
    TrimStartKeeps(TrimEnd(current), c);
  }

  lemma {:induction false} TrimEndKeeps(s: string, c: char)
    requires c in s && !IsSpace(c)
    ensures c in TrimEnd(s)
  {
    hide IsSpace;
    if s != [] && IsSpace(s[|s| - 1]) {
      assert s == s[..|s| - 1] + [s[|s| - 1]];
      TrimEndKeeps(s[..|s| - 1], c);
    }
  }

  lemma {:induction false} TrimStartKeeps(s: string, c: char)
    requires c in s && !IsSpace(c)
    ensures c in TrimStart(s)
  {
    hide IsSpace;
    if s != [] && IsSpace(s[0]) {
      assert s == [s[0]] + s[1..];
      TrimStartKeeps(s[1..], c);
    }
  }

  lemma {:induction false} ParseWord(body: string, p: nat, blanks: string, w: string, i: nat, done: seq<string>, parse: DoubleQuoted)
    requires p + |w| <= |body| && body[p..p + |w|] == w && Fits(Bare(w), true) && i <= |w|
    ensures ParseItems(body, p + i, blanks + w[..i], NoQuote, done, parse) == ParseItems(body, p + |w|, blanks + w, NoQuote, done, parse)
    decreases |w| - i
  {
    hide ParseItems, IsSpace, MidWord, Trim;
    if i == |w| {
      assert w[..i] == w;
    } else {
      assert body[p + i] == body[p..p + |w|][i] == w[i] && w[i] in w;
      if i > 0 {
        assert w[..i][0] == w[0] && w[0] in blanks + w[..i];
        NotBlank(blanks + w[..i], w[0]);
      }
      ParseBare(body, p + i, blanks + w[..i], done, parse);
      assert blanks + w[..i] + [w[i]] == blanks + w[..i + 1];
      ParseWord(body, p, blanks, w, i + 1, done, parse);
    }
  }

  lemma {:induction false} ParseSingle(body: string, p: nat, blanks: string, text: string, after: string, done: seq<string>, parse: DoubleQuoted)
    requires Reads(body, p, Quoted(text) + after) && (after == [] || after[0] != '\'') && (blanks == "" || blanks == " ")
    ensures Reads(body, p + |Quoted(text)|, after)
    ensures ParseItems(body, p, blanks, NoQuote, done, parse)
            == ParseItems(body, p + |Quoted(text)|, blanks + Quoted(text), NoQuote, done, parse)
  {
    hide ParseItems, Doubled;
    WrittenOpens(InSingle(text), after);
    ReadsOn(body, p, "'", Doubled(text) + "'" + after);
    assert body[p + 0] == '\'';
    hide Reads;
    ParseOpens(body, p, blanks, done, parse);
    ParseQuoted(body, p + 1, blanks + "'", text, after, done, parse);
    assert blanks + "'" + Doubled(text) + "'" == blanks + Quoted(text);
  }

  lemma {:induction false} ParseDouble(body: string, p: nat, blanks: string, s: string, after: string, done: seq<string>, parse: DoubleQuoted)
    requires Reads(body, p, "\"" + s + "\"" + after) && Escaped(s) && (blanks == "" || blanks == " ")
    ensures Reads(body, p + |s| + 2, after)
    ensures ParseItems(body, p, blanks, NoQuote, done, parse)
            == ParseItems(body, p + |s| + 2, blanks + ("\"" + s + "\""), NoQuote, done, parse)
  {
    hide ParseItems, Escaped;
    assert "\"" + s + "\"" + after == "\"" + (s + "\"" + after);
    ReadsOn(body, p, "\"", s + "\"" + after);
    assert body[p + 0] == '\"';
    hide Reads;
    ParseOpens(body, p, blanks, done, parse);
    ParseEscaped(body, p + 1, blanks + "\"", s, after, done, parse);
    assert blanks + "\"" + s + "\"" == blanks + ("\"" + s + "\"");
  }

  lemma {:induction false} ParseOneItem(body: string, p: nat, blanks: string, item: Item, after: string, done: seq<string>, parse: DoubleQuoted)
    requires Reads(body, p, Written(item) + after) && (after == [] || after[0] != '\'') && (blanks == "" || blanks == " ")
    requires Fits(item, true)
    ensures Reads(body, p + |Written(item)|, after)
    ensures ParseItems(body, p, blanks, NoQuote, done, parse)
            == ParseItems(body, p + |Written(item)|, blanks + Written(item), NoQuote, done, parse)
  {
    hide ParseItems, Quoted, IsPlain, Escaped;
    match item
    case InSingle(text) => ParseSingle(body, p, blanks, text, after, done, parse);
    case InDouble(s) => ParseDouble(body, p, blanks, s, after, done, parse);
    case Bare(word) =>
      ReadsOn(body, p, word, after);
      assert body[p..p + |word|] == word && blanks + word[..0] == blanks;
      ParseWord(body, p, blanks, word, 0, done, parse);
  }

  lemma {:induction false} ParseSeparator(body: string, p: nat, current: string, more: string, done: seq<string>, parse: DoubleQuoted)
    requires Reads(body, p, ", " + more)
    ensures Reads(body, p + 2, more)
    ensures ParseItems(body, p, current, NoQuote, done, parse)
            == match Scalar(current, parse)
               case None => None
               case Some(s) => ParseItems(body, p + 2, " ", NoQuote, done + [s], parse)
  {
    ReadsOn(body, p, ", ", more);
    assert body[p + 0] == ',' && body[p + 1] == ' ';
    hide Scalar, Trim;
    assert [] + " " == " ";
  }

  ghost predicate AllFit(items: seq<Item>) {
    forall i :: 0 <= i < |items| ==> Fits(items[i], true)
  }

  function Behind(done: seq<string>, rest: Option<seq<string>>): Option<seq<string>> {
    if rest.Some? then Some(done + rest.value) else None
  }

  lemma {:induction false} ParseAll(body: string, p: nat, blanks: string, items: seq<Item>, done: seq<string>, parse: DoubleQuoted)
    requires items != [] && AllFit(items) && Reads(body, p, ItemsText(items)) && (blanks == "" || blanks == " ")
    ensures ParseItems(body, p, blanks, NoQuote, done, parse) == Behind(done, SayAll(items, parse))
    decreases |items|
  {
    hide Scalar, Written, Reads, Says, Fits;
    assert Fits(items[0], true);
    ScalarSays(blanks, items[0], parse);
    if |items| == 1 {
      assert ItemsText(items) == Written(items[0]) + [];
      ParseOneItem(body, p, blanks, items[0], [], done, parse);
      AtEnd(body, p + |Written(items[0])|);
      assert SayAll(items[1..], parse) == Some([]);
      if Says(items[0], parse).Some? { assert [Says(items[0], parse).value] + [] == [Says(items[0], parse).value]; }
    } else {
      var more := ItemsText(items[1..]);
      assert ItemsText(items) == Written(items[0]) + (", " + more);
      ParseOneItem(body, p, blanks, items[0], ", " + more, done, parse);
      ParseSeparator(body, p + |Written(items[0])|, blanks + Written(items[0]), more, done, parse);
      if Says(items[0], parse).Some? {
        var s := Says(items[0], parse).value;
        hide ParseItems;
        ParseAll(body, p + |Written(items[0])| + 2, " ", items[1..], done + [s], parse);
        assert SayAll(items[1..], parse).Some? ==>
          done + [s] + SayAll(items[1..], parse).value == done + ([s] + SayAll(items[1..], parse).value);
      }
    }
  }

  lemma {:induction false} AtEnd(body: string, p: nat)
    requires Reads(body, p, [])
    ensures p == |body|
  {}

  lemma {:induction false} ItemsEnds(items: seq<Item>)
    requires items != [] && AllFit(items)
    ensures var t := ItemsText(items); t != [] && !IsSpace(t[0]) && !IsSpace(t[|t| - 1])
    decreases |items|
  {
    hide Written, IsSpace, Fits;
    assert Fits(items[0], true);
    WrittenSolid(items[0]);
    if |items| == 1 {
    } else {
      ItemsEnds(items[1..]);
    }
  }

  /** A flow list of fitting items is read as what the items say, and refused exactly when one of them is. */
  lemma {:induction false} ListIsRead(items: seq<Item>, parse: DoubleQuoted)
    requires AllFit(items)
    ensures ParsedList(FlowText(items), parse) == SayAll(items, parse)
  {
    hide Trim, Scalar, IsSpace, Says;
    SpaceIsNot();
    if items == [] {
      TrimSolid("[]");
    } else {
      var f, body := FlowText(items), ItemsText(items);
      ItemsEnds(items);
      hide ItemsText;
      assert f == "[" + body + "]" && f[1..|f| - 1] == body;
      TrimSolid(f);
      TrimSolid(body);
      assert |f| > 2;
      assert Reads(body, 0, body) by { assert body[0..] == body; }
      ParseAll(body, 0, "", items, [], parse);
      assert SayAll(items, parse).Some? ==> [] + SayAll(items, parse).value == SayAll(items, parse).value;
    }
  }

  /** Any strings at all can be written so that they are read back: the single-quoted style. */
  lemma {:induction false} QuotedListRoundTrip(texts: seq<string>, parse: DoubleQuoted)
    ensures AllFit(InQuotes(texts)) && ParsedList(FlowText(InQuotes(texts)), parse) == Some(texts)
  {
    hide ParsedList, FlowText;
    ListIsRead(InQuotes(texts), parse);
    QuotesSay(texts, parse);
  }

  function InQuotes(texts: seq<string>): (items: seq<Item>)
    ensures |items| == |texts|
  {
    seq(|texts|, i requires 0 <= i < |texts| => InSingle(texts[i]))
  }

  lemma {:induction false} QuotesSay(texts: seq<string>, parse: DoubleQuoted)
    ensures SayAll(InQuotes(texts), parse) == Some(texts)
  {
    if texts == [] {
    } else {
      QuotesSay(texts[1..], parse);
      assert InQuotes(texts)[1..] == InQuotes(texts[1..]) && [texts[0]] + texts[1..] == texts;
    }
  }

  // ---------- the whole line ----------

  /** A string the line grammar can carry. */
  predicate OnOneLine(s: string) {
    forall i :: 0 <= i < |s| ==> !EndsLine(s[i]) && s[i] != '\t'
  }

  lemma {:induction false} DoubledOnOneLine(s: string)
    requires OnOneLine(s)
    ensures OnOneLine(Doubled(s))
  {
    if s == [] {
    } else {
      DoubledOnOneLine(s[1..]);
    }
  }

  predicate ItemOnOneLine(item: Item) {
    match item
    case InSingle(text) => OnOneLine(text)
    case InDouble(body) => OnOneLine(body)
    case Bare(word) => OnOneLine(word)
  }

  lemma {:induction false} WrittenOnOneLine(item: Item)
    requires ItemOnOneLine(item)
    ensures OnOneLine(Written(item))
  {
    hide Doubled;
    if item.InSingle? { DoubledOnOneLine(item.text); }
  }

  lemma {:induction false} ItemsOnOneLine(items: seq<Item>)
    requires items != [] && forall i :: 0 <= i < |items| ==> ItemOnOneLine(items[i])
    ensures OnOneLine(ItemsText(items))
    decreases |items|
  {
    hide Written, ItemOnOneLine;
    WrittenOnOneLine(items[0]);
    if |items| == 1 {
    } else {
      ItemsOnOneLine(items[1..]);
    }
  }

  lemma {:induction false} KeyRunOf(key: string, rest: string)
    requires IsKey(key) && rest != [] && !KeyChar(rest[0])
    ensures KeyRun(key + rest) == |key|
    decreases |key|
  {
    assert (key + rest)[1..] == key[1..] + rest;
    if |key| == 1 {
      assert key[1..] + rest == rest;
    } else {
      KeyRunOf(key[1..], rest);
    }
  }

  predicate IsName(key: string) {
    IsKey(key) && !('0' <= key[0] <= '9') && key[0] != '-'
  }

  lemma {:induction false} LineIsRead(key: string, f: string)
    requires IsName(key) && f != [] && f[0] != ' ' && OnOneLine(f)
    ensures KeyAndValue(key + ": " + f) == Some((key, f))
  {
    var line, n := key + ": " + f, |key|;
    assert line == key + (": " + f);
    KeyRunOf(key, ": " + f);
    assert line[0] == key[0] && line[n] == ':' && line[n + 1] == ' ' && line[..n] == key;
    assert line[n + 1..] == " " + f && (" " + f)[1..] == f;
    assert SkipOnlySpaces(" " + f) == SkipOnlySpaces(f) == f;
    hide KeyRun;
    forall i | 0 <= i < |line| ensures line[i] != '\t' {
      if i < n { assert KeyChar(key[i]); } else if i >= n + 2 { assert line[i] == f[i - n - 2]; }
    }
    assert !(exists c <- f :: EndsLine(c));
  }

  lemma {:induction false} FlowOnOneLine(items: seq<Item>)
    requires forall i :: 0 <= i < |items| ==> ItemOnOneLine(items[i])
    ensures OnOneLine(FlowText(items)) && FlowText(items) != [] && FlowText(items)[0] == '['
  {
    hide ItemsText, ItemOnOneLine;
    if items != [] { ItemsOnOneLine(items); }
  }

  /**
   Through comment stripping, the line pattern and list parsing, any flow list of fitting items comes
   back as what its items say, behind any key and with any trailing comment.
   */
  lemma {:induction false} LineRoundTrip(key: string, items: seq<Item>, comment: string, parse: DoubleQuoted)
    requires IsName(key) && IsComment(comment) && AllFit(items) && forall i :: 0 <= i < |items| ==> ItemOnOneLine(items[i])
    ensures KeyAndValue(Stripped(key + ": " + FlowText(items) + comment)) == Some((key, FlowText(items)))
    ensures ParsedList(FlowText(items), parse) == SayAll(items, parse)
  {
    hide FlowText, ParsedList, Stripped, IsComment, OnOneLine, KeyAndValue, ItemOnOneLine, Fits, SayAll;
    FlowOnOneLine(items);
    StrippingKeepsTheValue(Key(key), Many(items), comment);
    LineIsRead(key, FlowText(items));
    ListIsRead(items, parse);
  }
}
