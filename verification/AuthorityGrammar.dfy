/**
 The lines the authority grammar is written in, and what comment stripping leaves of them: a key or a
 dash, then a plain, single-quoted or double-quoted scalar or a flow list of such, then any comment.
 */
module AuthorityGrammar {
  import opened Text
  import opened AuthorityList

  // ---------- written forms ----------

  /** A scalar in one of its three styles; `body` stands between double quotes as it is. */
  datatype Item = InSingle(text: string) | InDouble(body: string) | Bare(word: string)

  datatype Lead = Key(key: string) | Dash(indent: nat)

  datatype Value = One(item: Item) | Many(items: seq<Item>)

  function Doubled(s: string): string {
    if s == [] then [] else (if s[0] == '\'' then "''" else [s[0]]) + Doubled(s[1..])
  }

  /** The single-quoted style: quotes doubled, everything else as it is. */
  function Quoted(s: string): string {
    "'" + Doubled(s) + "'"
  }

  function Written(item: Item): string {
    match item
    case InSingle(text) => Quoted(text)
    case InDouble(body) => "\"" + body + "\""
    case Bare(word) => word
  }

  function ItemsText(items: seq<Item>): string
    requires items != []
  {
    Written(items[0]) + if |items| == 1 then [] else ", " + ItemsText(items[1..])
  }

  function FlowText(items: seq<Item>): string {
    if items == [] then "[]" else "[" + ItemsText(items) + "]"
  }

  function ValueText(value: Value): string {
    match value
    case One(item) => Written(item)
    case Many(items) => FlowText(items)
  }

  function Spaces(n: nat): (s: string)
    ensures |s| == n && forall i :: 0 <= i < n ==> s[i] == ' '
  {
    seq(n, _ => ' ')
  }

  function LeadText(lead: Lead): string {
    match lead
    case Key(key) => key + ": "
    case Dash(indent) => Spaces(indent) + "- "
  }

  // ---------- what may stand where ----------

  /** Every quote and every backslash is behind a backslash of its own. */
  predicate Escaped(body: string) {
    if body == [] then true
    else if body[0] == '\\' then |body| >= 2 && Escaped(body[2..])
    else body[0] != '\"' && Escaped(body[1..])
  }

  predicate IsMark(c: char) {
    c == '\'' || c == '\"' || c == '['
  }

  /** What stands before `w[i]`, blanks aside, is a character of the word, and no colon with blanks behind it. */
  ghost predicate MidWord(w: string, i: nat) {
    i < |w| && exists j: nat :: Precedes(w, j, i) && (w[j] == ':' ==> j == i - 1)
  }

  ghost predicate Precedes(w: string, j: nat, i: nat) {
    j < i <= |w| && !IsBlank(w[j]) && forall k :: j < k < i ==> IsBlank(w[k])
  }

  /** Plain text: its quotes and brackets stand mid-word, and no blank stands before a `#`. */
  ghost predicate IsPlain(w: string) {
    && w != [] && !IsSpace(w[0]) && !IsSpace(w[|w| - 1]) && w[0] != '#' && !IsMark(w[0])
    && (forall i :: 0 < i < |w| && w[i] == '#' ==> !IsSpace(w[i - 1]))
    && forall i :: 0 < i < |w| && IsMark(w[i]) ==> MidWord(w, i)
  }

  ghost predicate Fits(item: Item, flow: bool) {
    match item
    case InSingle(_) => true
    case InDouble(body) => Escaped(body)
    case Bare(word) => IsPlain(word) && (flow ==> ',' !in word && '[' !in word && ']' !in word)
  }

  ghost predicate FitsValue(value: Value) {
    match value
    case One(item) => Fits(item, false)
    case Many(items) => forall i :: 0 <= i < |items| ==> Fits(items[i], true)
  }

  predicate IsLead(lead: Lead) {
    lead.Key? ==> IsKey(lead.key)
  }

  /** Nothing but blanks, or a blank, more blanks, a `#` and anything. */
  predicate IsComment(comment: string) {
    comment == [] || (IsSpace(comment[0]) && var rest := TrimStart(comment); rest == [] || rest[0] == '#')
  }

  // ---------- reading along a line ----------

  /** What stands in the line from a position on. */
  ghost predicate Reads(line: string, p: nat, text: string) {
    p <= |line| && line[p..] == text
  }

  lemma {:induction false} ReadsOn(line: string, p: nat, head: string, tail: string)
    requires Reads(line, p, head + tail)
    ensures Reads(line, p + |head|, tail)
    ensures forall k :: 0 <= k < |head| ==> line[p + k] == head[k]
  {
    assert line[p..][|head|..] == tail;
    forall k | 0 <= k < |head| ensures line[p + k] == head[k] { assert line[p..][k] == (head + tail)[k]; }
  }

  // ---------- inside single quotes ----------

  lemma {:induction false} QuoteStep(line: string, p: nat, depth: nat)
    requires p < |line|
    ensures line[p] != '\'' ==> CommentAt(line, p, Single, depth) == CommentAt(line, p + 1, Single, depth)
    ensures line[p] == '\'' && p + 1 < |line| && line[p + 1] == '\'' ==>
              CommentAt(line, p, Single, depth) == CommentAt(line, p + 2, Single, depth)
    ensures line[p] == '\'' && (p + 1 < |line| ==> line[p + 1] != '\'') ==>
              CommentAt(line, p, Single, depth) == CommentAt(line, p + 1, NoQuote, depth)
  {}

  /** Inside single quotes nothing counts until the closing one. */
  lemma {:induction false} ScanQuoted(line: string, p: nat, s: string, after: string, depth: nat)
    requires Reads(line, p, Doubled(s) + "'" + after) && (after == [] || after[0] != '\'')
    ensures p + |Doubled(s)| + 1 <= |line| && Reads(line, p + |Doubled(s)| + 1, after)
    ensures CommentAt(line, p, Single, depth) == CommentAt(line, p + |Doubled(s)| + 1, NoQuote, depth)
    decreases |s|
  {
    hide CommentAt;
    if s == [] {
      assert Doubled(s) + "'" + after == "'" + after;
      ReadsOn(line, p, "'", after);
      assert line[p + 0] == '\'';
      if after != [] { assert line[p + 1..][0] == after[0]; }
      QuoteStep(line, p, depth);
    } else {
      var head, rest := (if s[0] == '\'' then "''" else [s[0]]), Doubled(s[1..]) + "'" + after;
      assert Doubled(s) + "'" + after == head + rest;
      ReadsOn(line, p, head, rest);
      assert line[p + 0] == s[0];
      if s[0] == '\'' { assert line[p + 1] == head[1]; }
      QuoteStep(line, p, depth);
      hide Reads;
      ScanQuoted(line, p + |head|, s[1..], after, depth);
    }
  }

  // ---------- inside double quotes ----------

  lemma {:induction false} EscapeStep(line: string, p: nat, depth: nat)
    requires p < |line|
    ensures line[p] == '\\' ==> CommentAt(line, p, Double, depth) == CommentAt(line, p + 2, Double, depth)
    ensures line[p] == '\"' ==> CommentAt(line, p, Double, depth) == CommentAt(line, p + 1, NoQuote, depth)
    ensures line[p] != '\\' && line[p] != '\"' ==> CommentAt(line, p, Double, depth) == CommentAt(line, p + 1, Double, depth)
  {}

  /** Inside double quotes nothing counts until the closing one, and an escaped quote is none. */
  lemma {:induction false} ScanEscaped(line: string, p: nat, body: string, after: string, depth: nat)
    requires Reads(line, p, body + "\"" + after) && Escaped(body)
    ensures p + |body| + 1 <= |line| && Reads(line, p + |body| + 1, after)
    ensures CommentAt(line, p, Double, depth) == CommentAt(line, p + |body| + 1, NoQuote, depth)
    decreases |body|
  {
    hide CommentAt;
    if body == [] {
      assert body + "\"" + after == "\"" + after;
      ReadsOn(line, p, "\"", after);
      assert line[p + 0] == '\"';
      EscapeStep(line, p, depth);
    } else {
      var n := if body[0] == '\\' then 2 else 1;
      var head, rest := body[..n], body[n..];
      assert body + "\"" + after == head + (rest + "\"" + after);
      ReadsOn(line, p, head, rest + "\"" + after);
      assert line[p + 0] == body[0];
      EscapeStep(line, p, depth);
      hide Reads;
      ScanEscaped(line, p + n, rest, after, depth);
    }
  }

  // ---------- plain text ----------

  /** Some character before `p` is not blank. */
  ghost predicate HasText(line: string, p: nat) {
    exists k :: 0 <= k < p <= |line| && !IsBlank(line[k])
  }

  lemma {:induction false} SkipBackFinds(line: string, j: nat, p: nat)
    requires p <= |line| && Precedes(line, j, p)
    ensures SkipBack(line, p) == j
  {}

  lemma {:induction false} SkipBackMeets(line: string, p: nat)
    requires HasText(line, p)
    ensures SkipBack(line, p) >= 0
  {}

  lemma {:induction false} PrecedesInLine(line: string, p: nat, w: string, j: nat, i: nat)
    requires p + |w| <= |line| && line[p..p + |w|] == w && Precedes(w, j, i)
    ensures Precedes(line, p + j, p + i) && line[p + j] == w[j]
  {
    forall k | 0 <= k < |w| ensures line[p + k] == w[k] { assert line[p..p + |w|][k] == w[k]; }
    forall k | p + j < k < p + i ensures IsBlank(line[k]) { assert line[p + (k - p)] == w[k - p]; }
  }

  lemma {:induction false} MoreText(line: string, p: nat, q: nat)
    requires HasText(line, p) && p <= q <= |line|
    ensures HasText(line, q)
  {}

  /** A mark mid-word opens nothing. */
  lemma {:induction false} NothingStarts(line: string, p: nat, w: string, i: nat, inFlow: bool)
    requires p + |w| <= |line| && line[p..p + |w|] == w && MidWord(w, i) && HasText(line, p)
    requires inFlow ==> ',' !in w && '[' !in w
    ensures !ScalarStartsAt(line, p + i, inFlow)
  {
    hide HasText, SkipBack;
    var j: nat :| Precedes(w, j, i) && (w[j] == ':' ==> j == i - 1);
    PrecedesInLine(line, p, w, j, i);
    SkipBackFinds(line, p + j, p + i);
    MoreText(line, p, p + j);
    SkipBackMeets(line, p + j);
    assert w[j] in w;
  }

  lemma {:induction false} PlainStep(line: string, q: nat, depth: nat)
    requires q < |line| && (IsMark(line[q]) ==> !ScalarStartsAt(line, q, depth > 0))
    requires line[q] == ']' ==> depth == 0
    requires line[q] == '#' ==> q > 0 && !IsSpace(line[q - 1])
    ensures CommentAt(line, q, NoQuote, depth) == CommentAt(line, q + 1, NoQuote, depth)
  {
    hide ScalarStartsAt, IsSpace;
  }

  lemma {:induction false} ScanPlain(line: string, p: nat, w: string, i: nat, depth: nat)
    requires p + |w| <= |line| && line[p..p + |w|] == w && Fits(Bare(w), depth > 0) && HasText(line, p) && i <= |w|
    ensures CommentAt(line, p + i, NoQuote, depth) == CommentAt(line, p + |w|, NoQuote, depth)
    decreases |w| - i
  {
    hide CommentAt, ScalarStartsAt, IsSpace, MidWord;
    if i == |w| {
    } else {
      assert line[p + i] == line[p..p + |w|][i] == w[i] && w[i] in w;
      if i > 0 { assert line[p + i - 1] == line[p..p + |w|][i - 1] == w[i - 1]; }
      if IsMark(w[i]) { NothingStarts(line, p, w, i, depth > 0); }
      PlainStep(line, p + i, depth);
      ScanPlain(line, p, w, i + 1, depth);
    }
  }

  // ---------- one scalar ----------

  lemma {:induction false} StepOpen(line: string, p: nat, depth: nat)
    requires p < |line| && IsMark(line[p]) && ScalarStartsAt(line, p, depth > 0)
    ensures line[p] == '\'' ==> CommentAt(line, p, NoQuote, depth) == CommentAt(line, p + 1, Single, depth)
    ensures line[p] == '\"' ==> CommentAt(line, p, NoQuote, depth) == CommentAt(line, p + 1, Double, depth)
    ensures line[p] == '[' ==> CommentAt(line, p, NoQuote, depth) == CommentAt(line, p + 1, NoQuote, depth + 1)
  {
    hide ScalarStartsAt;
  }

  lemma {:induction false} WrittenOpens(item: Item, after: string)
    ensures item.InSingle? ==> Written(item) + after == "'" + (Doubled(item.text) + "'" + after) && |Written(item)| == |Doubled(item.text)| + 2
    ensures item.InDouble? ==> Written(item) + after == "\"" + (item.body + "\"" + after) && |Written(item)| == |item.body| + 2
  {
    hide Doubled;
  }

  /** The scan over one scalar where a scalar may start. */
  lemma {:induction false} ScanItem(line: string, p: nat, item: Item, after: string, depth: nat)
    requires Reads(line, p, Written(item) + after) && (after == [] || after[0] != '\'')
    requires Fits(item, depth > 0) && HasText(line, p) && ScalarStartsAt(line, p, depth > 0)
    ensures Reads(line, p + |Written(item)|, after)
    ensures CommentAt(line, p, NoQuote, depth) == CommentAt(line, p + |Written(item)|, NoQuote, depth)
  {
    hide CommentAt, Doubled, ScalarStartsAt, IsPlain, HasText;
    match item
    case InSingle(text) =>
      WrittenOpens(item, after);
      ReadsOn(line, p, "'", Doubled(text) + "'" + after);
      assert line[p + 0] == '\'';
      StepOpen(line, p, depth);
      ScanQuoted(line, p + 1, text, after, depth);
    case InDouble(body) =>
      WrittenOpens(item, after);
      ReadsOn(line, p, "\"", body + "\"" + after);
      assert line[p + 0] == '\"';
      StepOpen(line, p, depth);
      ScanEscaped(line, p + 1, body, after, depth);
    case Bare(word) =>
      ReadsOn(line, p, word, after);
      assert line[p..p + |word|] == word;
      assert Fits(Bare(word), depth > 0);
      ScanPlain(line, p, word, 0, depth);
  }

  // ---------- a flow list ----------

  /** Behind an opening bracket, or a comma and a blank, an item begins. */
  ghost predicate ItemBegins(line: string, p: nat) {
    1 <= p <= |line| && (line[p - 1] == '[' || (p >= 2 && line[p - 1] == ' ' && line[p - 2] == ','))
  }

  lemma {:induction false} StartsInFlow(line: string, p: nat)
    requires ItemBegins(line, p)
    ensures ScalarStartsAt(line, p, true) && HasText(line, p)
  {
    if line[p - 1] == '[' {
      assert Precedes(line, p - 1, p) && !IsBlank(line[p - 1]);
      SkipBackFinds(line, p - 1, p);
    } else {
      assert Precedes(line, p - 2, p) && !IsBlank(line[p - 2]);
      SkipBackFinds(line, p - 2, p);
    }
  }

  lemma {:induction false} ScanSeparator(line: string, q: nat, more: string)
    requires Reads(line, q, ", " + more)
    ensures Reads(line, q + 2, more) && ItemBegins(line, q + 2)
    ensures CommentAt(line, q, NoQuote, 1) == CommentAt(line, q + 2, NoQuote, 1)
  {
    ReadsOn(line, q, ", ", more);
    assert line[q + 0] == ',' && line[q + 1] == ' ';
    hide CommentAt, ScalarStartsAt;
    PlainStep(line, q, 1);
    PlainStep(line, q + 1, 1);
  }

  lemma {:induction false} ScanItems(line: string, p: nat, items: seq<Item>, tail: string)
    requires items != [] && tail != [] && tail[0] == ']' && Reads(line, p, ItemsText(items) + tail) && ItemBegins(line, p)
    requires forall i :: 0 <= i < |items| ==> Fits(items[i], true)
    ensures Reads(line, p + |ItemsText(items)|, tail)
    ensures CommentAt(line, p, NoQuote, 1) == CommentAt(line, p + |ItemsText(items)|, NoQuote, 1)
    decreases |items|
  {
    hide CommentAt, Reads, ItemBegins, Written, Fits, ScalarStartsAt, HasText;
    StartsInFlow(line, p);
    if |items| == 1 {
      assert ItemsText(items) + tail == Written(items[0]) + tail;
      ScanItem(line, p, items[0], tail, 1);
      assert ItemsText(items) == Written(items[0]);
    } else {
      var more := ItemsText(items[1..]) + tail;
      assert ItemsText(items) + tail == Written(items[0]) + (", " + more);
      ScanItem(line, p, items[0], ", " + more, 1);
      ScanSeparator(line, p + |Written(items[0])|, more);
      ScanItems(line, p + |Written(items[0])| + 2, items[1..], tail);
      assert |ItemsText(items)| == |Written(items[0])| + 2 + |ItemsText(items[1..])|;
    }
  }

  lemma {:induction false} FlowOpens(items: seq<Item>, comment: string)
    ensures items == [] ==> FlowText(items) + comment == "[" + ("]" + comment)
    ensures items != [] ==> FlowText(items) + comment == "[" + (ItemsText(items) + ("]" + comment))
    ensures |FlowText(items)| == if items == [] then 2 else |ItemsText(items)| + 2
  {
    hide ItemsText;
  }

  lemma {:induction false} ScanListEnd(line: string, q: nat, comment: string)
    requires Reads(line, q, "]" + comment)
    ensures Reads(line, q + 1, comment) && CommentAt(line, q, NoQuote, 1) == CommentAt(line, q + 1, NoQuote, 0)
  {
    ReadsOn(line, q, "]", comment);
    assert line[q + 0] == ']';
    hide ScalarStartsAt;
  }

  lemma {:induction false} ScanListStart(line: string, p: nat, behind: string)
    requires Reads(line, p, "[" + behind) && ScalarStartsAt(line, p, false)
    ensures Reads(line, p + 1, behind) && ItemBegins(line, p + 1)
    ensures CommentAt(line, p, NoQuote, 0) == CommentAt(line, p + 1, NoQuote, 1)
  {
    hide CommentAt, ScalarStartsAt;
    ReadsOn(line, p, "[", behind);
    assert line[p + 0] == '[';
    StepOpen(line, p, 0);
  }

  lemma {:induction false} ScanFlow(line: string, p: nat, items: seq<Item>, after: string)
    requires Reads(line, p, FlowText(items) + after) && ScalarStartsAt(line, p, false)
    requires forall i :: 0 <= i < |items| ==> Fits(items[i], true)
    ensures Reads(line, p + |FlowText(items)|, after)
    ensures CommentAt(line, p, NoQuote, 0) == CommentAt(line, p + |FlowText(items)|, NoQuote, 0)
  {
    FlowOpens(items, after);
    hide CommentAt, FlowText, ItemsText, Reads, ItemBegins, ScalarStartsAt, Fits;
    if items == [] {
      ScanListStart(line, p, "]" + after);
      ScanListEnd(line, p + 1, after);
    } else {
      ScanListStart(line, p, ItemsText(items) + ("]" + after));
      ScanItems(line, p + 1, items, "]" + after);
      ScanListEnd(line, p + 1 + |ItemsText(items)|, after);
    }
  }

  /** The scan over a value, up to what follows it. */
  lemma {:induction false} ScanValue(line: string, p: nat, value: Value, after: string)
    requires Reads(line, p, ValueText(value) + after) && (after == [] || after[0] != '\'')
    requires FitsValue(value) && HasText(line, p) && ScalarStartsAt(line, p, false)
    ensures Reads(line, p + |ValueText(value)|, after)
    ensures CommentAt(line, p, NoQuote, 0) == CommentAt(line, p + |ValueText(value)|, NoQuote, 0)
  {
    hide CommentAt, FlowText, Reads, ScalarStartsAt, HasText, Fits, Written;
    match value
    case One(item) => ScanItem(line, p, item, after, 0);
    case Many(items) => ScanFlow(line, p, items, after);
  }

  // ---------- in front of the value ----------

  /** A key or a dash opens nothing and leaves a scalar to start. */
  lemma {:induction false} LeadIsQuiet(line: string, lead: Lead, i: nat)
    requires IsLead(lead) && |LeadText(lead)| <= |line| && line[..|LeadText(lead)|] == LeadText(lead) && i <= |LeadText(lead)|
    ensures CommentAt(line, i, NoQuote, 0) == CommentAt(line, |LeadText(lead)|, NoQuote, 0)
    decreases |LeadText(lead)| - i
  {
    hide CommentAt, ScalarStartsAt;
    var text := LeadText(lead);
    if i == |text| {
    } else {
      assert line[i] == line[..|text|][i] == text[i];
      assert lead.Key? && i < |lead.key| ==> KeyChar(lead.key[i]);
      PlainStep(line, i, 0);
      LeadIsQuiet(line, lead, i + 1);
    }
  }

  lemma {:induction false} StartsBehindLead(line: string, lead: Lead)
    requires IsLead(lead) && |LeadText(lead)| <= |line| && line[..|LeadText(lead)|] == LeadText(lead)
    ensures ScalarStartsAt(line, |LeadText(lead)|, false) && HasText(line, |LeadText(lead)|)
  {
    var text := LeadText(lead);
    var p := |text|;
    forall k | 0 <= k < p ensures line[k] == text[k] { assert line[..p][k] == text[k]; }
    assert line[p - 1] == ' ' && line[p - 2] == (if lead.Key? then ':' else '-');
    assert Precedes(line, p - 2, p) && !IsBlank(line[p - 2]);
    SkipBackFinds(line, p - 2, p);
    if lead.Dash? {
      forall k | 0 <= k < p - 2 ensures IsBlank(line[k]) { assert text[k] == ' '; }
      assert SkipBack(line, p - 2) < 0;
    }
  }

  // ---------- behind the value ----------

  lemma {:induction false} BlankStep(line: string, p: nat)
    requires p < |line| && IsSpace(line[p])
    ensures CommentAt(line, p, NoQuote, 0) == CommentAt(line, p + 1, NoQuote, 0)
  {
    hide ScalarStartsAt;
  }

  lemma {:induction false} HashStops(line: string, p: nat)
    requires 1 <= p < |line| && line[p] == '#' && IsSpace(line[p - 1])
    ensures CommentAt(line, p, NoQuote, 0) == p
  {
    hide IsSpace;
  }

  /** Blanks, and a comment behind them if there is one: the cut is at its `#`. */
  lemma {:induction false} ScanComment(line: string, p: nat, comment: string)
    requires Reads(line, p, comment) && p >= 1
    requires IsComment(comment) || (IsSpace(line[p - 1]) && TrimStart(comment) != [] && TrimStart(comment)[0] == '#')
    ensures var cut := CommentAt(line, p, NoQuote, 0); p <= cut <= |line| && forall k :: p <= k < cut ==> IsSpace(line[k])
    decreases |comment|
  {
    hide CommentAt, IsSpace;
    if comment == [] {
      NothingToScan(line, p);
    } else {
      assert line[p] == line[p..][0] == comment[0];
      if IsSpace(comment[0]) {
        ReadsOn(line, p, [comment[0]], comment[1..]);
        assert comment == [comment[0]] + comment[1..];
        BlankStep(line, p);
        if comment[1..] != [] && TrimStart(comment) == [] { AllSpace(comment); }
        ScanComment(line, p + 1, comment[1..]);
      } else {
        HashStops(line, p);
      }
    }
  }

  lemma {:induction false} AllSpace(s: string)
    requires TrimStart(s) == []
    ensures forall i :: 0 <= i < |s| ==> IsSpace(s[i])
  {
    hide IsSpace;
    if s == [] {
    } else {
      AllSpace(s[1..]);
    }
  }

  lemma {:induction false} NothingToScan(line: string, p: nat)
    requires p == |line|
    ensures CommentAt(line, p, NoQuote, 0) == |line|
  {}

  lemma {:induction false} TrimEndSpaces(s: string, spaces: string)
    requires s != [] && !IsSpace(s[|s| - 1]) && forall k :: 0 <= k < |spaces| ==> IsSpace(spaces[k])
    ensures TrimEnd(s + spaces) == s
  {
    if spaces == [] {
      assert s + spaces == s;
    } else {
      assert (s + spaces)[..|s + spaces| - 1] == s + spaces[..|spaces| - 1];
      TrimEndSpaces(s, spaces[..|spaces| - 1]);
    }
  }

  lemma {:induction false} CutBehind(line: string, kept: string, comment: string, cut: nat)
    requires line == kept + comment && |kept| <= cut <= |line| && kept != [] && !IsSpace(kept[|kept| - 1])
    requires forall k :: |kept| <= k < cut ==> IsSpace(line[k])
    ensures TrimEnd(line[..cut]) == kept
  {
    hide IsSpace, TrimEnd;
    var spaces := comment[..cut - |kept|];
    assert line[..cut] == kept + spaces;
    forall k | 0 <= k < |spaces| ensures IsSpace(spaces[k]) {
      assert line[|kept| + k] == spaces[k];
    }
    TrimEndSpaces(kept, spaces);
  }

  // ---------- the law ----------

  lemma {:induction false} WrittenEnds(item: Item, flow: bool)
    requires Fits(item, flow)
    ensures Written(item) != [] && !IsSpace(Written(item)[|Written(item)| - 1])
  {
    hide Doubled;
  }

  lemma {:induction false} ValueEnds(value: Value)
    requires FitsValue(value)
    ensures ValueText(value) != [] && !IsSpace(ValueText(value)[|ValueText(value)| - 1])
  {
    hide ItemsText, Written, Fits, IsSpace;
    assert !IsSpace(']') by { SpaceIsNot(); }
    match value
    case One(item) => WrittenEnds(item, false);
    case Many(items) =>
  }

  lemma {:induction false} SpaceIsNot()
    ensures !IsSpace(']') && !IsSpace('[') && !IsSpace('\'') && !IsSpace('\"') && !IsSpace('#') && !IsSpace(',')
  {}

  lemma {:induction false} LineParts(lead: Lead, value: Value, comment: string)
    ensures var line, p := LeadText(lead) + ValueText(value) + comment, |LeadText(lead)|;
            && p <= |line| && line[..p] == LeadText(lead) && Reads(line, p, ValueText(value) + comment)
            && line == (LeadText(lead) + ValueText(value)) + comment
  {
    hide LeadText, ValueText;
  }

  /**
   Stripping removes exactly the comment. The value may be plain text with apostrophes and brackets in
   it, a scalar in either quoted style with `#` and escapes inside, or a flow list; it may stand behind
   a key or as an item of a sequence.
   */
  lemma {:induction false} StrippingKeepsTheValue(lead: Lead, value: Value, comment: string)
    requires IsLead(lead) && FitsValue(value) && IsComment(comment)
    ensures Stripped(LeadText(lead) + ValueText(value) + comment) == LeadText(lead) + ValueText(value)
  {
    hide LeadText, ValueText, CommentAt, TrimEnd, TrimStart, IsLead, IsSpace, Reads, FitsValue, ScalarStartsAt, HasText;
    var kept := LeadText(lead) + ValueText(value);
    var line, p := kept + comment, |LeadText(lead)|;
    ValueEnds(value);
    assert kept[|kept| - 1] == ValueText(value)[|ValueText(value)| - 1];
    LineParts(lead, value, comment);
    LeadIsQuiet(line, lead, 0);
    StartsBehindLead(line, lead);
    SpaceIsNot();
    ScanValue(line, p, value, comment);
    ScanComment(line, |kept|, comment);
    CutBehind(line, kept, comment, CommentAt(line, 0, NoQuote, 0));
  }

  /** The scan stops where it is, or goes on further right. */
  lemma {:induction false} ScanGoesOn(line: string, i: nat, quote: Quote, depth: nat)
      returns (next: nat, quote': Quote, depth': nat)
    requires i < |line|
    ensures next > i
    ensures CommentAt(line, i, quote, depth) == CommentAt(line, next, quote', depth')
            || (CommentAt(line, i, quote, depth) == i && line[i] == '#' && (i == 0 || IsSpace(line[i - 1])))
  {
    hide ScalarStartsAt, IsSpace;
    var c := line[i];
    var doubled := i + 1 < |line| && c == '\'' == line[i + 1];
    next := if (quote.Double? && c == '\\') || (quote.Single? && doubled) then i + 2 else i + 1;
    quote' := match quote
      case Double => if c == '\"' then NoQuote else Double
      case Single => if c == '\'' && !doubled then NoQuote else Single
      case NoQuote =>
        if (c == '\'' || c == '\"') && ScalarStartsAt(line, i, depth > 0) then (if c == '\'' then Single else Double) else NoQuote;
    depth' := if !quote.NoQuote? then depth
              else if c == '[' && ScalarStartsAt(line, i, depth > 0) then depth + 1
              else if c == ']' && depth > 0 then depth - 1 else depth;
  }

  /** Of any line whatever, nothing is cut but a `#` at the start or behind white space, with what follows it. */
  lemma {:induction false} OnlyCommentsAreCut(line: string, i: nat, quote: Quote, depth: nat)
    ensures var cut := CommentAt(line, i, quote, depth);
            cut < |line| ==> line[cut] == '#' && (cut == 0 || IsSpace(line[cut - 1]))
    decreases |line| - i
  {
    hide ScalarStartsAt, IsSpace;
    if i >= |line| {
    } else {
      hide CommentAt;
      var next, quote', depth' := ScanGoesOn(line, i, quote, depth);
      OnlyCommentsAreCut(line, next, quote', depth');
    }
  }

  lemma {:induction false} StrippedIsCut(line: string) returns (cut: nat)
    ensures cut <= |line| && Stripped(line) == TrimEnd(line[..cut])
    ensures cut < |line| ==> line[cut] == '#' && (cut == 0 || IsSpace(line[cut - 1]))
  {
    hide IsSpace, TrimEnd, CommentAt;
    cut := CommentAt(line, 0, NoQuote, 0);
    OnlyCommentsAreCut(line, 0, NoQuote, 0);
  }
}
