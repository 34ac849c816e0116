/**
 The comment carrier of src/comment.ts: where the managed block goes, how it is written, and how
 it is found again on the text that now holds it.
 */
module Carrier {
  import opened Text

  const START := ">>> l9:meta >>>"
  const END := "<<< l9:meta <<<"
  const BLOCK_START := "l9:meta:start"
  const BLOCK_END := "l9:meta:end"
  const BOM := "\U{FEFF}"

  datatype Delimiters = Line(prefix: string) | Block(open: string, close: string)

  datatype Prologue = NoPrologue | EncodingCookie | PhpOpenTag | XmlDeclaration | CssCharset | DockerDirectives

  datatype Spec = Spec(delimiters: Delimiters, prologue: Prologue, legacy: Option<Delimiters>)

  /** The delimiters the extension tables name. */
  predicate Known(d: Delimiters) {
    || d == Line("//") || d == Line("#") || d == Line("--") || d == Line(";") || d == Line("%")
    || d == Block("<!--", "-->") || d == Block("/*", "*/")
  }

  /** Only formats without a mandatory prologue have an older carrier form. */
  predicate FromTables(spec: Spec) {
    && Known(spec.delimiters)
    && (spec.legacy.Some? ==> Known(spec.legacy.value) && spec.prologue.NoPrologue?)
  }

  // ---------- lines ----------

  datatype TextLine = TextLine(content: string, next: nat, terminated: bool)

  function LineAt(text: string, pos: nat): (line: TextLine)
    requires pos <= |text|
    ensures pos <= line.next <= |text|
    ensures pos < |text| ==> pos < line.next
    ensures pos + |line.content| <= line.next
    ensures line.terminated ==> pos + |line.content| < line.next
    ensures !line.terminated ==> line.next == |text| && line.content == text[pos..]
  {
    var nl := Find(text, '\n', pos);
    if nl == |text| then TextLine(text[pos..], |text|, false)
    else TextLine(DropCR(text[pos..nl]), nl + 1, true)
  }

  // ---------- the line patterns ----------

  function SkipBlanks(s: string): (r: string)
    ensures |r| <= |s|
  {
    if s != [] && IsBlank(s[0]) then SkipBlanks(s[1..]) else s
  }

  function SkipIndent(s: string): (r: string)
    ensures |r| <= |s|
  {
    if s != [] && (IsBlank(s[0]) || s[0] == '\U{0C}') then SkipIndent(s[1..]) else s
  }

  predicate NameChar(c: char) {
    'a' <= c <= 'z' || 'A' <= c <= 'Z' || '0' <= c <= '9' || c == '_' || c == '-' || c == '.'
  }

  /** `coding[:=][ \t]*[-\w.]` at the start of `s`. */
  predicate CodingHere(s: string) {
    && StartsWith(s, "coding") && |s| > 6 && (s[6] == ':' || s[6] == '=')
    && var rest := SkipBlanks(s[7..]); rest != [] && NameChar(rest[0])
  }

  /** `.*?coding...` : the words, after any characters that do not end a line. */
  predicate CodingLater(s: string) {
    CodingHere(s) || (s != [] && !EndsLine(s[0]) && CodingLater(s[1..]))
  }

  predicate IsCookie(line: string) {
    var s := SkipIndent(line);
    s != [] && s[0] == '#' && CodingLater(s[1..])
  }

  predicate IsCommentOrBlank(line: string) {
    var s := SkipIndent(line);
    s == [] || (s[0] == '#' && forall i :: 1 <= i < |s| ==> !EndsLine(s[i]))
  }

  predicate StartsWithWord(s: string, word: string) {
    |word| <= |s| && forall i :: 0 <= i < |word| ==> Lower(s[i]) == word[i]
  }

  predicate IsDirective(line: string) {
    && line != [] && line[0] == '#'
    && var s := SkipBlanks(line[1..]);
       (StartsWithWord(s, "syntax") && AssignsAt(s, 6)) || (StartsWithWord(s, "escape") && AssignsAt(s, 6))
       || (StartsWithWord(s, "check") && AssignsAt(s, 5))
  }

  predicate AssignsAt(s: string, i: nat) {
    i <= |s| && var rest := SkipBlanks(s[i..]); rest != [] && rest[0] == '='
  }

  predicate AllBlank(s: string) {
    forall i :: 0 <= i < |s| ==> IsBlank(s[i])
  }

  predicate IsBarePhp(line: string) {
    StartsWithWord(line, "<?php") && AllBlank(line[5..])
  }

  predicate IsCharset(line: string) {
    && StartsWith(line, "@charset \"")
    && var quote := Find(line, '\"', 10);
       quote + 1 < |line| && line[quote + 1] == ';' && AllBlank(line[quote + 2..])
  }

  predicate XmlStarts(s: string) {
    StartsWith(s, "<?xml") && |s| > 5 && (IsBlank(s[5]) || s[5] == '\r' || s[5] == '\n')
  }

  /** The least position of `?>` at or after `from`, or the length of the text. */
  function FindDeclarationEnd(text: string, from: nat): (r: nat)
    requires from <= |text|
    ensures from <= r <= |text|
    decreases |text| - from
  {
    if from == |text| then from
    else if text[from] == '?' && from + 1 < |text| && text[from + 1] == '>' then from
    else FindDeclarationEnd(text, from + 1)
  }

  // ---------- the carrier position ----------

  /** How far the prologue has been read, whether anything was, and whether its last line ends. */
  datatype Scan = Scan(pos: nat, consumed: bool, terminated: bool)

  datatype Position = Position(offset: nat, unterminated: bool)

  function BomLength(text: string): (n: nat)
    ensures n <= |text|
  {
    if StartsWith(text, BOM) then 1 else 0
  }

  function Taken(line: TextLine): Scan {
    Scan(line.next, true, line.terminated)
  }

  function AfterShebang(text: string): (s: Scan)
    ensures BomLength(text) <= s.pos <= |text|
  {
    var start := BomLength(text);
    if StartsWith(text[start..], "#!") then Taken(LineAt(text, start)) else Scan(start, false, true)
  }

  function AfterDirectives(text: string, s: Scan): (r: Scan)
    requires s.pos <= |text|
    ensures s.pos <= r.pos <= |text|
    decreases |text| - s.pos
  {
    if s.pos < |text| && IsDirective(LineAt(text, s.pos).content)
    then AfterDirectives(text, Taken(LineAt(text, s.pos)))
    else s
  }

  function AfterCookie(text: string, s: Scan): (r: Scan)
    requires s.pos <= |text|
    ensures s.pos <= r.pos <= |text|
  {
    var line := LineAt(text, s.pos);
    if s.pos < |text| && IsCookie(line.content) then Taken(line)
    else if !s.consumed && line.terminated && IsCommentOrBlank(line.content)
            && IsCookie(LineAt(text, line.next).content) then Taken(LineAt(text, line.next))
    else s
  }

  function AfterDeclaration(text: string, s: Scan): (r: Option<Scan>)
    requires s.pos <= |text|
    ensures r.Some? ==> s.pos <= r.value.pos <= |text|
  {
    if s.consumed || !XmlStarts(text[s.pos..]) then Some(s)
    else
      var close := FindDeclarationEnd(text, s.pos);
      if close + 2 > |text| then None
      else
        var rest := LineAt(text, close + 2);
        if AllBlank(rest.content) then Some(Taken(rest)) else None
  }

  function AfterPrologue(text: string, prologue: Prologue, s: Scan): (r: Option<Scan>)
    requires s.pos <= |text|
    ensures r.Some? ==> s.pos <= r.value.pos <= |text|
  {
    match prologue
    case NoPrologue => Some(s)
    case EncodingCookie => Some(AfterCookie(text, s))
    case PhpOpenTag =>
      var line := LineAt(text, s.pos);
      if IsBarePhp(line.content) then Some(Taken(line)) else None
    case XmlDeclaration => AfterDeclaration(text, s)
    case CssCharset =>
      if s.consumed || !StartsWith(text[s.pos..], "@charset \"") then Some(s)
      else
        var line := LineAt(text, s.pos);
        if IsCharset(line.content) then Some(Taken(line)) else None
    case DockerDirectives => Some(AfterDirectives(text, s))
  }

  /** Where the managed block starts; `None` when there is no safe place for it. */
  function CarrierPosition(text: string, prologue: Prologue): (position: Option<Position>)
    ensures position.Some? ==> position.value.offset <= |text|
  {
    match AfterPrologue(text, prologue, AfterShebang(text))
    case None => None
    case Some(s) =>
      if s.consumed && !s.terminated then Some(Position(|text|, true)) else Some(Position(s.pos, false))
  }

  /** The routine itself: a cursor, a count of consumed lines, and the last line's terminator. */
  method ScanCarrierPosition(text: string, prologue: Prologue) returns (position: Option<Position>)
    ensures position == CarrierPosition(text, prologue)
  {
    var pos, lastTerminated, consumed := BomLength(text), true, 0;
    if StartsWith(text[pos..], "#!") {
      var line := LineAt(text, pos);
      pos, lastTerminated, consumed := line.next, line.terminated, consumed + 1;
    }
    ghost var s := AfterShebang(text);
    assert s == Scan(pos, consumed > 0, lastTerminated);
    match prologue {
      case NoPrologue =>
      case EncodingCookie =>
        var line := LineAt(text, pos);
        if pos < |text| && IsCookie(line.content) {
          pos, lastTerminated, consumed := line.next, line.terminated, consumed + 1;
        } else if consumed == 0 && line.terminated && IsCommentOrBlank(line.content) {
          var second := LineAt(text, line.next);
          if IsCookie(second.content) {
            pos, lastTerminated, consumed := second.next, second.terminated, consumed + 2;
          }
        }
      case PhpOpenTag =>
        var line := LineAt(text, pos);
        if !IsBarePhp(line.content) { return None; }
        pos, lastTerminated, consumed := line.next, line.terminated, consumed + 1;
      case XmlDeclaration =>
        if consumed == 0 && XmlStarts(text[pos..]) {
          var close := FindDeclarationEnd(text, pos);
          if close + 2 > |text| { return None; }
          var rest := LineAt(text, close + 2);
          if !AllBlank(rest.content) { return None; }
          pos, lastTerminated, consumed := rest.next, rest.terminated, consumed + 1;
        }
      case CssCharset =>
        if consumed == 0 && StartsWith(text[pos..], "@charset \"") {
          var line := LineAt(text, pos);
          if !IsCharset(line.content) { return None; }
          pos, lastTerminated, consumed := line.next, line.terminated, consumed + 1;
        }
      case DockerDirectives =>
        while pos < |text| && IsDirective(LineAt(text, pos).content)
          invariant pos <= |text| && consumed >= 0
          invariant AfterDirectives(text, Scan(pos, consumed > 0, lastTerminated)) == AfterDirectives(text, s)
          decreases |text| - pos
        {
          var line := LineAt(text, pos);
          pos, lastTerminated, consumed := line.next, line.terminated, consumed + 1;
        }
    }
    if consumed > 0 && !lastTerminated { return Some(Position(|text|, true)); }
    return Some(Position(pos, false));
  }

  // ---------- writing ----------

  function OpenLine(d: Delimiters): string {
    match d
    case Line(p) => p + " " + START
    case Block(open, _) => open + " " + BLOCK_START
  }

  function CloseLine(d: Delimiters): string {
    match d
    case Line(p) => p + " " + END
    case Block(_, close) => BLOCK_END + " " + close
  }

  function InnerLine(d: Delimiters, line: string): string {
    match d
    case Line(p) => if line == [] then p else p + " " + line
    case Block(_, _) => line
  }

  function InnerLines(d: Delimiters, lines: seq<string>): seq<string> {
    seq(|lines|, i requires 0 <= i < |lines| => InnerLine(d, lines[i]))
  }

  /** The sequences a carrier cannot hold. */
  function Forbidden(d: Delimiters): seq<string> {
    match d
    case Line(_) => [END, "\r", "\U{85}", "\U{2028}", "\U{2029}"]
    case Block(open, close) =>
      if open == "<!--" then [BLOCK_END, "--"]
      else if open == "/*" then [BLOCK_END, "*/", "#{"]
      else if close == [] then [BLOCK_END] else [BLOCK_END, close]
  }

  /** No line holds a sequence the carrier forbids. */
  predicate Representable(lines: seq<string>, d: Delimiters) {
    forall i, f :: 0 <= i < |lines| && 0 <= f < |Forbidden(d)| ==> !Contains(lines[i], Forbidden(d)[f])
  }

  function BlockLines(d: Delimiters, lines: seq<string>): seq<string> {
    [OpenLine(d)] + InnerLines(d, lines) + [CloseLine(d)]
  }

  /** `yamlToBlock`: `None` is the CARRIER_UNREPRESENTABLE refusal. */
  function YamlToBlock(yaml: string, d: Delimiters, newline: string): Option<string> {
    var lines := SplitLines(yaml);
    if Representable(lines, d) then Some(Join(BlockLines(d, lines), newline)) else None
  }

  /** `applyCommentInjection`: `None` when there is no inert position. */
  function Inject(body: string, block: string, newline: string, prologue: Prologue): Option<string> {
    match CarrierPosition(body, prologue)
    case None => None
    case Some(position) =>
      if position.unterminated then Some(body + newline + block)
      else Some(body[..position.offset] + block + newline + body[position.offset..])
  }

  // ---------- finding ----------

  /** A block's first offset, the end of its last line before the terminator, and after it. */
  datatype Span = Span(start: nat, blockEnd: nat, end: nat)

  function SeekClose(text: string, start: nat, cursor: nat, d: Delimiters): (span: Option<Span>)
    requires cursor <= |text|
    ensures span.Some? ==> cursor <= span.value.blockEnd <= span.value.end <= |text| && span.value.start == start
    decreases |text| - cursor
  {
    if cursor == |text| then None
    else
      var line := LineAt(text, cursor);
      if TrimEnd(line.content) == CloseLine(d) then Some(Span(start, cursor + |line.content|, line.next))
      else if d.Line? && !StartsWith(TrimStart(line.content), d.prefix) then None
      else SeekClose(text, start, line.next, d)
  }

  function BlockAt(text: string, pos: nat, d: Delimiters): (span: Option<Span>)
    requires pos <= |text|
    ensures span.Some? ==> pos == span.value.start <= span.value.blockEnd <= span.value.end <= |text|
  {
    var first := LineAt(text, pos);
    if TrimEnd(first.content) != OpenLine(d) || !first.terminated then None
    else SeekClose(text, pos, first.next, d)
  }

  method ScanBlockAt(text: string, pos: nat, d: Delimiters) returns (span: Option<Span>)
    requires pos <= |text|
    ensures span == BlockAt(text, pos, d)
  {
    hide LineAt, TrimEnd, TrimStart, OpenLine, CloseLine, StartsWith;
    var first := LineAt(text, pos);
    if TrimEnd(first.content) != OpenLine(d) || !first.terminated { return None; }
    var cursor := first.next;
    while cursor < |text|
      invariant cursor <= |text|
      invariant SeekClose(text, pos, cursor, d) == BlockAt(text, pos, d)
      decreases |text| - cursor
    {
      var line := LineAt(text, cursor);
      if TrimEnd(line.content) == CloseLine(d) {
        return Some(Span(pos, cursor + |line.content|, line.next));
      }
      if d.Line? && !StartsWith(TrimStart(line.content), d.prefix) { return None; }
      cursor := line.next;
    }
    return None;
  }

  function DetectNewline(text: string): string {
    var lf := Find(text, '\n', 0);
    if 0 < lf < |text| && text[lf - 1] == '\r' then "\r\n" else "\n"
  }

  datatype Head = Head(span: Span, removeFrom: nat, delimiters: Delimiters)

  /** Insertion supplied a terminator when the block ends the file behind a prologue: take it back. */
  function RemoveFrom(text: string, span: Span, bom: nat): (r: nat)
    requires span.start <= |text|
    ensures r <= span.start
  {
    if span.end == |text| && span.end == span.blockEnd && span.start > bom then
      if span.start >= 2 && text[span.start - 2..span.start] == "\r\n" && DetectNewline(text[..span.start - 2]) == "\r\n"
      then span.start - 2 else span.start - 1
    else span.start
  }

  /** The current form, then the one an earlier version wrote. */
  function FormAt(text: string, pos: nat, spec: Spec): (head: Option<Head>)
    requires pos <= |text|
    ensures head.Some? ==> head.value.removeFrom <= head.value.span.start <= head.value.span.blockEnd
    ensures head.Some? ==> head.value.span.blockEnd <= head.value.span.end <= |text|
  {
    var bom := BomLength(text);
    match BlockAt(text, pos, spec.delimiters)
    case Some(span) => Some(Head(span, RemoveFrom(text, span, bom), spec.delimiters))
    case None =>
      if spec.legacy.None? then None
      else match BlockAt(text, pos, spec.legacy.value)
        case Some(span) => Some(Head(span, RemoveFrom(text, span, bom), spec.legacy.value))
        case None => None
  }

  /** The block at the computed position if there is one, else the block an old writer left right behind the BOM. */
  function FindHead(text: string, spec: Spec): (head: Option<Head>)
    ensures head.Some? ==> head.value.removeFrom <= head.value.span.start <= head.value.span.blockEnd
    ensures head.Some? ==> head.value.span.blockEnd <= head.value.span.end <= |text|
  {
    var bom := BomLength(text);
    match CarrierPosition(text, spec.prologue)
    case Some(position) =>
      if !position.unterminated && position.offset != bom && FormAt(text, position.offset, spec).Some?
      then FormAt(text, position.offset, spec) else FormAt(text, bom, spec)
    case None => FormAt(text, bom, spec)
  }

  function Strip(text: string, spec: Spec): string {
    match FindHead(text, spec)
    case None => text
    case Some(head) => text[..head.removeFrom] + text[head.span.end..]
  }
}
