/** Comments, scalars, inline lists and lines of the authority grammar, src/authority.ts. */
module AuthorityList {
  import opened Text

  // ---------- comments ----------

  /** The greatest position below `index` that is not blank, or -1. */
  function SkipBack(line: string, index: int): (j: int)
    requires index <= |line|
    ensures -1 <= j < index || (j == -1 && index < 0)
    ensures j >= 0 ==> !IsBlank(line[j])
    ensures forall k :: j < k < index && 0 <= k ==> IsBlank(line[k])
    decreases if index < 0 then 0 else index
  {
    if index <= 0 then -1 else if IsBlank(line[index - 1]) then SkipBack(line, index - 1) else index - 1
  }

  /** Whether a scalar, or an item of a flow list, begins at `index`. */
  predicate ScalarStartsAt(line: string, index: nat, inFlow: bool)
    requires index <= |line|
  {
    var j := SkipBack(line, index);
    if j < 0 then true
    else if line[j] == ':' then j < index - 1
    else if line[j] == '[' || line[j] == ',' then inFlow
    else line[j] == '-' && j < index - 1 && SkipBack(line, j) < 0
  }

  datatype Quote = NoQuote | Single | Double

  /** Where the comment starts, or the end of the line. */
  function CommentAt(line: string, i: nat, quote: Quote, depth: nat): (r: nat)
    ensures r <= |line|
    decreases |line| - i
  {
    if i >= |line| then |line|
    else
      var c := line[i];
      match quote {
        case Double =>
          if c == '\\' then CommentAt(line, i + 2, quote, depth)
          else CommentAt(line, i + 1, if c == '\"' then NoQuote else Double, depth)
        case Single =>
          if c == '\'' && i + 1 < |line| && line[i + 1] == '\'' then CommentAt(line, i + 2, quote, depth)
          else CommentAt(line, i + 1, if c == '\'' then NoQuote else Single, depth)
        case NoQuote =>
          if (c == '\'' || c == '\"') && ScalarStartsAt(line, i, depth > 0)
          then CommentAt(line, i + 1, if c == '\'' then Single else Double, depth)
          else if c == '[' && ScalarStartsAt(line, i, depth > 0) then CommentAt(line, i + 1, quote, depth + 1)
          else if c == ']' && depth > 0 then CommentAt(line, i + 1, quote, depth - 1)
          else if c == '#' && (i == 0 || IsSpace(line[i - 1])) then i
          else CommentAt(line, i + 1, quote, depth)
      }
  }

  function Stripped(line: string): string {
    TrimEnd(line[..CommentAt(line, 0, NoQuote, 0)])
  }

  /** The routine itself: one pass with the open quote and the flow depth. */
  method StripInlineComment(line: string) returns (r: string)
    ensures r == Stripped(line)
  {
    var quote, flowDepth: nat := NoQuote, 0;
    var i: nat := 0;
    while i < |line|
      invariant CommentAt(line, i, quote, flowDepth) == CommentAt(line, 0, NoQuote, 0)
    {
      var c := line[i];
      if quote.Double? {
        if c == '\\' { i := i + 1; }
        else if c == '\"' { quote := NoQuote; }
      } else if quote.Single? {
        if c == '\'' && i + 1 < |line| && line[i + 1] == '\'' { i := i + 1; }
        else if c == '\'' { quote := NoQuote; }
      } else if (c == '\'' || c == '\"') && ScalarStartsAt(line, i, flowDepth > 0) {
        quote := if c == '\'' then Single else Double;
      } else if c == '[' && ScalarStartsAt(line, i, flowDepth > 0) {
        flowDepth := flowDepth + 1;
      } else if c == ']' && flowDepth > 0 {
        flowDepth := flowDepth - 1;
      } else if c == '#' && (i == 0 || IsSpace(line[i - 1])) {
        return TrimEnd(line[..i]);
      }
      i := i + 1;
    }
    assert line[..|line|] == line;
    return TrimEnd(line);
  }

  // ---------- scalars ----------

  /** `replace(/''/g, "'")`. */
  function Undouble(s: string): string {
    if |s| >= 2 && s[0] == '\'' && s[1] == '\'' then "'" + Undouble(s[2..])
    else if s == [] then [] else [s[0]] + Undouble(s[1..])
  }

  predicate NonStringPlain(s: string) {
    s in {"null", "Null", "NULL", "~", "true", "True", "TRUE", "false", "False", "FALSE"}
  }

  /** What `JSON.parse` makes of a double-quoted scalar is given from outside. */
  type DoubleQuoted = string -> Option<string>

  /** `None` is the META_AUTHORITY_CONFIG_INVALID refusal. */
  function Scalar(raw: string, parse: DoubleQuoted): Option<string> {
    var value := Trim(raw);
    if value == [] then None
    else if value[0] == '\"' || value[|value| - 1] == '\"' then
      if value[0] == '\"' && value[|value| - 1] == '\"' && |value| >= 2 then parse(value) else None
    else if value[0] == '\'' || value[|value| - 1] == '\'' then
      if value[0] == '\'' && value[|value| - 1] == '\'' && |value| >= 2 then Some(Undouble(value[1..|value| - 1])) else None
    else if value[0] in {'[', ']', '{', '}', '&', '*', '!', '>', '|', '%', '@', '`'} then None
    else if NonStringPlain(value) then None
    else if Contains(value, ": ") || value[|value| - 1] == ':' then None
    else Some(value)
  }

  // ---------- inline lists ----------

  function Appended(items: seq<string>, item: Option<string>): Option<seq<string>> {
    if item.Some? then Some(items + [item.value]) else None
  }

  /** The rest of a list body, with the item read so far and the open quote. */
  function ParseItems(body: string, i: nat, current: string, quote: Quote, items: seq<string>, parse: DoubleQuoted): Option<seq<string>>
    decreases |body| - i
  {
    if i >= |body| then if quote.NoQuote? then Appended(items, Scalar(current, parse)) else None
    else
      var c := body[i];
      match quote {
        case Double =>
          if c == '\\' then ParseItems(body, i + 2, current + [c] + (if i + 1 < |body| then [body[i + 1]] else []), quote, items, parse)
          else ParseItems(body, i + 1, current + [c], if c == '\"' then NoQuote else Double, items, parse)
        case Single =>
          if c == '\'' && i + 1 < |body| && body[i + 1] == '\'' then ParseItems(body, i + 2, current + [c] + "'", quote, items, parse)
          else ParseItems(body, i + 1, current + [c], if c == '\'' then NoQuote else Single, items, parse)
        case NoQuote =>
          if (c == '\'' || c == '\"') && Trim(current) == []
          then ParseItems(body, i + 1, current + [c], if c == '\'' then Single else Double, items, parse)
          else if c == ',' then
            var item := Scalar(current, parse);
            if item.None? then None else ParseItems(body, i + 1, [], quote, items + [item.value], parse)
          else ParseItems(body, i + 1, current + [c], quote, items, parse)
      }
  }

  function ParsedList(raw: string, parse: DoubleQuoted): Option<seq<string>> {
    var value := Trim(raw);
    if value == "[]" then Some([])
    else if !StartsWith(value, "[") || value[|value| - 1] != ']' then None
    else
      var body := Trim(value[1..|value| - 1]);
      if body == [] then Some([]) else ParseItems(body, 0, [], NoQuote, [], parse)
  }

  /** The routine itself: a character loop over the body. */
  method ParseInlineList(raw: string, parse: DoubleQuoted) returns (r: Option<seq<string>>)
    ensures r == ParsedList(raw, parse)
  {
    hide Scalar, Trim;
    var value := Trim(raw);
    if value == "[]" { return Some([]); }
    if !StartsWith(value, "[") || value[|value| - 1] != ']' { return None; }
    var body := Trim(value[1..|value| - 1]);
    if body == [] { return Some([]); }
    var items: seq<string>, current, single, double := [], [], false, false;
    var i: nat := 0;
    while i < |body|
      invariant !(single && double)
      invariant ParseItems(body, i, current, if double then Double else if single then Single else NoQuote, items, parse)
                == ParseItems(body, 0, [], NoQuote, [], parse)
    {
      var c := body[i];
      if double {
        current := current + [c];
        if c == '\\' {
          current := current + (if i + 1 < |body| then [body[i + 1]] else []);
          i := i + 1;
        } else if c == '\"' {
          double := false;
        }
      } else if single {
        current := current + [c];
        if c == '\'' && i + 1 < |body| && body[i + 1] == '\'' {
          current := current + "'";
          i := i + 1;
        } else if c == '\'' {
          single := false;
        }
      } else if (c == '\'' || c == '\"') && Trim(current) == [] {
        if c == '\'' { single := true; } else { double := true; }
        current := current + [c];
      } else if c == ',' {
        var item := Scalar(current, parse);
        if item.None? { return None; }
        items, current := items + [item.value], [];
      } else {
        current := current + [c];
      }
      i := i + 1;
    }
    if single || double { return None; }
    return Appended(items, Scalar(current, parse));
  }

  // ---------- the line ----------

  /** The characters of a mapping key. */
  predicate IsKey(key: string) {
    key != [] && forall i :: 0 <= i < |key| ==> KeyChar(key[i])
  }

  predicate KeyChar(c: char) {
    'a' <= c <= 'z' || 'A' <= c <= 'Z' || '0' <= c <= '9' || c == '_' || c == '-'
  }

  function KeyRun(s: string): (n: nat)
    ensures n <= |s| && forall i :: 0 <= i < n ==> KeyChar(s[i])
    ensures n < |s| ==> !KeyChar(s[n])
  {
    if s != [] && KeyChar(s[0]) then 1 + KeyRun(s[1..]) else 0
  }

  function SkipOnlySpaces(s: string): string {
    if s != [] && s[0] == ' ' then SkipOnlySpaces(s[1..]) else s
  }

  /** A name, a colon, and a value behind blanks: no tab, no indentation, no line break. `None` is a refusal. */
  function KeyAndValue(line: string): Option<(string, string)> {
    var n := KeyRun(line);
    if '\t' in line || n == 0 || '0' <= line[0] <= '9' || line[0] == '-' || n == |line| || line[n] != ':' then None
    else if n + 1 == |line| then Some((line[..n], []))
    else if line[n + 1] != ' ' then None
    else
      var value := SkipOnlySpaces(line[n + 1..]);
      if exists c <- value :: EndsLine(c) then None else Some((line[..n], value))
  }
}
