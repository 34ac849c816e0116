/**
 The corpus index's own JSON renderer, `canonicalCorpusJson` of src/corpus_analysis.ts: members
 sorted by key wherever they occur, undefined ones dropped. Its text determines the value.
 */
module CanonicalJson {
  import opened Ordering
  import opened Text

  /** A value of the host language, as the renderer sees it. Numbers are integers here. */
  datatype Json =
    | Null | Bool(b: bool) | Num(n: int) | Str(s: string)
    | Arr(items: seq<Json>) | Obj(members: seq<Member>)
    | Undefined | NotFinite | Unsupported

  datatype Member = Member(key: string, value: Json)

  // ---------- atoms ----------

  function HexDigit(n: nat): char
    requires n < 16
  {
    "0123456789abcdef"[n]
  }

  function EscapeChar(c: char): (r: string)
    ensures |r| >= 1 && r[0] != '\"'
  {
    if c == '\"' then "\\\""
    else if c == '\\' then "\\\\"
    else if c == '\U{08}' then "\\b"
    else if c == '\U{0C}' then "\\f"
    else if c == '\n' then "\\n"
    else if c == '\r' then "\\r"
    else if c == '\t' then "\\t"
    else if c < ' ' then "\\u00" + [HexDigit(c as int / 16), HexDigit(c as int % 16)]
    else [c]
  }

  function Escaped(s: string): string {
    if s == [] then [] else EscapeChar(s[0]) + Escaped(s[1..])
  }

  function Quoted(s: string): string {
    "\"" + Escaped(s) + "\""
  }

  function Digit(n: nat): char
    requires n < 10
  {
    ('0' as int + n) as char
  }

  function Digits(n: nat): (r: string)
    ensures r != []
  {
    if n < 10 then [Digit(n)] else Digits(n / 10) + [Digit(n % 10)]
  }

  function IntText(n: int): string {
    if n < 0 then "-" + Digits(-n) else Digits(n)
  }

  // ---------- members ----------

  predicate KeyAtMost(x: Member, y: Member) {
    AtMost(x.key, y.key)
  }

  function Present(members: seq<Member>): (present: seq<Member>)
    ensures forall m :: m in present <==> m in members && m.value != Undefined
  {
    if members == [] then []
    else if members[0].value == Undefined then Present(members[1..])
    else [members[0]] + Present(members[1..])
  }

  /** The members that are written, in the order they are written. */
  function Written(members: seq<Member>): seq<Member> {
    Sort(Present(members), KeyAtMost)
  }

  lemma {:induction false} WrittenAreMembers(members: seq<Member>)
    ensures forall m :: m in Written(members) <==> m in members && m.value != Undefined
  {
    SortKeepsMembers(Present(members), KeyAtMost);
  }

  lemma {:induction false} ValueIsPart(v: Json, m: Member)
    requires v.Obj? && m in v.members
    ensures m.value < v
  {
    var i :| 0 <= i < |v.members| && v.members[i] == m;
    assert m.value < v.members[i].value || m.value == v.members[i].value;
  }

  lemma {:induction false} ItemIsPart(v: Json, x: Json)
    requires v.Arr? && x in v.items
    ensures x < v
  {
    var i :| 0 <= i < |v.items| && v.items[i] == x;
  }

  // ---------- the value the text stands for ----------

  /** Undefined members dropped and the others in key order, at every depth. */
  function Normal(v: Json): Json
    decreases v, 2
  {
    match v {
      case Arr(items) => Arr(seq(|items|, i requires 0 <= i < |items| => Normal(items[i])))
      case Obj(members) =>
        WrittenAreMembers(members);
        Obj(NormalMembers(v, Written(members)))
      case _ => v
    }
  }

  function NormalMembers(v: Json, list: seq<Member>): (r: seq<Member>)
    requires v.Obj? && forall m :: m in list ==> m in v.members
    ensures |r| == |list|
    decreases v, 1, |list|
  {
    if list == [] then []
    else
      ValueIsPart(v, list[0]);
      [Member(list[0].key, Normal(list[0].value))] + NormalMembers(v, list[1..])
  }

  // ---------- rendering ----------

  function Spaces(n: nat): (s: string)
    ensures |s| == n
  {
    seq(n, _ => ' ')
  }

  function Pad(indent: nat, depth: nat): string {
    if indent > 0 then "\n" + Spaces(indent * depth) else ""
  }

  function Colon(indent: nat): string {
    if indent > 0 then ": " else ":"
  }

  /** `None` is the error the renderer raises. */
  function Render(v: Json, indent: nat, depth: nat): Option<string>
    decreases v, 2
  {
    match v {
      case Null => Some("null")
      case Bool(b) => Some(if b then "true" else "false")
      case Num(n) => Some(IntText(n))
      case Str(s) => Some(Quoted(s))
      case Arr(items) => if items == [] then Some("[]") else Prefixed("[", RenderItems(v, items, indent, depth))
      case Obj(members) =>
        WrittenAreMembers(members);
        if Written(members) == [] then Some("{}") else Prefixed("{", RenderMembers(v, Written(members), indent, depth))
      case _ => None
    }
  }

  function Prefixed(before: string, text: Option<string>): Option<string> {
    if text.Some? then Some(before + text.value) else None
  }

  /** The items with what separates them, up to the closing bracket. */
  function RenderItems(v: Json, items: seq<Json>, indent: nat, depth: nat): Option<string>
    requires v.Arr? && items != [] && forall x :: x in items ==> x in v.items
    decreases v, 1, |items|
  {
    ItemIsPart(v, items[0]);
    var head := Render(items[0], indent, depth + 1);
    if head.None? then None
    else if |items| == 1 then Some(Pad(indent, depth + 1) + head.value + Pad(indent, depth) + "]")
    else Prefixed(Pad(indent, depth + 1) + head.value + ",", RenderItems(v, items[1..], indent, depth))
  }

  function RenderMembers(v: Json, list: seq<Member>, indent: nat, depth: nat): Option<string>
    requires v.Obj? && list != [] && forall m :: m in list ==> m in v.members
    decreases v, 1, |list|
  {
    ValueIsPart(v, list[0]);
    var value := Render(list[0].value, indent, depth + 1);
    if value.None? then None
    else
      var head := Pad(indent, depth + 1) + Quoted(list[0].key) + Colon(indent) + value.value;
      if |list| == 1 then Some(head + Pad(indent, depth) + "}")
      else Prefixed(head + ",", RenderMembers(v, list[1..], indent, depth))
  }

  function CanonicalCorpusJson(v: Json, indent: nat): Option<string> {
    Render(v, indent, 0)
  }

  // ---------- what can be rendered ----------

  /** No unfinished number and nothing unsupported at any depth; `undefined` only as a member's value. */
  predicate Renderable(v: Json) {
    match v {
      case Undefined => false
      case NotFinite => false
      case Unsupported => false
      case Arr(items) => forall i :: 0 <= i < |items| ==> Renderable(items[i])
      case Obj(members) => forall i :: 0 <= i < |members| ==> members[i].value == Undefined || Renderable(members[i].value)
      case _ => true
    }
  }

  lemma {:induction false} RendersIff(v: Json, indent: nat, depth: nat)
    ensures Render(v, indent, depth).Some? <==> Renderable(v)
    decreases v, 2
  {
    hide Written, RenderItems, RenderMembers, IntText, Quoted;
    match v {
      case Arr(items) =>
        if items != [] { ItemsRenderIff(v, items, indent, depth); }
      case Obj(members) =>
        WrittenAreMembers(members);
        var list := Written(members);
        if list != [] { MembersRenderIff(v, list, indent, depth); }
        assert (forall m :: m in list ==> Renderable(m.value))
               <==> forall i :: 0 <= i < |members| ==> members[i].value == Undefined || Renderable(members[i].value) by {
          hide Renderable;
          WrittenAreRenderable(members);
        }
      case _ =>
    }
  }

  lemma {:induction false} WrittenAreRenderable(members: seq<Member>)
    ensures (forall m :: m in Written(members) ==> Renderable(m.value))
            <==> forall i :: 0 <= i < |members| ==> members[i].value == Undefined || Renderable(members[i].value)
  {
    WrittenAreMembers(members);
    hide Written, Renderable;
    if forall m :: m in Written(members) ==> Renderable(m.value) {
      forall i | 0 <= i < |members| ensures members[i].value == Undefined || Renderable(members[i].value) {
        assert members[i] in members;
      }
    }
  }

  lemma {:induction false} ItemsRenderIff(v: Json, items: seq<Json>, indent: nat, depth: nat)
    requires v.Arr? && items != [] && forall x :: x in items ==> x in v.items
    ensures RenderItems(v, items, indent, depth).Some? <==> forall i :: 0 <= i < |items| ==> Renderable(items[i])
    decreases v, 1, |items|
  {
    hide Render, Renderable, Pad;
    ItemIsPart(v, items[0]);
    RendersIff(items[0], indent, depth + 1);
    if |items| == 1 {
    } else {
      ItemsRenderIff(v, items[1..], indent, depth);
      assert forall i :: 1 <= i < |items| ==> items[i] == items[1..][i - 1];
    }
  }

  lemma {:induction false} MembersRenderIff(v: Json, list: seq<Member>, indent: nat, depth: nat)
    requires v.Obj? && list != [] && forall m :: m in list ==> m in v.members
    ensures RenderMembers(v, list, indent, depth).Some? <==> forall m :: m in list ==> Renderable(m.value)
    decreases v, 1, |list|
  {
    hide Render, Renderable, Pad, Quoted, Colon;
    ValueIsPart(v, list[0]);
    RendersIff(list[0].value, indent, depth + 1);
    assert list == [list[0]] + list[1..];
    if |list| == 1 {
    } else {
      MembersRenderIff(v, list[1..], indent, depth);
    }
  }

  /** The renderer raises exactly for the values that are not renderable, at any indentation. */
  lemma {:induction false} CanonicalIffRenderable(v: Json, indent: nat)
    ensures CanonicalCorpusJson(v, indent).Some? <==> Renderable(v)
  {
    RendersIff(v, indent, 0);
  }
}
