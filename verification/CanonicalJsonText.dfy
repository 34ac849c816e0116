/** The canonical text determines the value: rendering is injective up to undefined members and key order. */
module CanonicalJsonText {
  import opened Ordering
  import opened Text
  import opened CanonicalJson

  /** What may follow a value inside a larger text, or at its end. */
  predicate Ends(x: string) {
    x == [] || x[0] == ',' || x[0] == ']' || x[0] == '}' || x[0] == '\n'
  }

  // ---------- texts put together ----------

  lemma {:induction false} LeadIsShared(a: string, b: string, x: string, y: string)
    requires a != [] && b != [] && a + x == b + y
    ensures a[0] == b[0]
  {
    assert (a + x)[0] == a[0] && (b + y)[0] == b[0];
  }

  lemma {:induction false} DropHead(a: string, x: string, y: string)
    requires a + x == a + y
    ensures x == y
  {
    assert (a + x)[|a|..] == x && (a + y)[|a|..] == y;
  }

  // ---------- numbers ----------

  predicate IsDigit(c: char) {
    '0' <= c <= '9'
  }

  function DigitRun(s: string): nat {
    if s == [] || !IsDigit(s[0]) then 0 else 1 + DigitRun(s[1..])
  }

  lemma {:induction false} RunOf(a: string, x: string)
    requires (forall i :: 0 <= i < |a| ==> IsDigit(a[i])) && Ends(x)
    ensures DigitRun(a + x) == |a|
  {
    if a == [] {
      assert a + x == x;
    } else {
      assert (a + x)[1..] == a[1..] + x;
      RunOf(a[1..], x);
    }
  }

  lemma {:induction false} DigitsAreDigits(n: nat)
    ensures forall i :: 0 <= i < |Digits(n)| ==> IsDigit(Digits(n)[i])
  {
    if n >= 10 { DigitsAreDigits(n / 10); }
  }

  lemma {:induction false} DigitsUnique(n: nat, m: nat)
    requires Digits(n) == Digits(m)
    ensures n == m
    decreases n
  {
    if n < 10 {
      assert |Digits(m)| == 1;
      assert m < 10;
    } else {
      var d := Digits(n);
      assert |d| >= 2 && m >= 10;
      assert d[..|d| - 1] == Digits(n / 10) && d[|d| - 1] == Digit(n % 10);
      assert d[..|d| - 1] == Digits(m / 10) && d[|d| - 1] == Digit(m % 10);
      DigitsUnique(n / 10, m / 10);
    }
  }

  lemma {:induction false} DigitsInjective(n: nat, m: nat, x: string, y: string)
    requires Ends(x) && Ends(y) && Digits(n) + x == Digits(m) + y
    ensures n == m && x == y
  {
    DigitsAreDigits(n);
    DigitsAreDigits(m);
    RunOf(Digits(n), x);
    RunOf(Digits(m), y);
    hide Digits, Ends, DigitRun, IsDigit;
    SplitSame(Digits(n), Digits(m), x, y);
    DigitsUnique(n, m);
  }

  lemma {:induction false} SplitSame(a: string, b: string, x: string, y: string)
    requires |a| == |b| && a + x == b + y
    ensures a == b && x == y
  {
    assert (a + x)[..|a|] == a && (b + y)[..|b|] == b;
    assert (a + x)[|a|..] == x && (b + y)[|b|..] == y;
  }

  lemma {:induction false} SignOf(n: int)
    ensures IntText(n) != [] && (IntText(n)[0] == '-' <==> n < 0)
  {
    DigitsAreDigits(if n < 0 then -n else n);
    hide Digits;
  }

  lemma {:induction false} IntInjective(n: int, m: int, x: string, y: string)
    requires Ends(x) && Ends(y) && IntText(n) + x == IntText(m) + y
    ensures n == m && x == y
  {
    hide Digits, Ends, IntText;
    SignOf(n);
    SignOf(m);
    LeadIsShared(IntText(n), IntText(m), x, y);
    if n < 0 { NegativeInjective(-n, -m, x, y); } else { PositiveInjective(n, m, x, y); }
  }

  lemma {:induction false} NegativeInjective(n: int, m: int, x: string, y: string)
    requires n > 0 && m > 0 && Ends(x) && Ends(y) && IntText(-n) + x == IntText(-m) + y
    ensures n == m && x == y
  {
    hide Digits, Ends;
    assert IntText(-n) + x == "-" + (Digits(n) + x);
    assert IntText(-m) + y == "-" + (Digits(m) + y);
    hide IntText;
    DropHead("-", Digits(n) + x, Digits(m) + y);
    DigitsInjective(n, m, x, y);
  }

  lemma {:induction false} PositiveInjective(n: nat, m: nat, x: string, y: string)
    requires Ends(x) && Ends(y) && IntText(n) + x == IntText(m) + y
    ensures n == m && x == y
  {
    hide Digits, Ends;
    DigitsInjective(n, m, x, y);
  }

  // ---------- strings ----------

  function HexValue(c: char): int {
    if IsDigit(c) then c as int - '0' as int else c as int - 'a' as int + 10
  }

  /** The character an escaped text starts with, and what is left behind it. */
  function Unescape(s: string): (char, string) {
    if s == [] then ('?', [])
    else if s[0] != '\\' then (s[0], s[1..])
    else if |s| < 2 then ('?', [])
    else if s[1] == 'b' then ('\U{08}', s[2..])
    else if s[1] == 'f' then ('\U{0C}', s[2..])
    else if s[1] == 'n' then ('\n', s[2..])
    else if s[1] == 'r' then ('\r', s[2..])
    else if s[1] == 't' then ('\t', s[2..])
    else if s[1] != 'u' then (s[1], s[2..])
    else if |s| < 6 then ('?', [])
    else
      var code := 16 * HexValue(s[4]) + HexValue(s[5]);
      (if 0 <= code < 256 then code as char else '?', s[6..])
  }

  lemma {:induction false} HexRound(n: nat)
    requires n < 16
    ensures HexValue(HexDigit(n)) == n
  {
    assert n == 0 || n == 1 || n == 2 || n == 3 || n == 4 || n == 5 || n == 6 || n == 7 || n == 8 || n == 9 || n == 10
           || n == 11 || n == 12 || n == 13 || n == 14 || n == 15;
  }

  lemma {:induction false} UnescapeControl(c: char, x: string)
    requires |EscapeChar(c)| == 6
    ensures Unescape(EscapeChar(c) + x) == (c, x)
  {
    hide HexValue, HexDigit;
    var s := EscapeChar(c) + x;
    HexRound(c as int / 16);
    HexRound(c as int % 16);
    assert s[0] == '\\' && s[1] == 'u' && s[4] == HexDigit(c as int / 16) && s[5] == HexDigit(c as int % 16);
    assert s[6..] == x;
  }

  lemma {:induction false} UnescapeEscape(c: char, x: string)
    ensures Unescape(EscapeChar(c) + x) == (c, x)
  {
    var s := EscapeChar(c) + x;
    assert s[|EscapeChar(c)|..] == x;
    if |EscapeChar(c)| == 6 { UnescapeControl(c, x); }
    hide HexValue, HexDigit;
  }

  lemma {:induction false} EscapedOpens(s: string, x: string)
    ensures s == [] ==> Escaped(s) + "\"" + x == "\"" + x
    ensures s != [] ==> Escaped(s) + "\"" + x == EscapeChar(s[0]) + (Escaped(s[1..]) + "\"" + x)
    ensures Escaped(s) + "\"" + x != [] && ((Escaped(s) + "\"" + x)[0] == '\"' <==> s == [])
  {
    hide EscapeChar;
  }

  lemma {:induction false} EscapedInjective(s: string, t: string, x: string, y: string)
    requires Escaped(s) + "\"" + x == Escaped(t) + "\"" + y
    ensures s == t && x == y
    decreases |s|
  {
    EscapedOpens(s, x);
    EscapedOpens(t, y);
    hide Escaped, EscapeChar, Unescape;
    if s == [] {
      DropHead("\"", x, y);
    } else {
      var restS, restT := Escaped(s[1..]) + "\"" + x, Escaped(t[1..]) + "\"" + y;
      UnescapeEscape(s[0], restS);
      UnescapeEscape(t[0], restT);
      EscapedInjective(s[1..], t[1..], x, y);
    }
  }

  lemma {:induction false} QuotedTail(s: string, x: string)
    ensures (Quoted(s) + x)[1..] == Escaped(s) + "\"" + x
  {
    hide Escaped;
  }

  lemma {:induction false} QuotedInjective(s: string, t: string, x: string, y: string)
    requires Quoted(s) + x == Quoted(t) + y
    ensures s == t && x == y
  {
    hide Escaped, Quoted;
    QuotedTail(s, x);
    QuotedTail(t, y);
    EscapedInjective(s, t, x, y);
  }

  // ---------- values ----------

  /** The character a value's text starts with tells its kind. */
  predicate LeadsAs(v: Json, c: char) {
    match v {
      case Null => c == 'n'
      case Bool(b) => c == if b then 't' else 'f'
      case Num(_) => IsDigit(c) || c == '-'
      case Str(_) => c == '\"'
      case Arr(_) => c == '['
      case Obj(_) => c == '{'
      case _ => false
    }
  }

  lemma {:induction false} Leads(v: Json, indent: nat, depth: nat)
    requires Render(v, indent, depth).Some?
    ensures Render(v, indent, depth).value != [] && LeadsAs(v, Render(v, indent, depth).value[0])
  {
    hide Written, RenderItems, RenderMembers, Escaped;
    if v.Num? {
      DigitsAreDigits(if v.n < 0 then -v.n else v.n);
      hide Digits;
    }
  }

  lemma {:induction false} SameLeadSameKind(v: Json, w: Json, c: char)
    requires LeadsAs(v, c) && LeadsAs(w, c)
    ensures (v.Null? <==> w.Null?) && (v.Bool? <==> w.Bool?) && (v.Num? <==> w.Num?) && (v.Str? <==> w.Str?)
    ensures (v.Arr? <==> w.Arr?) && (v.Obj? <==> w.Obj?)
    ensures v.Bool? ==> v == w
    ensures !LeadsAs(v, ']') && !LeadsAs(v, '}') && !LeadsAs(v, '\n') && !LeadsAs(v, ',')
    ensures v.Null? || v.Bool? || v.Num? || v.Str? || v.Arr? || v.Obj?
  {}

  // ---------- lists of values ----------

  /** What stands behind an item: the closing bracket, or a comma and the rest. */
  function ItemsRest(v: Json, items: seq<Json>, indent: nat, depth: nat): Option<string>
    requires v.Arr? && items != [] && forall x :: x in items ==> x in v.items
  {
    if |items| == 1 then Some(Pad(indent, depth) + "]") else Prefixed(",", RenderItems(v, items[1..], indent, depth))
  }

  function MembersRest(v: Json, list: seq<Member>, indent: nat, depth: nat): Option<string>
    requires v.Obj? && list != [] && forall m :: m in list ==> m in v.members
  {
    if |list| == 1 then Some(Pad(indent, depth) + "}") else Prefixed(",", RenderMembers(v, list[1..], indent, depth))
  }

  /** A comma follows an item exactly when there are more. */
  ghost predicate Follows(rest: string, more: bool) {
    rest != [] && Ends(rest) && (rest[0] == ',' <==> more)
  }

  lemma {:induction false} PadEnds(indent: nat, depth: nat, close: string, x: string)
    requires close == "]" || close == "}"
    ensures Follows(Pad(indent, depth) + close + x, false)
  {}

  lemma {:induction false} CommaEnds(tail: string, x: string)
    ensures Follows("," + tail + x, true)
  {}

  lemma {:induction false} ItemsParts(v: Json, items: seq<Json>, indent: nat, depth: nat)
    requires v.Arr? && items != [] && forall k :: k in items ==> k in v.items
    requires RenderItems(v, items, indent, depth).Some?
    ensures Render(items[0], indent, depth + 1).Some? && ItemsRest(v, items, indent, depth).Some?
    ensures RenderItems(v, items, indent, depth).value
            == Pad(indent, depth + 1) + Render(items[0], indent, depth + 1).value + ItemsRest(v, items, indent, depth).value
    ensures |items| > 1 ==>
      (RenderItems(v, items[1..], indent, depth).Some?
       && ItemsRest(v, items, indent, depth).value == "," + RenderItems(v, items[1..], indent, depth).value)
    ensures |items| == 1 ==> ItemsRest(v, items, indent, depth).value == Pad(indent, depth) + "]"
  {
    hide Render, Pad;
  }

  lemma {:induction false} ItemsShape(v: Json, items: seq<Json>, indent: nat, depth: nat, x: string)
    requires v.Arr? && items != [] && forall k :: k in items ==> k in v.items
    requires RenderItems(v, items, indent, depth).Some?
    ensures Render(items[0], indent, depth + 1).Some? && ItemsRest(v, items, indent, depth).Some?
    ensures RenderItems(v, items, indent, depth).value + x
            == Pad(indent, depth + 1) + (Render(items[0], indent, depth + 1).value + (ItemsRest(v, items, indent, depth).value + x))
    ensures Follows(ItemsRest(v, items, indent, depth).value + x, |items| > 1)
  {
    hide Render, Pad, Follows, RenderItems, ItemsRest;
    ItemsParts(v, items, indent, depth);
    if |items| > 1 { CommaEnds(RenderItems(v, items[1..], indent, depth).value, x); } else { PadEnds(indent, depth, "]", x); }
    ThreeAndOne(Pad(indent, depth + 1), Render(items[0], indent, depth + 1).value, ItemsRest(v, items, indent, depth).value, x);
  }

  lemma {:induction false} ThreeAndOne(p: string, h: string, r: string, x: string)
    ensures p + h + r + x == p + (h + (r + x))
  {}

  lemma {:induction false} MembersShape(v: Json, list: seq<Member>, indent: nat, depth: nat, x: string)
    requires v.Obj? && list != [] && forall m :: m in list ==> m in v.members
    requires RenderMembers(v, list, indent, depth).Some?
    ensures Render(list[0].value, indent, depth + 1).Some? && MembersRest(v, list, indent, depth).Some?
    ensures RenderMembers(v, list, indent, depth).value + x
            == Pad(indent, depth + 1) + (Quoted(list[0].key) + (Colon(indent) + (Render(list[0].value, indent, depth + 1).value
                                                                                 + (MembersRest(v, list, indent, depth).value + x))))
    ensures Follows(MembersRest(v, list, indent, depth).value + x, |list| > 1)
  {
    PadEnds(indent, depth, "}", x);
    hide Render, Pad, Follows, Quoted, Colon;
    if |list| > 1 { CommaEnds(RenderMembers(v, list[1..], indent, depth).value, x); }
    var p, q, c, h, r := Pad(indent, depth + 1), Quoted(list[0].key), Colon(indent), Render(list[0].value, indent, depth + 1).value,
                         MembersRest(v, list, indent, depth).value;
    assert RenderMembers(v, list, indent, depth).value == p + q + c + h + r;
    Nested(p, q, c, h, r, x);
  }

  lemma {:induction false} Nested(p: string, q: string, c: string, h: string, r: string, x: string)
    ensures p + q + c + h + r + x == p + (q + (c + (h + (r + x))))
  {
    assert h + r + x == h + (r + x);
    assert c + (h + r + x) == c + (h + (r + x));
    assert p + q + c + h + r + x == (p + q) + (c + (h + r + x));
  }

  // ---------- the text determines the value ----------

  lemma {:induction false} RenderInjective(v: Json, w: Json, indent: nat, depth: nat, x: string, y: string)
    requires Render(v, indent, depth).Some? && Render(w, indent, depth).Some? && Ends(x) && Ends(y)
    requires Render(v, indent, depth).value + x == Render(w, indent, depth).value + y
    ensures Normal(v) == Normal(w) && x == y
    decreases v, 2
  {
    var a, b := Render(v, indent, depth).value, Render(w, indent, depth).value;
    assert (v.Num? ==> a == IntText(v.n)) && (v.Str? ==> a == Quoted(v.s)) && (v.Null? ==> a == "null") by { RenderAtom(v, indent, depth); }
    assert (w.Num? ==> b == IntText(w.n)) && (w.Str? ==> b == Quoted(w.s)) && (w.Null? ==> b == "null") by { RenderAtom(w, indent, depth); }
    hide Render, Normal, LeadsAs, IntText, Quoted, Ends;
    Leads(v, indent, depth);
    Leads(w, indent, depth);
    LeadIsShared(a, b, x, y);
    SameLeadSameKind(v, w, a[0]);
    if v.Num? {
      IntInjective(v.n, w.n, x, y);
    } else if v.Str? {
      QuotedInjective(v.s, w.s, x, y);
    } else if v.Arr? {
      ArrInjective(v, w, indent, depth, x, y);
    } else if v.Obj? {
      ObjInjective(v, w, indent, depth, x, y);
    } else {
      DropHead(a, x, y);
    }
  }

  lemma {:induction false} RenderAtom(v: Json, indent: nat, depth: nat)
    requires Render(v, indent, depth).Some?
    ensures v.Num? ==> Render(v, indent, depth).value == IntText(v.n)
    ensures v.Str? ==> Render(v, indent, depth).value == Quoted(v.s)
    ensures v.Null? ==> Render(v, indent, depth).value == "null"
  {
    hide IntText, Quoted, Written, RenderItems, RenderMembers;
  }

  lemma {:induction false} ItemsOpen(v: Json, items: seq<Json>, indent: nat, depth: nat, x: string)
    requires v.Arr? && items != [] && forall k :: k in items ==> k in v.items
    requires RenderItems(v, items, indent, depth).Some?
    ensures var t := RenderItems(v, items, indent, depth).value + x; t != [] && t[0] != ']'
  {
    hide Render, RenderItems, LeadsAs, Follows, ItemsRest;
    ItemsShape(v, items, indent, depth, x);
    Leads(items[0], indent, depth + 1);
    SameLeadSameKind(items[0], items[0], Render(items[0], indent, depth + 1).value[0]);
  }

  /** The text of an empty list closes at once; that of any other list does not. */
  lemma {:induction false} ArrText(v: Json, indent: nat, depth: nat, x: string)
    requires v.Arr? && Render(v, indent, depth).Some?
    ensures v.items == [] ==> Render(v, indent, depth).value + x == "[" + ("]" + x)
    ensures v.items != [] ==> RenderItems(v, v.items, indent, depth).Some?
    ensures v.items != [] ==> Render(v, indent, depth).value + x == "[" + (RenderItems(v, v.items, indent, depth).value + x)
    ensures v.items != [] ==> var t := RenderItems(v, v.items, indent, depth).value + x; t != [] && t[0] != ']'
  {
    hide RenderItems;
    if v.items != [] { ItemsOpen(v, v.items, indent, depth, x); }
  }

  lemma {:induction false} ArrInjective(v: Json, w: Json, indent: nat, depth: nat, x: string, y: string)
    requires v.Arr? && w.Arr? && Render(v, indent, depth).Some? && Render(w, indent, depth).Some? && Ends(x) && Ends(y)
    requires Render(v, indent, depth).value + x == Render(w, indent, depth).value + y
    ensures Normal(v) == Normal(w) && x == y
    decreases v, 1, |v.items| + 1
  {
    hide Render, RenderItems, Ends;
    ArrText(v, indent, depth, x);
    ArrText(w, indent, depth, y);
    var s := if v.items == [] then "]" + x else RenderItems(v, v.items, indent, depth).value + x;
    var t := if w.items == [] then "]" + y else RenderItems(w, w.items, indent, depth).value + y;
    DropHead("[", s, t);
    if v.items == [] {
      assert w.items == [];
      DropHead("]", x, y);
    } else {
      ItemsInjective(v, w, v.items, w.items, indent, depth, x, y);
    }
  }

  lemma {:induction false} ItemsInjective(v: Json, w: Json, vs: seq<Json>, ws: seq<Json>, indent: nat, depth: nat, x: string, y: string)
    requires v.Arr? && vs != [] && (forall k :: k in vs ==> k in v.items) && w.Arr? && ws != [] && forall k :: k in ws ==> k in w.items
    requires RenderItems(v, vs, indent, depth).Some? && RenderItems(w, ws, indent, depth).Some?
    requires RenderItems(v, vs, indent, depth).value + x == RenderItems(w, ws, indent, depth).value + y
    ensures |vs| == |ws| && (forall i :: 0 <= i < |vs| ==> Normal(vs[i]) == Normal(ws[i])) && x == y
    decreases v, 1, |vs|
  {
    hide Render, Normal, Pad, Ends;
    ItemsShape(v, vs, indent, depth, x);
    ItemsShape(w, ws, indent, depth, y);
    var restV, restW := ItemsRest(v, vs, indent, depth).value + x, ItemsRest(w, ws, indent, depth).value + y;
    DropHead(Pad(indent, depth + 1), Render(vs[0], indent, depth + 1).value + restV, Render(ws[0], indent, depth + 1).value + restW);
    ItemIsPart(v, vs[0]);
    RenderInjective(vs[0], ws[0], indent, depth + 1, restV, restW);
    if |vs| == 1 {
      DropHead(Pad(indent, depth) + "]", x, y);
    } else {
      var tailV, tailW := RenderItems(v, vs[1..], indent, depth).value, RenderItems(w, ws[1..], indent, depth).value;
      assert restV == "," + (tailV + x) && restW == "," + (tailW + y);
      DropHead(",", tailV + x, tailW + y);
      ItemsInjective(v, w, vs[1..], ws[1..], indent, depth, x, y);
      forall i | 0 <= i < |vs| ensures Normal(vs[i]) == Normal(ws[i]) {
        if i > 0 { assert vs[1..][i - 1] == vs[i] && ws[1..][i - 1] == ws[i]; }
      }
    }
  }

  lemma {:induction false} ObjText(v: Json, indent: nat, depth: nat, x: string)
    requires v.Obj? && Render(v, indent, depth).Some?
    ensures forall m :: m in Written(v.members) ==> m in v.members
    ensures var list := Written(v.members);
            && (list == [] ==> Render(v, indent, depth).value + x == "{" + ("}" + x))
            && (list != [] ==>
                  && RenderMembers(v, list, indent, depth).Some?
                  && Render(v, indent, depth).value + x == "{" + (RenderMembers(v, list, indent, depth).value + x)
                  && var t := RenderMembers(v, list, indent, depth).value + x; t != [] && t[0] != '}')
  {
    WrittenAreMembers(v.members);
    var list := Written(v.members);
    if list != [] {
      MembersShape(v, list, indent, depth, x);
    }
    hide RenderMembers, Follows, MembersRest, Written;
  }

  lemma {:induction false} ObjInjective(v: Json, w: Json, indent: nat, depth: nat, x: string, y: string)
    requires v.Obj? && w.Obj? && Render(v, indent, depth).Some? && Render(w, indent, depth).Some? && Ends(x) && Ends(y)
    requires Render(v, indent, depth).value + x == Render(w, indent, depth).value + y
    ensures Normal(v) == Normal(w) && x == y
    decreases v, 1, |Written(v.members)| + 1
  {
    hide Render, RenderMembers, Ends, Written;
    ObjText(v, indent, depth, x);
    ObjText(w, indent, depth, y);
    var vs, ws := Written(v.members), Written(w.members);
    var s := if vs == [] then "}" + x else RenderMembers(v, vs, indent, depth).value + x;
    var t := if ws == [] then "}" + y else RenderMembers(w, ws, indent, depth).value + y;
    DropHead("{", s, t);
    if vs == [] {
      assert ws == [];
      DropHead("}", x, y);
    } else {
      MembersInjective(v, w, vs, ws, indent, depth, x, y);
    }
  }

  lemma {:induction false} MembersInjective(v: Json, w: Json, vs: seq<Member>, ws: seq<Member>, indent: nat, depth: nat,
                                            x: string, y: string)
    requires v.Obj? && vs != [] && (forall m :: m in vs ==> m in v.members) && w.Obj? && ws != [] && forall m :: m in ws ==> m in w.members
    requires RenderMembers(v, vs, indent, depth).Some? && RenderMembers(w, ws, indent, depth).Some?
    requires RenderMembers(v, vs, indent, depth).value + x == RenderMembers(w, ws, indent, depth).value + y
    ensures NormalMembers(v, vs) == NormalMembers(w, ws) && x == y
    decreases v, 1, |vs|
  {
    hide Render, Normal, Pad, Ends, Quoted, Colon;
    MembersShape(v, vs, indent, depth, x);
    MembersShape(w, ws, indent, depth, y);
    var restV, restW := MembersRest(v, vs, indent, depth).value + x, MembersRest(w, ws, indent, depth).value + y;
    var valueV, valueW := Render(vs[0].value, indent, depth + 1).value + restV, Render(ws[0].value, indent, depth + 1).value + restW;
    DropHead(Pad(indent, depth + 1), Quoted(vs[0].key) + (Colon(indent) + valueV), Quoted(ws[0].key) + (Colon(indent) + valueW));
    QuotedInjective(vs[0].key, ws[0].key, Colon(indent) + valueV, Colon(indent) + valueW);
    DropHead(Colon(indent), valueV, valueW);
    ValueIsPart(v, vs[0]);
    RenderInjective(vs[0].value, ws[0].value, indent, depth + 1, restV, restW);
    if |vs| == 1 {
      DropHead(Pad(indent, depth) + "}", x, y);
    } else {
      var tailV, tailW := RenderMembers(v, vs[1..], indent, depth).value, RenderMembers(w, ws[1..], indent, depth).value;
      assert restV == "," + (tailV + x) && restW == "," + (tailW + y);
      DropHead(",", tailV + x, tailW + y);
      MembersInjective(v, w, vs[1..], ws[1..], indent, depth, x, y);
    }
  }

  // ---------- the value determines the text ----------

  lemma {:induction false} NormalRenders(v: Json, w: Json, indent: nat, depth: nat)
    requires Normal(v) == Normal(w)
    ensures Render(v, indent, depth) == Render(w, indent, depth)
    decreases v, 2
  {
    hide Written, NormalMembers, RenderItems, RenderMembers, IntText, Quoted;
    if v.Arr? {
      assert w.Arr? && |v.items| == |w.items|;
      forall i | 0 <= i < |v.items| ensures Normal(v.items[i]) == Normal(w.items[i]) {
        assert Normal(v).items[i] == Normal(v.items[i]) && Normal(w).items[i] == Normal(w.items[i]);
      }
      if v.items != [] { ItemsRender(v, w, v.items, w.items, indent, depth); }
    } else if v.Obj? {
      WrittenAreMembers(v.members);
      WrittenAreMembers(w.members);
      if Written(v.members) != [] { MembersRender(v, w, Written(v.members), Written(w.members), indent, depth); }
    }
  }

  lemma {:induction false} ItemsRender(v: Json, w: Json, vs: seq<Json>, ws: seq<Json>, indent: nat, depth: nat)
    requires v.Arr? && vs != [] && (forall k :: k in vs ==> k in v.items) && w.Arr? && forall k :: k in ws ==> k in w.items
    requires |vs| == |ws| && forall i :: 0 <= i < |vs| ==> Normal(vs[i]) == Normal(ws[i])
    ensures RenderItems(v, vs, indent, depth) == RenderItems(w, ws, indent, depth)
    decreases v, 1, |vs|
  {
    hide Render, Normal, Pad;
    ItemIsPart(v, vs[0]);
    NormalRenders(vs[0], ws[0], indent, depth + 1);
    if |vs| == 1 {
    } else {
      ItemsRender(v, w, vs[1..], ws[1..], indent, depth);
    }
  }

  lemma {:induction false} MembersRender(v: Json, w: Json, vs: seq<Member>, ws: seq<Member>, indent: nat, depth: nat)
    requires v.Obj? && vs != [] && (forall m :: m in vs ==> m in v.members) && w.Obj? && ws != [] && forall m :: m in ws ==> m in w.members
    requires NormalMembers(v, vs) == NormalMembers(w, ws)
    ensures RenderMembers(v, vs, indent, depth) == RenderMembers(w, ws, indent, depth)
    decreases v, 1, |vs|
  {
    hide Render, Normal, Pad, Quoted, Colon;
    ValueIsPart(v, vs[0]);
    assert |vs| == |NormalMembers(v, vs)| == |ws|;
    var headV, headW := Member(vs[0].key, Normal(vs[0].value)), Member(ws[0].key, Normal(ws[0].value));
    assert NormalMembers(v, vs) == [headV] + NormalMembers(v, vs[1..]);
    assert NormalMembers(w, ws) == [headW] + NormalMembers(w, ws[1..]);
    FirstSame(headV, headW, NormalMembers(v, vs[1..]), NormalMembers(w, ws[1..]));
    NormalRenders(vs[0].value, ws[0].value, indent, depth + 1);
    if |vs| == 1 {
    } else {
      MembersRender(v, w, vs[1..], ws[1..], indent, depth);
    }
  }

  lemma {:induction false} FirstSame<T>(a: T, b: T, s: seq<T>, t: seq<T>)
    requires [a] + s == [b] + t
    ensures a == b && s == t
  {
    assert ([a] + s)[0] == a && ([b] + t)[0] == b;
    assert ([a] + s)[1..] == s && ([b] + t)[1..] == t;
  }

  /**
   The canonical text determines the value: two values that can be rendered have one text exactly
   when they are one value once undefined members are dropped and the order of keys forgotten.
   */
  lemma {:induction false} TextDeterminesValue(v: Json, w: Json, indent: nat)
    requires CanonicalCorpusJson(v, indent).Some? && CanonicalCorpusJson(w, indent).Some?
    ensures CanonicalCorpusJson(v, indent) == CanonicalCorpusJson(w, indent) <==> Normal(v) == Normal(w)
  {
    hide Render, Normal;
    if Normal(v) == Normal(w) { NormalRenders(v, w, indent, 0); }
    if CanonicalCorpusJson(v, indent) == CanonicalCorpusJson(w, indent) {
      RenderInjective(v, w, indent, 0, [], []);
    }
  }

  // ---------- the order of keys ----------

  predicate DistinctKeys(members: seq<Member>) {
    forall i, j :: 0 <= i < j < |members| ==> members[i].key != members[j].key
  }

  /** Every member that is written has one of the same key and the same value on the other side. */
  ghost predicate Matched(members: seq<Member>, others: seq<Member>) {
    forall m :: m in members && m.value != Undefined ==>
      exists n :: n in others && n.value != Undefined && n.key == m.key && Normal(n.value) == Normal(m.value)
  }

  lemma {:induction false} NormalMembersHold(v: Json, list: seq<Member>)
    requires v.Obj? && forall m :: m in list ==> m in v.members
    ensures |NormalMembers(v, list)| == |list|
    ensures forall i :: 0 <= i < |list| ==> NormalMembers(v, list)[i] == Member(list[i].key, Normal(list[i].value))
    decreases |list|
  {
    hide Normal;
    if list == [] {
    } else {
      NormalMembersHold(v, list[1..]);
    }
  }

  lemma {:induction false} KeyOrder()
    ensures TotalPreorder(KeyAtMost)
  {
    hide AtMost;
    forall x, y ensures KeyAtMost(x, y) || KeyAtMost(y, x) { AtMostTotal(x.key, y.key); }
    forall x, y, z | KeyAtMost(x, y) && KeyAtMost(y, z) ensures KeyAtMost(x, z) { AtMostTransitive(x.key, y.key, z.key); }
  }

  lemma {:induction false} PresentKeys(members: seq<Member>)
    requires DistinctKeys(members)
    ensures Distinct(Present(members))
  {
    if members == [] {
    } else {
      PresentKeys(members[1..]);
      assert forall m :: m in members[1..] ==> m.key != members[0].key;
    }
  }

  /** The written members of a well-formed object, with their values normalised: sorted, no key twice. */
  lemma {:induction false} WrittenInOrder(v: Json)
    requires v.Obj? && DistinctKeys(v.members)
    ensures forall m :: m in Written(v.members) ==> m in v.members
    ensures Ordered(KeyAtMost, NormalMembers(v, Written(v.members))) && Distinct(NormalMembers(v, Written(v.members)))
  {
    var list := Written(v.members);
    WrittenAreMembers(v.members);
    KeyOrder();
    PresentKeys(v.members);
    SortOrders(Present(v.members), KeyAtMost);
    SortKeepsDistinct(Present(v.members), KeyAtMost);
    NormalMembersHold(v, list);
    hide Present, Sort, Written, NormalMembers, Normal, AtMost, TotalPreorder;
    var normal := NormalMembers(v, list);
    assert Ordered(KeyAtMost, list) && Distinct(list);
    forall i, j | 0 <= i < j < |normal| ensures normal[i] != normal[j] {
      SameKeySameMember(v.members, list[i], list[j]);
    }
  }

  lemma {:induction false} SameKeySameMember(members: seq<Member>, m: Member, n: Member)
    requires DistinctKeys(members) && m in members && n in members
    ensures m.key == n.key ==> m == n
  {
    var i :| 0 <= i < |members| && members[i] == m;
    var j :| 0 <= j < |members| && members[j] == n;
    assert i < j ==> members[i].key != members[j].key;
    assert j < i ==> members[j].key != members[i].key;
  }

  lemma {:induction false} WrittenNormally(w: Json, n: Member)
    requires w.Obj? && n in w.members && n.value != Undefined
    ensures forall m :: m in Written(w.members) ==> m in w.members
    ensures Member(n.key, Normal(n.value)) in NormalMembers(w, Written(w.members))
  {
    WrittenAreMembers(w.members);
    NormalMembersHold(w, Written(w.members));
    hide Written, NormalMembers, Normal;
    var ws := Written(w.members);
    var j :| 0 <= j < |ws| && ws[j] == n;
    assert NormalMembers(w, ws)[j] == Member(n.key, Normal(n.value));
  }

  lemma {:induction false} MatchedMembers(v: Json, w: Json)
    requires v.Obj? && w.Obj? && Matched(v.members, w.members)
    ensures forall m :: m in Written(v.members) ==> m in v.members
    ensures forall m :: m in Written(w.members) ==> m in w.members
    ensures forall x :: x in NormalMembers(v, Written(v.members)) ==> x in NormalMembers(w, Written(w.members))
  {
    WrittenAreMembers(v.members);
    WrittenAreMembers(w.members);
    NormalMembersHold(v, Written(v.members));
    hide Written, NormalMembers, Normal;
    var vs := Written(v.members);
    forall x | x in NormalMembers(v, vs) ensures x in NormalMembers(w, Written(w.members)) {
      var i :| 0 <= i < |vs| && NormalMembers(v, vs)[i] == x;
      assert vs[i] in vs;
      var n :| n in w.members && n.value != Undefined && n.key == vs[i].key && Normal(n.value) == Normal(vs[i].value);
      WrittenNormally(w, n);
    }
  }

  /** Insertion order is forgotten: objects with matching members have one normal form, hence one text. */
  lemma {:induction false} KeyOrderIsIrrelevant(v: Json, w: Json, indent: nat)
    requires v.Obj? && w.Obj? && DistinctKeys(v.members) && DistinctKeys(w.members)
    requires Matched(v.members, w.members) && Matched(w.members, v.members)
    ensures Normal(v) == Normal(w) && CanonicalCorpusJson(v, indent) == CanonicalCorpusJson(w, indent)
  {
    hide Written, NormalMembers, Matched, DistinctKeys, Render, AtMost, KeyAtMost;
    WrittenInOrder(v);
    WrittenInOrder(w);
    MatchedMembers(v, w);
    MatchedMembers(w, v);
    var vs, ws := NormalMembers(v, Written(v.members)), NormalMembers(w, Written(w.members));
    TiesAreEqual(v);
    OrderedListUnique(KeyAtMost, vs, ws);
    assert Normal(v) == Obj(vs) && Normal(w) == Obj(ws);
    hide Normal;
    NormalRenders(v, w, indent, 0);
  }

  lemma {:induction false} TiesAreEqual(v: Json)
    requires v.Obj? && DistinctKeys(v.members)
    ensures forall m :: m in Written(v.members) ==> m in v.members
    ensures forall x, y :: (x in NormalMembers(v, Written(v.members)) && y in NormalMembers(v, Written(v.members))
                            && KeyAtMost(x, y) && KeyAtMost(y, x)) ==> x == y
  {
    hide Written, NormalMembers, DistinctKeys, AtMost;
    WrittenAreMembers(v.members);
    var vs := NormalMembers(v, Written(v.members));
    forall x, y | x in vs && y in vs && KeyAtMost(x, y) && KeyAtMost(y, x) ensures x == y {
      NormalKeysDistinct(v, x, y);
      AtMostTotal(x.key, y.key);
    }
  }

  lemma {:induction false} NormalKeysDistinct(v: Json, x: Member, y: Member)
    requires v.Obj? && DistinctKeys(v.members)
    ensures forall m :: m in Written(v.members) ==> m in v.members
    ensures x in NormalMembers(v, Written(v.members)) && y in NormalMembers(v, Written(v.members)) && x.key == y.key ==> x == y
  {
    var list := Written(v.members);
    WrittenAreMembers(v.members);
    NormalMembersHold(v, list);
    hide Written, NormalMembers, Normal;
    if x in NormalMembers(v, list) && y in NormalMembers(v, list) && x.key == y.key {
      var i :| 0 <= i < |list| && NormalMembers(v, list)[i] == x;
      var j :| 0 <= j < |list| && NormalMembers(v, list)[j] == y;
      assert list[i] in list && list[j] in list;
      SameKeySameMember(v.members, list[i], list[j]);
    }
  }

  // ---------- the normal form is its own ----------

  lemma {:induction false} AllPresent(members: seq<Member>)
    requires forall i :: 0 <= i < |members| ==> members[i].value != Undefined
    ensures Present(members) == members
  {
    if members == [] {
    } else {
      AllPresent(members[1..]);
      assert members == [members[0]] + members[1..];
    }
  }

  lemma {:induction false} NormalIsDefined(v: Json)
    ensures Normal(v) == Undefined <==> v == Undefined
  {
    hide Written, NormalMembers;
  }

  /** The members of a normal form are written as they stand. */
  lemma {:induction false} NormalIsWritten(v: Json)
    requires v.Obj?
    ensures forall m :: m in Written(v.members) ==> m in v.members && m.value != Undefined
    ensures Written(NormalMembers(v, Written(v.members))) == NormalMembers(v, Written(v.members))
  {
    var list := Written(v.members);
    WrittenAreMembers(v.members);
    KeyOrder();
    SortOrders(Present(v.members), KeyAtMost);
    NormalMembersHold(v, list);
    hide Present, Sort, NormalMembers, Normal, AtMost;
    var normal := NormalMembers(v, list);
    forall i | 0 <= i < |normal| ensures normal[i].value != Undefined {
      assert list[i] in list;
      NormalIsDefined(list[i].value);
    }
    AllPresent(normal);
    SortOfOrdered(normal, KeyAtMost);
  }

  /** Dropping undefined members and sorting keys once is enough. */
  lemma {:induction false} NormalIsNormal(v: Json)
    ensures Normal(Normal(v)) == Normal(v)
    decreases v
  {
    hide Written, NormalMembers;
    match v {
      case Arr(items) =>
        forall i | 0 <= i < |items| ensures Normal(Normal(items[i])) == Normal(items[i]) { NormalIsNormal(items[i]); }
      case Obj(members) =>
        var list := Written(members);
        NormalIsWritten(v);
        forall m | m in list ensures Normal(Normal(m.value)) == Normal(m.value) {
          ValueIsPart(v, m);
          NormalIsNormal(m.value);
        }
        MembersAreNormal(v, list);
      case _ =>
    }
  }

  lemma {:induction false} MembersAreNormal(v: Json, list: seq<Member>)
    requires v.Obj? && forall m :: m in list ==> m in v.members
    requires forall m :: m in list ==> Normal(Normal(m.value)) == Normal(m.value)
    ensures NormalMembers(Obj(NormalMembers(v, list)), NormalMembers(v, list)) == NormalMembers(v, list)
  {
    var normal := NormalMembers(v, list);
    NormalMembersHold(v, list);
    NormalMembersHold(Obj(normal), normal);
    hide NormalMembers, Normal;
    var again := NormalMembers(Obj(normal), normal);
    forall i | 0 <= i < |normal| ensures again[i] == normal[i] {
      assert list[i] in list;
    }
  }

  /** Dropping undefined members changes neither whether a value can be rendered nor its text. */
  lemma {:induction false} NormalFormRendersAlike(v: Json, indent: nat)
    ensures CanonicalCorpusJson(Normal(v), indent) == CanonicalCorpusJson(v, indent)
  {
    hide Normal, Render;
    NormalIsNormal(v);
    NormalRenders(Normal(v), v, indent, 0);
  }
}
