/** The shape of the canonical text: which keys stand in it and in which order, and how values are spelt. */
module CanonicalJsonForm {
  import opened Ordering
  import opened Text
  import opened CanonicalJson
  import opened CanonicalJsonText

  // ---------- objects ----------

  /** Keys strictly ascending in code-point order. */
  ghost predicate KeysAscend(list: seq<Member>) {
    forall i, j :: 0 <= i < j < |list| ==> Before(list[i].key, list[j].key)
  }

  lemma {:induction false} WrittenKeysAscend(members: seq<Member>)
    requires DistinctKeys(members)
    ensures KeysAscend(Written(members))
  {
    var list := Written(members);
    WrittenAreMembers(members);
    KeyOrder();
    PresentKeys(members);
    SortOrders(Present(members), KeyAtMost);
    SortKeepsDistinct(Present(members), KeyAtMost);
    hide Present, Sort, Written, AtMost, TotalPreorder, DistinctKeys;
    assert Ordered(KeyAtMost, list) && Distinct(list);
    forall i, j | 0 <= i < j < |list| ensures Before(list[i].key, list[j].key) {
      SameKeySameMember(members, list[i], list[j]);
      assert KeyAtMost(list[i], list[j]);
    }
  }

  /** `texts` spells the values of `list`, one each. */
  ghost predicate Spells(list: seq<Member>, texts: seq<string>, indent: nat, depth: nat) {
    |texts| == |list| && forall i :: 0 <= i < |list| ==> Render(list[i].value, indent, depth) == Some(texts[i])
  }

  function MemberTexts(list: seq<Member>, texts: seq<string>, before: string, colon: string): (r: seq<string>)
    requires |list| == |texts|
    ensures |r| == |list|
  {
    seq(|list|, i requires 0 <= i < |list| => before + Quoted(list[i].key) + colon + texts[i])
  }

  lemma {:induction false} MembersForm(v: Json, list: seq<Member>, indent: nat, depth: nat) returns (texts: seq<string>)
    requires v.Obj? && list != [] && forall m :: m in list ==> m in v.members
    requires RenderMembers(v, list, indent, depth).Some?
    ensures Spells(list, texts, indent, depth + 1)
    ensures RenderMembers(v, list, indent, depth).value
            == Join(MemberTexts(list, texts, Pad(indent, depth + 1), Colon(indent)), ",") + Pad(indent, depth) + "}"
    decreases |list|
  {
    hide Render, Pad, Quoted, Colon;
    ValueIsPart(v, list[0]);
    var value := Render(list[0].value, indent, depth + 1).value;
    var head := Pad(indent, depth + 1) + Quoted(list[0].key) + Colon(indent) + value;
    if |list| == 1 {
      texts := [value];
      assert MemberTexts(list, texts, Pad(indent, depth + 1), Colon(indent)) == [head];
    } else {
      var more := MembersForm(v, list[1..], indent, depth);
      texts := [value] + more;
      var rest := MemberTexts(list[1..], more, Pad(indent, depth + 1), Colon(indent));
      assert MemberTexts(list, texts, Pad(indent, depth + 1), Colon(indent)) == [head] + rest;
      hide Join;
      JoinMore(head, rest, ",");
      var joined, close := Join(rest, ","), Pad(indent, depth);
      assert head + "," + (joined + close + "}") == head + "," + joined + close + "}";
    }
  }

  /**
   The text of an object holds each defined member once, keys ascending, each behind its padding and
   with its value's own text; commas between them.
   */
  lemma {:induction false} ObjectForm(v: Json, indent: nat, depth: nat) returns (list: seq<Member>, texts: seq<string>)
    requires v.Obj? && DistinctKeys(v.members) && Render(v, indent, depth).Some?
    ensures KeysAscend(list) && Spells(list, texts, indent, depth + 1)
    ensures forall m :: m in list <==> m in v.members && m.value != Undefined
    ensures Render(v, indent, depth).value
            == if list == [] then "{}"
               else "{" + Join(MemberTexts(list, texts, Pad(indent, depth + 1), if indent > 0 then ": " else ":"), ",")
                    + Pad(indent, depth) + "}"
  {
    WrittenAreMembers(v.members);
    WrittenKeysAscend(v.members);
    list := Written(v.members);
    if list == [] {
      texts := [];
    } else {
      hide Written, Join, Pad;
      texts := MembersForm(v, list, indent, depth);
      var joined := Join(MemberTexts(list, texts, Pad(indent, depth + 1), if indent > 0 then ": " else ":"), ",");
      assert "{" + (joined + Pad(indent, depth) + "}") == "{" + joined + Pad(indent, depth) + "}";
    }
  }

  // ---------- arrays ----------

  function ItemTexts(texts: seq<string>, before: string): (r: seq<string>)
    ensures |r| == |texts|
  {
    seq(|texts|, i requires 0 <= i < |texts| => before + texts[i])
  }

  lemma {:induction false} ItemsForm(v: Json, items: seq<Json>, indent: nat, depth: nat) returns (texts: seq<string>)
    requires v.Arr? && items != [] && forall x :: x in items ==> x in v.items
    requires RenderItems(v, items, indent, depth).Some?
    ensures |texts| == |items| && forall i :: 0 <= i < |items| ==> Render(items[i], indent, depth + 1) == Some(texts[i])
    ensures RenderItems(v, items, indent, depth).value == Join(ItemTexts(texts, Pad(indent, depth + 1)), ",") + Pad(indent, depth) + "]"
    decreases |items|
  {
    hide Render, Pad;
    ItemIsPart(v, items[0]);
    var value := Render(items[0], indent, depth + 1).value;
    var head := Pad(indent, depth + 1) + value;
    if |items| == 1 {
      texts := [value];
      assert ItemTexts(texts, Pad(indent, depth + 1)) == [head];
    } else {
      var more := ItemsForm(v, items[1..], indent, depth);
      texts := [value] + more;
      var rest := ItemTexts(more, Pad(indent, depth + 1));
      assert ItemTexts(texts, Pad(indent, depth + 1)) == [head] + rest;
      hide Join;
      JoinMore(head, rest, ",");
      var joined, close := Join(rest, ","), Pad(indent, depth);
      assert head + "," + (joined + close + "]") == head + "," + joined + close + "]";
    }
  }

  /** The text of an array holds the text of every item, in order. */
  lemma {:induction false} ArrayForm(v: Json, indent: nat, depth: nat) returns (texts: seq<string>)
    requires v.Arr? && Render(v, indent, depth).Some?
    ensures |texts| == |v.items| && forall i :: 0 <= i < |texts| ==> Render(v.items[i], indent, depth + 1) == Some(texts[i])
    ensures Render(v, indent, depth).value
            == if v.items == [] then "[]"
               else "[" + Join(ItemTexts(texts, Pad(indent, depth + 1)), ",") + Pad(indent, depth) + "]"
  {
    if v.items == [] {
      texts := [];
    } else {
      hide Join, Pad;
      texts := ItemsForm(v, v.items, indent, depth);
      var joined := Join(ItemTexts(texts, Pad(indent, depth + 1)), ",");
      assert "[" + (joined + Pad(indent, depth) + "]") == "[" + joined + Pad(indent, depth) + "]";
    }
  }

  // ---------- numbers and strings ----------

  /** The number a run of decimal digits stands for. */
  function DecimalValue(s: string): int {
    if s == [] then 0 else 10 * DecimalValue(s[..|s| - 1]) + (s[|s| - 1] as int - '0' as int)
  }

  /** Decimal digits with the number's value, and no zero in front of another digit. */
  lemma {:induction false} DigitsForm(n: nat)
    ensures DecimalValue(Digits(n)) == n
    ensures forall i :: 0 <= i < |Digits(n)| ==> '0' <= Digits(n)[i] <= '9'
    ensures Digits(n)[0] == '0' ==> Digits(n) == "0"
  {
    if n < 10 {
      assert Digits(n)[..0] == [] && DecimalValue([]) == 0;
    } else {
      DigitsForm(n / 10);
      assert Digits(n)[..|Digits(n)| - 1] == Digits(n / 10);
      assert Digits(n / 10)[0] == '0' ==> DecimalValue("0") == 0 by { assert "0"[..0] == [] && DecimalValue([]) == 0; }
    }
  }

  lemma {:induction false} NumberForm(n: int)
    ensures IntText(n) == if n < 0 then "-" + Digits(-n) else Digits(n)
    ensures n < 0 ==> DecimalValue(IntText(n)[1..]) == -n
    ensures n >= 0 ==> DecimalValue(IntText(n)) == n
  {
    DigitsForm(if n < 0 then -n else n);
    hide Digits;
  }

  /** The escapes of section 7 of RFC 8259 in their short forms, and one without. */
  lemma {:induction false} EscapesAreJson()
    ensures Quoted(['\"', '\\', '/']) == "\"\\\"\\\\/\""
    ensures Quoted(['\n', '\r', '\t']) == "\"\\n\\r\\t\""
    ensures Quoted(['\U{08}', '\U{0C}', '\U{7F}']) == "\"\\b\\f\U{7F}\""
    ensures Quoted(['\U{1F}', '\U{00}', '\U{2028}']) == "\"\\u001f\\u0000\U{2028}\""
  {
    hide Escaped;
    ThreeEscaped('\"', '\\', '/');
    ThreeEscaped('\n', '\r', '\t');
    ThreeEscaped('\U{08}', '\U{0C}', '\U{7F}');
    ThreeEscaped('\U{1F}', '\U{00}', '\U{2028}');
  }

  lemma {:induction false} ThreeEscaped(a: char, b: char, c: char)
    ensures Escaped([a, b, c]) == EscapeChar(a) + EscapeChar(b) + EscapeChar(c)
  {
    hide EscapeChar;
    assert [a, b, c][1..] == [b, c] && [b, c][1..] == [c] && [c][1..] == [];
    assert Escaped([c]) == EscapeChar(c) + Escaped([]);
    assert Escaped([b, c]) == EscapeChar(b) + Escaped([c]);
  }
}
