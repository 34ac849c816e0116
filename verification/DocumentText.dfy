/** The text a document is embedded from: which parts of it, in which order. */
module DocumentText {
  import opened Ordering
  import opened Text
  import opened DocumentChunks

  function AllTrimmed(parts: seq<string>): (r: seq<string>)
    ensures |r| == |parts|
  {
    seq(|parts|, i requires 0 <= i < |parts| => Trim(parts[i]))
  }

  function Solid(): string -> bool {
    (part: string) => !Blank(part)
  }

  lemma {:induction false} PartsAre(parts: seq<string>) returns (at: seq<nat>)
    ensures Picks(parts, Solid(), at) && Parts(parts) == AllTrimmed(Selected(parts, at))
  {
    hide Trim, Selected, AllTrimmed, Solid, Blank;
    if parts == [] {
      at := [];
      PicksNone(Solid());
    } else {
      var rest := PartsAre(parts[1..]);
      at := (if Solid()(parts[0]) then [0] else []) + Shifted(rest);
      PicksMore(parts, Solid(), rest);
      TrimmedFront(parts[0], Selected(parts[1..], rest));
    }
  }

  lemma {:induction false} TrimmedFront(first: string, rest: seq<string>)
    ensures AllTrimmed((if Solid()(first) then [first] else []) + rest)
            == (if Trim(first) == [] then [] else [Trim(first)]) + AllTrimmed(rest)
  {
    hide Trim;
  }

  lemma {:induction false} PartsAppend(parts: seq<string>, last: string)
    ensures Parts(parts + [last]) == Parts(parts) + if Trim(last) == [] then [] else [Trim(last)]
  {
    hide Trim;
    if parts == [] {
      assert [] + [last] == [last];
    } else {
      PartsAppend(parts[1..], last);
      assert (parts + [last])[1..] == parts[1..] + [last];
    }
  }

  lemma {:induction false} JoinLast(lines: seq<string>, last: string, separator: string)
    requires lines != []
    ensures Join(lines + [last], separator) == Join(lines, separator) + separator + last
  {
    if |lines| == 1 {
      assert (lines + [last])[1..] == [last];
    } else {
      JoinLast(lines[1..], last, separator);
      assert (lines + [last])[1..] == lines[1..] + [last];
      var inner := Join(lines[1..], separator);
      assert lines[0] + separator + (inner + separator + last) == lines[0] + separator + inner + separator + last;
    }
  }

  lemma {:induction false} JoinSolid(lines: seq<string>)
    requires forall i :: 0 <= i < |lines| ==> lines[i] != []
    ensures Join(lines, "\n") == [] <==> lines == []
  {}

  lemma {:induction false} PartsSolid(parts: seq<string>)
    ensures forall i :: 0 <= i < |Parts(parts)| ==> Parts(parts)[i] != []
  {
    hide Trim;
    if parts == [] {
    } else {
      PartsSolid(parts[1..]);
    }
  }

  /** Title, headings and body, each trimmed and on lines of its own, blank ones left out, in that order. */
  lemma {:induction false} EmbeddedTextIs(title: string, headings: seq<string>, body: string) returns (at: seq<nat>)
    ensures var parts := [title] + headings + [body];
            Picks(parts, Solid(), at) && EmbeddedText(title, headings, body) == Join(AllTrimmed(Selected(parts, at)), "\n")
  {
    var front := [title] + headings;
    at := PartsAre(front + [body]);
    PartsAppend(front, body);
    PartsSolid(front);
    JoinSolid(Parts(front));
    hide Trim, Parts, Picks, Selected, AllTrimmed;
    var lead := Join(Parts(front), "\n");
    if Parts(front) == [] {
      assert [] + (if Trim(body) == [] then [] else [Trim(body)]) == if Trim(body) == [] then [] else [Trim(body)];
    } else if Trim(body) == [] {
      assert Parts(front) + [] == Parts(front) && [lead] + [] == [lead];
    } else {
      JoinLast(Parts(front), Trim(body), "\n");
      JoinLast([lead], Trim(body), "\n");
    }
  }
}
