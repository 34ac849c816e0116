/** Which lines make a managed block, said of the lines of the text alone. */
module CarrierBlocks {
  import opened Text
  import opened Carrier
  import opened CarrierPrologue

  predicate Opens(text: string, p: nat, d: Delimiters)
    requires p <= |text|
  {
    LineAt(text, p).terminated && TrimEnd(LineAt(text, p).content) == OpenLine(d)
  }

  predicate Closes(text: string, p: nat, d: Delimiters)
    requires p <= |text|
  {
    TrimEnd(LineAt(text, p).content) == CloseLine(d)
  }

  /** A line that may stand inside: any in a block comment, a comment in one made of lines. */
  predicate MayStandInside(text: string, p: nat, d: Delimiters)
    requires p <= |text|
  {
    d.Line? ==> StartsWith(TrimStart(LineAt(text, p).content), d.prefix)
  }

  /** The line at `c`, reached from `from` over lines that may stand inside, is the first that closes. */
  ghost predicate ClosesFirst(text: string, from: nat, c: nat, d: Delimiters) {
    && from <= c < |text| && BeginsLine(text, from, c) && Closes(text, c, d)
    && forall p :: from <= p < c && BeginsLine(text, from, p) ==> !Closes(text, p, d) && MayStandInside(text, p, d)
  }

  lemma {:induction false} BeginsFurther(text: string, from: nat, next: nat, p: nat)
    requires from <= |text| && from < |text| && next == LineAt(text, from).next
    ensures BeginsLine(text, from, p) && p > from ==> BeginsLine(text, next, p)
    ensures p < |text| && BeginsLine(text, next, p) ==> BeginsLine(text, from, p) && p > from
  {
    if BeginsLine(text, from, p) && from < p <= next { NextBegins(text, from, from, p); }
  }

  lemma {:induction false} FirstFurther(text: string, from: nat, c: nat, d: Delimiters)
    requires from < |text| && !Closes(text, from, d)
    ensures ClosesFirst(text, from, c, d)
            <==> MayStandInside(text, from, d) && ClosesFirst(text, LineAt(text, from).next, c, d)
  {
    hide LineAt, Closes, MayStandInside, BeginsLine;
    var next := LineAt(text, from).next;
    forall p: nat
      ensures BeginsLine(text, from, p) && p > from ==> BeginsLine(text, next, p)
      ensures p < |text| && BeginsLine(text, next, p) ==> BeginsLine(text, from, p) && p > from
    {
      BeginsFurther(text, from, next, p);
    }
    BeginsItself(text, from);
    forall p: nat | BeginsLine(text, next, p) ensures p >= next { AtOrBehind(text, next, p); }
  }

  lemma {:induction false} BeginsItself(text: string, from: nat)
    requires from <= |text|
    ensures BeginsLine(text, from, from)
  {}

  lemma {:induction false} AtOrBehind(text: string, from: nat, p: nat)
    requires BeginsLine(text, from, p)
    ensures p >= from
  {}

  lemma {:induction false} SeekCloseIff(text: string, start: nat, from: nat, d: Delimiters, span: Span)
    requires from <= |text|
    ensures SeekClose(text, start, from, d) == Some(span) <==>
              exists c: nat :: ClosesFirst(text, from, c, d) && span == Span(start, c + |LineAt(text, c).content|, LineAt(text, c).next)
    decreases |text| - from
  {
    hide LineAt, Closes, MayStandInside, BeginsLine, ClosesFirst, SeekClose;
    if from == |text| {
      NoneAtTheEnd(text, start, d);
    } else if Closes(text, from, d) {
      ClosedHere(text, start, from, d);
      forall c: nat ensures ClosesFirst(text, from, c, d) <==> c == from { OnlyHere(text, from, c, d); }
    } else {
      var next := LineAt(text, from).next;
      forall c: nat ensures ClosesFirst(text, from, c, d) <==> MayStandInside(text, from, d) && ClosesFirst(text, next, c, d) {
        FirstFurther(text, from, c, d);
      }
      NotClosedHere(text, start, from, d);
      SeekCloseIff(text, start, next, d, span);
    }
  }

  lemma {:induction false} NoneAtTheEnd(text: string, start: nat, d: Delimiters)
    ensures SeekClose(text, start, |text|, d) == None && forall c: nat :: !ClosesFirst(text, |text|, c, d)
  {}

  lemma {:induction false} OnlyHere(text: string, from: nat, c: nat, d: Delimiters)
    requires from < |text| && Closes(text, from, d)
    ensures ClosesFirst(text, from, c, d) <==> c == from
  {
    hide LineAt, Closes, MayStandInside, BeginsLine;
    BeginsItself(text, from);
  }

  lemma {:induction false} ClosedHere(text: string, start: nat, from: nat, d: Delimiters)
    requires from < |text| && Closes(text, from, d)
    ensures SeekClose(text, start, from, d) == Some(Span(start, from + |LineAt(text, from).content|, LineAt(text, from).next))
  {
    hide LineAt, TrimEnd, CloseLine;
  }

  lemma {:induction false} NotClosedHere(text: string, start: nat, from: nat, d: Delimiters)
    requires from < |text| && !Closes(text, from, d)
    ensures SeekClose(text, start, from, d)
            == if MayStandInside(text, from, d) then SeekClose(text, start, LineAt(text, from).next, d) else None
  {
    hide LineAt, TrimEnd, TrimStart, CloseLine, StartsWith;
  }

  /** A block begins with its opening line and ends with the first closing one, over lines that may stand inside. */
  lemma {:induction false} BlockAtIff(text: string, p: nat, d: Delimiters, span: Span)
    requires p <= |text|
    ensures BlockAt(text, p, d) == Some(span) <==>
              && Opens(text, p, d)
              && exists c: nat :: ClosesFirst(text, LineAt(text, p).next, c, d)
                                  && span == Span(p, c + |LineAt(text, c).content|, LineAt(text, c).next)
  {
    hide LineAt, TrimEnd, OpenLine, SeekClose, ClosesFirst;
    SeekCloseIff(text, p, LineAt(text, p).next, d, span);
  }
}
