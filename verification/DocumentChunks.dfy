/** Chunking of src/corpus_embeddings.ts: windows of 1,000 characters every 900, at most eight, up to a blank one. */
module DocumentChunks {
  import opened Text

  const CHUNK_CHARACTERS: nat := 1000
  const OVERLAP_CHARACTERS: nat := 100
  const STRIDE: nat := 900
  const MAX_CHUNKS: nat := 8

  /** Non-blank parts, trimmed, one a line. */
  function Parts(parts: seq<string>): seq<string> {
    if parts == [] then []
    else (if Trim(parts[0]) == [] then [] else [Trim(parts[0])]) + Parts(parts[1..])
  }

  /** The text that is embedded: title and headings, then the normalised body. */
  function EmbeddedText(title: string, headings: seq<string>, body: string): string {
    var lead := Join(Parts([title] + headings), "\n");
    Join((if lead == [] then [] else [lead]) + (if Trim(body) == [] then [] else [Trim(body)]), "\n")
  }

  function Window(text: string, index: nat): (w: string)
    requires index * STRIDE <= |text|
    ensures |w| <= CHUNK_CHARACTERS
  {
    var offset := index * STRIDE;
    text[offset..if offset + CHUNK_CHARACTERS <= |text| then offset + CHUNK_CHARACTERS else |text|]
  }

  predicate Blank(text: string) {
    Trim(text) == []
  }

  /** What the chunks are: the first windows, none of them blank, and why there are no more. */
  predicate AreChunks(text: string, chunks: seq<string>) {
    && |chunks| <= MAX_CHUNKS
    && (forall k: nat :: k < |chunks| ==> k * STRIDE < |text| && chunks[k] == Window(text, k) && !Blank(chunks[k]))
    && (|chunks| == MAX_CHUNKS || |chunks| * STRIDE >= |text| || Blank(Window(text, |chunks|)))
  }

  method ChunkDocument(title: string, headings: seq<string>, body: string) returns (chunks: seq<string>)
    ensures AreChunks(EmbeddedText(title, headings, body), chunks)
  {
    hide Trim, Join, Parts;
    var text := EmbeddedText(title, headings, body);
    chunks := [];
    var offset: nat, index: nat := 0, 0;
    while offset < |text| && index < MAX_CHUNKS
      invariant offset == index * STRIDE && index == |chunks| <= MAX_CHUNKS
      invariant forall k: nat :: k < |chunks| ==> k * STRIDE < |text| && chunks[k] == Window(text, k) && !Blank(chunks[k])
      decreases MAX_CHUNKS - index
    {
      var slice := Window(text, index);
      if |Trim(slice)| == 0 { return; }
      chunks := chunks + [slice];
      offset, index := offset + STRIDE, index + 1;
    }
  }

  /** The chunks put together again, each without what it shares with the one before. */
  function Reassembled(chunks: seq<string>): string {
    if chunks == [] then []
    else
      var last := |chunks| - 1;
      if last == 0 then chunks[0]
      else Reassembled(chunks[..last]) + chunks[last][if OVERLAP_CHARACTERS <= |chunks[last]| then OVERLAP_CHARACTERS else |chunks[last]|..]
  }

  /** How far the windows reach. */
  function Reach(text: string, n: nat): (r: nat)
    ensures r <= |text|
  {
    if n == 0 then 0
    else
      var end := (n - 1) * STRIDE + CHUNK_CHARACTERS;
      if end <= |text| then end else |text|
  }

  /** Consecutive chunks overlap, so together they are a prefix of the text: nothing inside is lost. */
  lemma {:induction false} ChunksReassemble(text: string, chunks: seq<string>)
    requires forall k: nat :: k < |chunks| ==> k * STRIDE < |text| && chunks[k] == Window(text, k)
    ensures Reassembled(chunks) == text[..Reach(text, |chunks|)]
    decreases |chunks|
  {
    if |chunks| <= 1 {
    } else {
      var last := |chunks| - 1;
      ChunksReassemble(text, chunks[..last]);
      var from, to := Reach(text, last), Reach(text, last + 1);
      var skip := if OVERLAP_CHARACTERS <= |chunks[last]| then OVERLAP_CHARACTERS else |chunks[last]|;
      assert chunks[last] == text[last * STRIDE..to];
      assert last * STRIDE + skip == from;
      assert chunks[last][skip..] == text[from..to];
      assert text[..from] + text[from..to] == text[..to];
    }
  }

  lemma {:induction false} TrimHolds(s: string, i: nat)
    requires i < |s| && !IsSpace(s[i])
    ensures Trim(s) != []
  {
    TrimEndHolds(s, i);
    TrimStartHolds(TrimEnd(s), i);
  }

  lemma {:induction false} TrimEndHolds(s: string, i: nat)
    requires i < |s| && !IsSpace(s[i])
    ensures i < |TrimEnd(s)| && TrimEnd(s)[i] == s[i]
  {
    hide IsSpace;
    if IsSpace(s[|s| - 1]) { TrimEndHolds(s[..|s| - 1], i); }
  }

  lemma {:induction false} TrimStartHolds(s: string, i: nat)
    requires i < |s| && !IsSpace(s[i])
    ensures TrimStart(s) != []
  {
    hide IsSpace;
    if IsSpace(s[0]) { TrimStartHolds(s[1..], i - 1); }
  }

  /** The whole text is embedded exactly when it fits the eight windows and none of them is blank. */
  lemma {:induction false} NothingIsLostIff(text: string, chunks: seq<string>)
    requires AreChunks(text, chunks) && (text == [] || !IsSpace(text[|text| - 1]))
    ensures Reassembled(chunks) == text
            <==> |text| <= (MAX_CHUNKS - 1) * STRIDE + CHUNK_CHARACTERS && forall k: nat :: k < MAX_CHUNKS && k * STRIDE < |text| ==> !Blank(Window(text, k))
  {
    hide IsSpace, Trim;
    ChunksReassemble(text, chunks);
    var n := |chunks|;
    assert text[..|text|] == text;
    if n < MAX_CHUNKS && n * STRIDE < |text| && n * STRIDE + CHUNK_CHARACTERS >= |text| {
      var w := Window(text, n);
      assert w[|w| - 1] == text[|text| - 1];
      TrimHolds(w, |w| - 1);
    }
    if Reassembled(chunks) == text {
      assert Reach(text, n) == |text|;
      forall k: nat | k < MAX_CHUNKS && k * STRIDE < |text| ensures !Blank(Window(text, k)) {
        if k < n { assert chunks[k] == Window(text, k); } else { LastWindow(text, k, n); }
      }
    }
  }

  /** A window that starts before the end but behind the reached text's last window is the text's end. */
  lemma {:induction false} LastWindow(text: string, k: nat, n: nat)
    requires n <= k && k * STRIDE < |text| && Reach(text, n) == |text| && !IsSpace(text[|text| - 1])
    ensures !Blank(Window(text, k))
  {
    hide IsSpace, Trim;
    assert n >= 1 && (n - 1) * STRIDE + CHUNK_CHARACTERS >= |text|;
    var w := Window(text, k);
    assert w == text[k * STRIDE..];
    assert w[|w| - 1] == text[|text| - 1];
    TrimHolds(w, |w| - 1);
  }
}
