/** Chunked search for active content in a PDF against a search of the whole file. */
module PdfScan {
  import opened Bytes
  import opened Substrings

  const OVERLAP := 32

  function Literal(text: string): Bytes {
    seq(|text|, i requires 0 <= i < |text| => (text[i] as int % 256) as byte)
  }

  const PDF_ACTIVE_TOKENS := [Literal("/JavaScript"), Literal("/JS"), Literal("/OpenAction"), Literal("/Launch"),
                              Literal("/EmbeddedFile")]

  predicate AnyOccurs(tokens: seq<Bytes>, text: Bytes) {
    exists k :: 0 <= k < |tokens| && Occurs(tokens[k], text)
  }

  /** The last n bytes, or everything if there are fewer. */
  function Tail(text: Bytes, n: nat): Bytes {
    if |text| <= n then text else text[|text| - n..]
  }

  /** The bytes a reader gets: reading stops at the first empty chunk. */
  function Content(chunks: seq<Bytes>): Bytes {
    if chunks == [] || chunks[0] == [] then [] else chunks[0] + Content(chunks[1..])
  }

  /** The search loop from a given leftover on. */
  predicate Chunked(tokens: seq<Bytes>, overlap: nat, leftover: Bytes, chunks: seq<Bytes>)
    decreases |chunks|
  {
    if chunks == [] || chunks[0] == [] then false
    else
      var window := leftover + chunks[0];
      AnyOccurs(tokens, window) || Chunked(tokens, overlap, Tail(window, overlap), chunks[1..])
  }

  lemma TailOfJoin(read: Bytes, chunk: Bytes, n: nat)
    ensures Tail(Tail(read, n) + chunk, n) == Tail(read + chunk, n)
  {
  }

  /** Occurrences in the end of a text are the occurrences in the text, shifted. */
  lemma OccursFrom(token: Bytes, text: Bytes, from: nat, i: int)
    requires from <= i && from <= |text|
    ensures OccursAt(token, text[from..], i - from) <==> OccursAt(token, text, i)
  {
    if i + |token| <= |text| {
      assert text[from..][i - from..i - from + |token|] == text[i..i + |token|];
    }
  }

  /** An occurrence that is not yet in what was read before lies in the kept tail plus the new chunk. */
  lemma WindowSees(token: Bytes, read: Bytes, chunk: Bytes, n: nat)
    requires |token| <= n + 1 && !Occurs(token, read)
    ensures Occurs(token, Tail(read, n) + chunk) <==> Occurs(token, read + chunk)
  {
    var whole, window := read + chunk, Tail(read, n) + chunk;
    var skipped := |whole| - |window|;
    assert window == whole[skipped..];
    if Occurs(token, whole) {
      var i :| 0 <= i <= |whole| && OccursAt(token, whole, i);
      assert i + |token| <= |read| ==> whole[i..i + |token|] == read[i..i + |token|];
      assert !OccursAt(token, read, i);
      OccursFrom(token, whole, skipped, i);
    }
    if Occurs(token, window) {
      var i :| 0 <= i <= |window| && OccursAt(token, window, i);
      OccursFrom(token, whole, skipped, i + skipped);
    }
  }

  lemma WindowSeesAny(tokens: seq<Bytes>, read: Bytes, chunk: Bytes, n: nat)
    requires forall k :: 0 <= k < |tokens| ==> |tokens[k]| <= n + 1
    requires !AnyOccurs(tokens, read)
    ensures AnyOccurs(tokens, Tail(read, n) + chunk) <==> AnyOccurs(tokens, read + chunk)
  {
    forall k | 0 <= k < |tokens|
      ensures Occurs(tokens[k], Tail(read, n) + chunk) <==> Occurs(tokens[k], read + chunk)
    {
      WindowSees(tokens[k], read, chunk, n);
    }
  }

  lemma OccursInLonger(tokens: seq<Bytes>, text: Bytes, more: Bytes)
    requires AnyOccurs(tokens, text)
    ensures AnyOccurs(tokens, text + more)
  {
    var k :| 0 <= k < |tokens| && Occurs(tokens[k], text);
    var i :| 0 <= i <= |text| && OccursAt(tokens[k], text, i);
    assert OccursAt(tokens[k], text + more, i);
  }

  lemma {:induction false} ChunkedFrom(tokens: seq<Bytes>, n: nat, read: Bytes, chunks: seq<Bytes>)
    requires forall k :: 0 <= k < |tokens| ==> |tokens[k]| <= n + 1
    requires !AnyOccurs(tokens, read)
    ensures Chunked(tokens, n, Tail(read, n), chunks) <==> AnyOccurs(tokens, read + Content(chunks))
    decreases |chunks|
  {
    if chunks == [] || chunks[0] == [] {
      assert read + Content(chunks) == read;
    } else {
      var read' := read + chunks[0];
      assert read + Content(chunks) == read' + Content(chunks[1..]);
      WindowSeesAny(tokens, read, chunks[0], n);
      TailOfJoin(read, chunks[0], n);
      if AnyOccurs(tokens, read') {
        OccursInLonger(tokens, read', Content(chunks[1..]));
      } else {
        ChunkedFrom(tokens, n, read', chunks[1..]);
      }
    }
  }

  /** The loop of the upload check: true exactly when some active token occurs anywhere in the file,
      however the file arrives. */
  method ContainsActiveContent(chunks: seq<Bytes>) returns (found: bool)
    ensures found <==> AnyOccurs(PDF_ACTIVE_TOKENS, Content(chunks))
  {
    var leftover: Bytes := [];
    var i := 0;
    NothingInNothing();
    ChunkedFrom(PDF_ACTIVE_TOKENS, OVERLAP, [], chunks);
    assert chunks[0..] == chunks && [] + Content(chunks) == Content(chunks);
    while i < |chunks| && chunks[i] != []
      invariant 0 <= i <= |chunks|
      invariant Chunked(PDF_ACTIVE_TOKENS, OVERLAP, leftover, chunks[i..])
                <==> AnyOccurs(PDF_ACTIVE_TOKENS, Content(chunks))
    {
      var window := leftover + chunks[i];
      if exists k :: 0 <= k < |PDF_ACTIVE_TOKENS| && Occurs(PDF_ACTIVE_TOKENS[k], window) {
        assert AnyOccurs(PDF_ACTIVE_TOKENS, leftover + chunks[i..][0]);
        return true;
      }
      assert chunks[i..][1..] == chunks[i + 1..];
      leftover := Tail(window, OVERLAP);
      i := i + 1;
    }
    return false;
  }

  lemma NothingInNothing()
    ensures !AnyOccurs(PDF_ACTIVE_TOKENS, [])
    ensures forall k :: 0 <= k < |PDF_ACTIVE_TOKENS| ==> |PDF_ACTIVE_TOKENS[k]| <= OVERLAP + 1
  {
    forall k | 0 <= k < |PDF_ACTIVE_TOKENS| ensures 0 < |PDF_ACTIVE_TOKENS[k]| <= 13 {
    }
  }

  // ---------------------------------------------------------------- how much overlap is enough

  function Singles(text: Bytes): seq<Bytes> {
    if text == [] then [] else [[text[0]]] + Singles(text[1..])
  }

  lemma {:induction false} SinglesHold(text: Bytes)
    ensures Content(Singles(text)) == text
    decreases |text|
  {
    if text != [] {
      SinglesHold(text[1..]);
      assert Singles(text)[1..] == Singles(text[1..]);
      assert Content(Singles(text)) == [text[0]] + text[1..];
    }
  }

  lemma TooShort(token: Bytes, window: Bytes)
    requires |window| < |token|
    ensures !AnyOccurs([token], window)
  {
  }

  lemma {:induction false} SinglesMiss(token: Bytes, n: nat, leftover: Bytes, text: Bytes)
    requires |token| > n + 1 && |leftover| <= n
    ensures !Chunked([token], n, leftover, Singles(text))
    decreases |text|
  {
    if text != [] {
      var window := leftover + [text[0]];
      TooShort(token, window);
      SinglesMiss(token, n, Tail(window, n), text[1..]);
      assert Singles(text)[1..] == Singles(text[1..]);
    }
  }

  /** An overlap finds a token in every split of every file if and only if it is at most one byte
      shorter than the token. */
  lemma OverlapExactly(token: Bytes, n: nat)
    requires token != [] && n > 0
    ensures (forall chunks :: Chunked([token], n, [], chunks) <==> AnyOccurs([token], Content(chunks)))
            <==> |token| <= n + 1
  {
    if |token| <= n + 1 {
      forall chunks
        ensures Chunked([token], n, [], chunks) <==> AnyOccurs([token], Content(chunks))
      {
        ChunkedFrom([token], n, [], chunks);
        assert [] + Content(chunks) == Content(chunks);
      }
    } else {
      SinglesMiss(token, n, [], token);
      SinglesHold(token);
      assert OccursAt([token][0], token, 0);
      assert AnyOccurs([token], Content(Singles(token)));
    }
  }
}
