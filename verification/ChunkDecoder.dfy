/** Incremental decoding of a byte pipe read in arbitrary chunks
    (`Utf8ChunkDecoder` and `utf8_safe_split`). */
module ChunkDecoder {
  import opened Common
  import opened Utf8

  const MAX_SEQUENCE: nat := 4

  /** Index of the last byte that is not a continuation byte, or -1. */
  function LastLead(s: Bytes): (i: int)
    ensures -1 <= i < |s|
    ensures i >= 0 ==> !IsContinuation(s[i])
    ensures forall j :: i < j < |s| ==> IsContinuation(s[j])
  {
    if s == [] then -1
    else if !IsContinuation(s[|s| - 1]) then |s| - 1
    else LastLead(s[..|s| - 1])
  }

  /** Where to cut: before the last lead byte if its sequence is still short of
      bytes, else at the very end. */
  function SafeSplit(s: Bytes): (n: nat)
    ensures n <= |s| < n + MAX_SEQUENCE
  {
    var i := LastLead(s);
    if i >= 0 && |s| - i < Width(s[i]) then i else |s|
  }

  /** The backward scan of the source, which looks at no more than the last three bytes. */
  method Utf8SafeSplit(bytes: Bytes) returns (split: nat)
    ensures split == SafeSplit(bytes)
  {
    if |bytes| == 0 {
      return 0;
    }
    var start := if |bytes| < MAX_SEQUENCE - 1 then 0 else |bytes| - (MAX_SEQUENCE - 1);
    var index := |bytes|;
    while index > start
      invariant start <= index <= |bytes|
      invariant forall j :: index <= j < |bytes| ==> IsContinuation(bytes[j])
    {
      index := index - 1;
      var byte := bytes[index];
      if byte / 64 != 2 {
        assert LastLead(bytes) == index;
        var expected := Width(byte);
        if expected == 0 {
          return |bytes|;
        }
        if |bytes| - index < expected {
          return index;
        }
        return |bytes|;
      }
    }
    split := |bytes|;
  }

  /** The cut is a decoder boundary whatever bytes arrive later. */
  lemma SafeSplitIsBoundary(s: Bytes, later: Bytes)
    ensures BoundaryAt(s + later, SafeSplit(s))
  {
    var t, i := s + later, LastLead(s);
    if i < 0 {
      ContinuationRunBoundary(t, |s|);
    } else {
      LeadIsBoundary(t, i);
      if SafeSplit(s) == |s| {
        var k := UnitLen(t[i..]);
        assert k <= |s| - i;
        ContinuationRunBoundary(t[i + k..], |s| - i - k);
        assert t[i..][k..] == t[i + k..];
        BoundaryTrans(t, i, |s| - i);
      }
    }
  }

  // ---------------------------------------------------------------------------
  // One chunk, then a whole stream.
  // ---------------------------------------------------------------------------

  /** The bytes released by one chunk. */
  function Released(pending: Bytes, chunk: Bytes): Bytes {
    (pending + chunk)[..SafeSplit(pending + chunk)]
  }

  /** The bytes withheld after it. */
  function Withheld(pending: Bytes, chunk: Bytes): (r: Bytes)
    ensures |r| < MAX_SEQUENCE
    ensures Released(pending, chunk) + r == pending + chunk
  {
    (pending + chunk)[SafeSplit(pending + chunk)..]
  }

  class Utf8ChunkDecoder {
    var pending: Bytes

    constructor ()
      ensures pending == []
    {
      pending := [];
    }

    method Decode(chunk: Bytes) returns (text: Bytes)
      modifies this
      ensures text == Lossy(Released(old(pending), chunk))
      ensures pending == Withheld(old(pending), chunk)
    {
      var raw := DecodeBytes(chunk);
      text := Lossy(raw);
    }

    method Flush() returns (text: Bytes)
      modifies this
      ensures text == Lossy(old(pending)) && pending == []
    {
      text := Lossy(pending);
      pending := [];
    }

    method DecodeBytes(chunk: Bytes) returns (raw: Bytes)
      modifies this
      ensures raw == Released(old(pending), chunk)
      ensures pending == Withheld(old(pending), chunk)
    {
      var bytes := pending + chunk;
      var split := Utf8SafeSplit(bytes);
      pending := bytes[split..];
      raw := bytes[..split];
    }

    method FlushBytes() returns (raw: Bytes)
      modifies this
      ensures raw == old(pending) && pending == []
    {
      raw := pending;
      pending := [];
    }
  }

  /** The raw chunks a decoder releases for `chunks`, the flush at end of stream last. */
  function Stream(pending: Bytes, chunks: seq<Bytes>): (out: seq<Bytes>)
    ensures |out| == |chunks| + 1
    decreases |chunks|
  {
    if chunks == [] then [pending]
    else [Released(pending, chunks[0])] + Stream(Withheld(pending, chunks[0]), chunks[1..])
  }

  /** The text pieces of the same run. */
  function TextStream(pending: Bytes, chunks: seq<Bytes>): seq<Bytes> {
    var raw := Stream(pending, chunks);
    seq(|raw|, i requires 0 <= i < |raw| => Lossy(raw[i]))
  }

  /** Byte-exact mode reproduces the stream. */
  lemma {:induction false} StreamConcatenates(pending: Bytes, chunks: seq<Bytes>)
    ensures Concat(Stream(pending, chunks)) == pending + Concat(chunks)
    decreases |chunks|
  {
    if chunks != [] {
      var next := Withheld(pending, chunks[0]);
      StreamConcatenates(next, chunks[1..]);
      calc {
        Concat(Stream(pending, chunks));
        Released(pending, chunks[0]) + (next + Concat(chunks[1..]));
        (pending + chunks[0]) + Concat(chunks[1..]);
        pending + Concat(chunks);
      }
    }
  }

  /** One chunk cuts the remaining stream at a decoder boundary. */
  lemma ChunkCut(pending: Bytes, chunk: Bytes, rest: Bytes)
    ensures Lossy(pending + (chunk + rest)) == Lossy(Released(pending, chunk)) + Lossy(Withheld(pending, chunk) + rest)
    ensures Valid(pending + (chunk + rest)) <==> Valid(Released(pending, chunk)) && Valid(Withheld(pending, chunk) + rest)
  {
    hide Lossy, Valid, BoundaryAt, SafeSplit;
    var bytes := pending + chunk;
    var whole, n := bytes + rest, SafeSplit(bytes);
    assert whole == pending + (chunk + rest);
    SafeSplitIsBoundary(bytes, rest);
    LossyAtBoundary(whole, n);
    ValidAtBoundary(whole, n);
    assert whole[..n] == Released(pending, chunk) && whole[n..] == Withheld(pending, chunk) + rest;
  }

  /** However the stream is cut, the decoded text is lossy decoding of the whole stream. */
  lemma {:induction false} ChunkedTextIsLossyOfWhole(pending: Bytes, chunks: seq<Bytes>)
    ensures Concat(TextStream(pending, chunks)) == Lossy(pending + Concat(chunks))
    decreases |chunks|
  {
    hide Lossy, Released, Withheld;
    if chunks == [] {
      assert TextStream(pending, chunks) == [Lossy(pending)];
      assert pending + Concat(chunks) == pending;
      assert Concat([Lossy(pending)]) == Lossy(pending) + Concat<Byte>([]);
    } else {
      var next := Withheld(pending, chunks[0]);
      ChunkedTextIsLossyOfWhole(next, chunks[1..]);
      assert TextStream(pending, chunks) == [Lossy(Released(pending, chunks[0]))] + TextStream(next, chunks[1..]);
      ChunkCut(pending, chunks[0], Concat(chunks[1..]));
    }
  }

  /** If the whole stream is valid UTF-8, so is every piece released, however it is cut. */
  lemma {:induction false} ValidStreamHasValidPieces(pending: Bytes, chunks: seq<Bytes>)
    requires Valid(pending + Concat(chunks))
    ensures forall piece :: piece in Stream(pending, chunks) ==> Valid(piece)
    decreases |chunks|
  {
    hide Valid, Released, Withheld;
    if chunks == [] {
      assert pending + Concat(chunks) == pending;
    } else {
      ChunkCut(pending, chunks[0], Concat(chunks[1..]));
      ValidStreamHasValidPieces(Withheld(pending, chunks[0]), chunks[1..]);
    }
  }

  /** A pipe read in any chunks, decoded chunk by chunk and flushed at its end: the pieces
      concatenate to lossy decoding of everything that was read. */
  method DecodeAll(chunks: seq<Bytes>) returns (pieces: seq<Bytes>)
    ensures |pieces| == |chunks| + 1
    ensures Concat(pieces) == Lossy(Concat(chunks))
  {
    hide Lossy, Released, Withheld, SafeSplit, Concat;
    var decoder := new Utf8ChunkDecoder();
    pieces := [];
    assert chunks[0..] == chunks;
    for i := 0 to |chunks|
      invariant fresh(decoder) && |pieces| == i
      invariant pieces + TextStream(decoder.pending, chunks[i..]) == TextStream([], chunks)
    {
      TextStreamStep(decoder.pending, chunks[i..]);
      assert chunks[i..][1..] == chunks[i + 1..];
      var text := decoder.Decode(chunks[i]);
      pieces := pieces + [text];
    }
    TextStreamEnd(decoder.pending);
    assert chunks[|chunks|..] == [];
    var tail := decoder.Flush();
    pieces := pieces + [tail];
    ChunkedTextIsLossyOfWhole([], chunks);
    assert [] + Concat(chunks) == Concat(chunks);
  }

  lemma TextStreamStep(pending: Bytes, chunks: seq<Bytes>)
    requires chunks != []
    ensures TextStream(pending, chunks)
            == [Lossy(Released(pending, chunks[0]))] + TextStream(Withheld(pending, chunks[0]), chunks[1..])
  {
    hide Lossy, Released, Withheld;
  }

  lemma TextStreamEnd(pending: Bytes)
    ensures TextStream(pending, []) == [Lossy(pending)]
  {
    hide Lossy;
  }
}
