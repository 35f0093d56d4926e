/** Capture and live forwarding of a child's output (`workspace_executor/process.rs`). */
module ProcessOutput {
  import opened Common
  import opened Utf8
  import opened ChunkDecoder

  /** A `terminal.output` event: valid text in `data`, anything else in `data_bytes`. */
  datatype TerminalEvent = TextEvent(data: Text) | BinaryEvent(dataBytes: Bytes)

  function Payload(event: TerminalEvent): Bytes {
    match event
    case TextEvent(data) => data
    case BinaryEvent(dataBytes) => dataBytes
  }

  function Payloads(events: seq<TerminalEvent>): Bytes {
    if events == [] then [] else Payloads(events[..|events| - 1]) + Payload(events[|events| - 1])
  }

  predicate AllText(events: seq<TerminalEvent>) {
    forall e :: e in events ==> e.TextEvent?
  }

  /** `forward_chunk`: an empty chunk sends nothing. */
  function Forward(events: seq<TerminalEvent>, bytes: Bytes): (r: seq<TerminalEvent>)
    ensures Payloads(r) == Payloads(events) + bytes
    ensures Valid(bytes) && AllText(events) ==> AllText(r)
  {
    if bytes == [] then events
    else
      var event := if Valid(bytes) then TextEvent(bytes) else BinaryEvent(bytes);
      assert (events + [event])[..|events|] == events;
      events + [event]
  }

  /** `capture_chunk`'s bounded buffer. */
  function Capture(data: Bytes, chunk: Bytes, limit: nat): Bytes {
    if |data| < limit then data + chunk[..Min(limit - |data|, |chunk|)] else data
  }

  lemma CaptureIsCappedPrefix(seen: Bytes, chunk: Bytes, limit: nat)
    ensures Capture(seen[..Min(limit, |seen|)], chunk, limit) == (seen + chunk)[..Min(limit, |seen + chunk|)]
  {
  }

  lemma Regroup(a: Bytes, b: Bytes, c: Bytes, d: Bytes, e: Bytes)
    requires b + c == d + e
    ensures (a + b) + c == (a + d) + e
  {
    assert (a + b) + c == a + (b + c) && (a + d) + e == a + (d + e);
  }

  /** One pipe being drained: the bounded capture, the decoder and the events sent so far. */
  class StreamReader {
    const limit: nat
    const decoder: Utf8ChunkDecoder
    var data: Bytes
    var events: seq<TerminalEvent>

    constructor (limit: nat)
      ensures fresh(decoder) && this.limit == limit && Tracks([]) && AllText(events) && decoder.pending == []
    {
      this.limit := limit;
      decoder := new Utf8ChunkDecoder();
      data, events := [], [];
    }

    /** The reader is where it should be after the bytes `seen`. */
    ghost predicate Tracks(seen: Bytes)
      reads this, decoder
    {
      data == seen[..Min(limit, |seen|)] && Payloads(events) + decoder.pending == seen
    }

    /** `rest` is what the child still has to write. */
    method CaptureChunk(chunk: Bytes, ghost seen: Bytes, ghost rest: Bytes)
      requires Tracks(seen)
      modifies this, decoder
      ensures Tracks(seen + chunk)
      ensures old(Valid(decoder.pending + (chunk + rest)) && AllText(events)) ==>
                Valid(decoder.pending + rest) && AllText(events)
    {
      hide Valid, Released, Withheld, Payloads, Lossy, AllText, Capture, Forward;
      CaptureIsCappedPrefix(seen, chunk, limit);
      ChunkCut(decoder.pending, chunk, rest);
      Regroup(Payloads(events), Released(decoder.pending, chunk), Withheld(decoder.pending, chunk),
              decoder.pending, chunk);
      data := Capture(data, chunk, limit);
      var raw := decoder.DecodeBytes(chunk);
      events := Forward(events, raw);
    }

    /** True end of file: emit any withheld partial sequence. */
    method Finish(ghost seen: Bytes)
      requires Tracks(seen)
      modifies this, decoder
      ensures data == old(data) && Payloads(events) == seen
      ensures old(Valid(decoder.pending) && AllText(events)) ==> AllText(events)
    {
      var tail := decoder.FlushBytes();
      events := Forward(events, tail);
    }
  }

  /** Drain one pipe to its end. Whatever the read sizes, the capture is the
      capped prefix of the output, the forwarded events carry the output exactly,
      and if the output is valid UTF-8 every event is a text event. */
  method ReadStream(chunks: seq<Bytes>, limit: nat) returns (data: Bytes, events: seq<TerminalEvent>)
    ensures data == Concat(chunks)[..Min(limit, |Concat(chunks)|)]
    ensures Payloads(events) == Concat(chunks)
    ensures Valid(Concat(chunks)) ==> AllText(events)
  {
    hide Valid, Payloads, AllText;
    var reader := new StreamReader(limit);
    ghost var seen: Bytes := [];
    ghost var whole := Concat(chunks);
    assert seen + whole == whole;
    var i := 0;
    while i < |chunks|
      invariant 0 <= i <= |chunks| && reader.limit == limit
      invariant fresh(reader) && fresh(reader.decoder)
      invariant seen + Concat(chunks[i..]) == whole
      invariant reader.Tracks(seen)
      invariant Valid(whole) ==> Valid(reader.decoder.pending + Concat(chunks[i..])) && AllText(reader.events)
    {
      assert chunks[i..][1..] == chunks[i + 1..];
      Regroup(seen, chunks[i], Concat(chunks[i + 1..]), [], Concat(chunks[i..]));
      reader.CaptureChunk(chunks[i], seen, Concat(chunks[i + 1..]));
      seen := seen + chunks[i];
      i := i + 1;
    }
    assert reader.decoder.pending + Concat(chunks[i..]) == reader.decoder.pending;
    reader.Finish(seen);
    return reader.data, reader.events;
  }

  // ---------------------------------------------------------------------------
  // `bounded`: the capped result field.
  // ---------------------------------------------------------------------------

  datatype Json = Str(text: Text) | Arr(bytes: Bytes)

  function Bounded(bytes: Bytes, max: nat): Json {
    var slice := bytes[..Min(|bytes|, max)];
    if Valid(slice) then Str(slice)
    else
      var stable := Released([], slice);
      if Valid(stable) then Str(stable) else Arr(slice)
  }

  /** On text, the cap never turns the result into an array: the result is the
      longest valid prefix within the cap, at most three bytes short of it. */
  lemma BoundedText(bytes: Bytes, max: nat)
    requires Valid(bytes)
    ensures Bounded(bytes, max).Str?
    ensures var t, c := Bounded(bytes, max).text, Min(|bytes|, max);
            t <= bytes && |t| <= c <= |t| + 3
            && forall n :: |t| < n <= c ==> !Valid(bytes[..n])
  {
    hide Valid, LastLead;
    var c := Min(|bytes|, max);
    var slice := bytes[..c];
    SliceReleases(bytes, c);
    var n := SafeSplit(slice);
    if !Valid(slice) {
      forall m | n < m <= c ensures !Valid(bytes[..m]) {
        NoLongerText(bytes, n, m, c);
      }
    }
  }

  /** The part of a slice of text that is safe to decode is text. */
  lemma SliceReleases(bytes: Bytes, c: nat)
    requires Valid(bytes) && c <= |bytes|
    ensures var slice := bytes[..c];
            var n := SafeSplit(slice);
            Released([], slice) == bytes[..n] && Valid(bytes[..n])
  {
    hide Valid, SafeSplit;
    var slice, rest := bytes[..c], bytes[c..];
    assert bytes == [] + (slice + rest);
    assert [] + slice == slice;
    ChunkCut([], slice, rest);
    assert bytes[..SafeSplit(slice)] == slice[..SafeSplit(slice)];
  }

  lemma NoLongerText(bytes: Bytes, n: nat, m: nat, c: nat)
    requires n < m <= c <= |bytes|
    requires n == LastLead(bytes[..c]) && c - n < Width(bytes[n])
    ensures !Valid(bytes[..m])
  {
    var p := bytes[..m];
    assert bytes[..c][n] == p[n];
    LeadIsBoundary(p, n);
    ValidAtBoundary(p, n);
  }

  /** The bytes end in a lead byte that announces more than is there, after valid text. */
  predicate EndsInTruncatedCharacter(s: Bytes) {
    var i := LastLead(s);
    i >= 0 && |s| - i < Width(s[i]) && Valid(s[..i])
  }

  /** Under the cap, output is reported byte for byte exactly when it does not
      end in such a truncated character. */
  lemma BoundedExact(bytes: Bytes, max: nat)
    requires |bytes| <= max
    ensures (match Bounded(bytes, max) case Str(t) => t == bytes case Arr(b) => b == bytes)
            <==> !EndsInTruncatedCharacter(bytes)
  {
    assert bytes[..|bytes|] == bytes && [] + bytes == bytes;
    if EndsInTruncatedCharacter(bytes) {
      NoLongerText(bytes, LastLead(bytes), |bytes|, |bytes|);
    }
  }

  /** So an uncapped binary output can come back as shorter text. */
  lemma BoundedLosesBinaryTail()
    ensures var b: Bytes := [0x61, 0xF0, 0x80]; !Valid(b) && Bounded(b, 100) == Str([0x61])
  {
    var b: Bytes := [0x61, 0xF0, 0x80];
    assert b[..3] == b && [] + b == b;
    assert LastLead(b) == 1 by {
      assert b[..2] == [0x61, 0xF0];
    }
    assert b[..1] == [0x61] && b[1..] == [0xF0, 0x80];
    assert Valid(b[..1]) by { assert b[..1][1..] == []; }
    NoLongerText(b, 1, 3, 3);
  }
}
