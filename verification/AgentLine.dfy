/** The forkd agent's bounded line reader (`agent/mod.rs`): one NDJSON line from a buffered
    socket, however the socket cuts the bytes into buffers. */
module AgentLine {
  import opened Common

  const MAX_LINE: nat := 1024 * 1024
  const NEWLINE: Byte := 10
  const RETURN: Byte := 13

  datatype Incoming = Line(bytes: Bytes) | Eof | Overflow | Blank

  // ---------------------------------------------------------------------------
  // What a line is, as a function of the bytes still to come.
  // ---------------------------------------------------------------------------

  /** The bytes through the first newline, or all of them. */
  function LineLen(s: Bytes): (n: nat)
    ensures n <= |s| && (n == 0 <==> s == [])
  {
    if s == [] then 0 else if s[0] == NEWLINE then 1 else 1 + LineLen(s[1..])
  }

  /** A newline is still to come. */
  predicate Terminated(s: Bytes) {
    s != [] && (s[0] == NEWLINE || Terminated(s[1..]))
  }

  function TrimLine(s: Bytes): Bytes {
    if s != [] && (s[|s| - 1] == NEWLINE || s[|s| - 1] == RETURN) then TrimLine(s[..|s| - 1]) else s
  }

  function NextLine(s: Bytes): Incoming {
    if LineLen(s) > MAX_LINE then Overflow
    else if s == [] then Eof
    else
      var line := TrimLine(s[..LineLen(s)]);
      if line == [] then Blank else Line(line)
  }

  lemma {:induction false} LineEnds(s: Bytes)
    ensures var n := LineLen(s);
            && (forall i :: 0 <= i < n - 1 ==> s[i] != NEWLINE)
            && (if Terminated(s) then s[n - 1] == NEWLINE else n == |s| && (n > 0 ==> s[n - 1] != NEWLINE))
  {
    if s != [] && s[0] != NEWLINE {
      LineEnds(s[1..]);
    }
  }

  /** A line is too large exactly when it has more than 1 MiB, its newline included. */
  lemma OverflowExact(s: Bytes)
    ensures NextLine(s) == Overflow <==> LineLen(s) > 0x10_0000
    ensures NextLine(s) == Eof <==> s == []
  {
    hide LineLen, TrimLine;
  }

  lemma {:induction false} NoNewline(s: Bytes, k: nat)
    requires k <= |s| && forall i :: 0 <= i < k ==> s[i] != NEWLINE
    ensures LineLen(s) == k + LineLen(s[k..]) && (Terminated(s) <==> Terminated(s[k..]))
  {
    if k > 0 {
      NoNewline(s[1..], k - 1);
      assert s[1..][k - 1..] == s[k..];
    } else {
      assert s[0..] == s;
    }
  }

  lemma LineFound(s: Bytes, k: nat)
    requires k < |s| && s[k] == NEWLINE && forall i :: 0 <= i < k ==> s[i] != NEWLINE
    ensures LineLen(s) == k + 1 && Terminated(s)
  {
    NoNewline(s, k);
  }

  lemma MoveOver(consumed: Bytes, rest: Bytes, part: Bytes)
    requires part <= rest
    ensures consumed + rest == consumed + part + rest[|part|..]
  {
    assert rest == part + rest[|part|..];
  }

  // ---------------------------------------------------------------------------
  // The reader.
  // ---------------------------------------------------------------------------

  datatype IoError = Interrupted | Broken

  /** A buffered reader over the bytes that arrive before the peer closes or, if `broken`,
      before the connection fails. `cuts` decides how many bytes each `fill_buf` shows, and
      `pauses` how often it is interrupted first, at each position. */
  class Reader {
    const input: Bytes
    const broken: bool
    const cuts: nat -> nat
    const pauses: nat -> nat
    var pos: nat
    var paused: nat

    ghost predicate Valid()
      reads this
    {
      pos <= |input| && paused <= pauses(pos)
    }

    /** The bytes not consumed yet. */
    ghost function Rest(): Bytes
      requires Valid()
      reads this
    {
      input[pos..]
    }

    constructor (input: Bytes, broken: bool, cuts: nat -> nat, pauses: nat -> nat)
      ensures Valid() && Rest() == input && this.broken == broken
    {
      this.input, this.broken, this.cuts, this.pauses, pos, paused := input, broken, cuts, pauses, 0, 0;
    }

    /** Some bytes that come next, none only at a clean end of the stream, or an error. */
    method FillBuf() returns (r: Result<Bytes, IoError>)
      requires Valid()
      modifies this`paused
      ensures Valid()
      ensures if r.Err? && r.error.Interrupted? then paused == old(paused) + 1 else paused == old(paused)
      ensures r == Err(Broken) ==> broken && Rest() == []
      ensures r.Ok? ==> r.value <= Rest() && (r.value == [] <==> Rest() == []) && (r.value == [] ==> !broken)
    {
      if paused < pauses(pos) {
        paused := paused + 1;
        return Err(Interrupted);
      }
      if pos == |input| && broken {
        return Err(Broken);
      }
      var n := Min(|input| - pos, 1 + cuts(pos));
      assert input[pos..pos + n] == input[pos..][..n];
      return Ok(input[pos..pos + n]);
    }

    /** An interrupted read is simply tried again. */
    method FillBufRetrying() returns (r: Result<Bytes, IoError>)
      requires Valid()
      modifies this`paused
      ensures Valid() && Rest() == old(Rest())
      ensures r.Err? ==> r == Err(Broken) && broken && Rest() == []
      ensures r.Ok? ==> r.value <= Rest() && (r.value == [] <==> Rest() == []) && (r.value == [] ==> !broken)
    {
      while true
        invariant Valid()
        decreases pauses(pos) - paused
      {
        r := FillBuf();
        if r.Ok? || r.error.Broken? {
          return;
        }
      }
    }

    method Consume(n: nat)
      requires Valid() && n <= |Rest()|
      modifies this`pos, this`paused
      ensures Valid() && pos == old(pos) + n && Rest() == old(Rest())[n..]
    {
      pos := pos + n;
      paused := 0;
    }

    /** Consume one line; keep it unless it outgrows the cap. The buffer only grows while the
        line is read, and never past the cap. */
    method FillLine() returns (line: Bytes, overflow: bool, complete: bool, failed: bool)
      requires Valid()
      modifies this`pos, this`paused
      ensures Valid() && pos == old(pos) + LineLen(old(Rest()))
      ensures failed <==> broken && !Terminated(old(Rest()))
      ensures overflow <==> LineLen(old(Rest())) > MAX_LINE
      ensures !overflow ==> line + Rest() == old(Rest()) && (!failed ==> (complete <==> line != []))
      ensures |line| <= MAX_LINE
    {
      hide LineLen, Terminated, Rest;
      ghost var all, consumed: Bytes := Rest(), [];
      line, overflow, complete, failed := [], false, false, false;
      assert !Terminated([]) by { NothingTerminated(); }
      while true
        invariant Valid() && pos == old(pos) + |consumed| && all == consumed + Rest()
        invariant LineLen(all) == |consumed| + LineLen(Rest()) && (Terminated(all) <==> Terminated(Rest()))
        invariant |line| <= MAX_LINE && !failed
        invariant overflow <==> |consumed| > MAX_LINE
        invariant !overflow ==> line == consumed
        decreases |input| - pos
      {
        var filled := FillBufRetrying();
        if filled.Err? {
          failed := true;
          break;
        }
        var available := filled.value;
        if available == [] {
          complete := line != [];
          break;
        }
        var newline := Position(available);
        if newline.Some? {
          var take := newline.value + 1;
          LineFound(Rest(), newline.value);
          MoveOver(consumed, Rest(), available[..take]);
          var part := available[..take];
          consumed := consumed + part;
          if |line| + take > MAX_LINE {
            overflow := true;
          } else {
            line := line + part;
          }
          Consume(take);
          complete := true;
          break;
        } else {
          NoNewline(Rest(), |available|);
          MoveOver(consumed, Rest(), available);
          consumed := consumed + available;
          if |line| + |available| > MAX_LINE {
            overflow := true;
          }
          if !overflow {
            line := line + available;
          }
          Consume(|available|);
        }
      }
    }

    /** The result and the position after it depend only on the bytes to come and on how
        the stream ends, not on buffers or interruptions. A failed connection is an error
        exactly when it cuts a line short. */
    method ReadIncoming() returns (r: Result<Incoming, IoError>)
      requires Valid()
      modifies this`pos, this`paused
      ensures Valid() && pos == old(pos) + LineLen(old(Rest()))
      ensures r == if broken && !Terminated(old(Rest())) then Err(Broken) else Ok(NextLine(old(Rest())))
      ensures Rest() == old(Rest())[LineLen(old(Rest()))..]
    {
      hide LineLen, TrimLine, Terminated;
      ghost var all := Rest();
      var line, overflow, complete, failed;
      line, overflow, complete, failed := FillLine();
      assert !overflow ==> line == all[..LineLen(all)];
      if failed {
        return Err(Broken);
      }
      if overflow {
        return Ok(Overflow);
      }
      if !complete {
        return Ok(Eof);
      }
      line := TrimNewlines(line);
      if line == [] {
        return Ok(Blank);
      }
      return Ok(Line(line));
    }
  }

  lemma NothingTerminated()
    ensures !Terminated([])
  {
  }

  method Position(s: Bytes) returns (k: Option<nat>)
    ensures k.Some? ==> k.value < |s| && s[k.value] == NEWLINE && forall i :: 0 <= i < k.value ==> s[i] != NEWLINE
    ensures k.None? ==> forall i :: 0 <= i < |s| ==> s[i] != NEWLINE
  {
    for i := 0 to |s|
      invariant forall j :: 0 <= j < i ==> s[j] != NEWLINE
    {
      if s[i] == NEWLINE {
        return Some(i);
      }
    }
    return None;
  }

  method TrimNewlines(s: Bytes) returns (line: Bytes)
    ensures line == TrimLine(s)
  {
    line := s;
    while line != [] && (line[|line| - 1] == NEWLINE || line[|line| - 1] == RETURN)
      invariant TrimLine(line) == TrimLine(s)
    {
      line := line[..|line| - 1];
    }
  }

  // ---------------------------------------------------------------------------
  // Framed messages.
  // ---------------------------------------------------------------------------

  /** A message that can be sent on a line of its own. */
  predicate Sendable(sent: Sent) {
    && sent.message != [] && |LineOf(sent)| <= MAX_LINE
    && (forall i :: 0 <= i < |sent.message| ==> sent.message[i] != NEWLINE)
    && sent.message[|sent.message| - 1] != RETURN
  }

  /** A message and whether its line ends in CR LF rather than LF. */
  datatype Sent = Sent(message: Bytes, crlf: bool)

  function LineOf(sent: Sent): Bytes {
    sent.message + if sent.crlf then [13, 10] else [10]
  }

  function Framed(lines: seq<Sent>): Bytes {
    if lines == [] then [] else LineOf(lines[0]) + Framed(lines[1..])
  }

  function MessagesOf(lines: seq<Sent>): seq<Bytes> {
    if lines == [] then [] else [lines[0].message] + MessagesOf(lines[1..])
  }

  /** Whatever the line ends in is not part of the message. */
  lemma NextLineOfFramed(sent: Sent, rest: Bytes)
    requires Sendable(sent)
    ensures var s := LineOf(sent) + rest;
            LineLen(s) == |LineOf(sent)| && NextLine(s) == Line(sent.message) && s[|LineOf(sent)|..] == rest
  {
    var message, line := sent.message, LineOf(sent);
    var s, n := line + rest, |line|;
    LineFound(s, n - 1);
    assert s[..n] == line;
    assert line[..n - 1] == if sent.crlf then message + [RETURN] else message;
    if sent.crlf {
      assert TrimLine(line) == TrimLine(message + [RETURN]);
      assert (message + [RETURN])[..|message|] == message;
    }
    assert TrimLine(line) == TrimLine(message);
  }

  ghost predicate AllSendable(lines: seq<Sent>) {
    forall i :: 0 <= i < |lines| ==> Sendable(lines[i])
  }

  lemma NextOfMessages(lines: seq<Sent>)
    requires AllSendable(lines)
    ensures var s := Framed(lines);
            if lines == [] then s == [] && NextLine(s) == Eof
            else NextLine(s) == Line(lines[0].message) && s[LineLen(s)..] == Framed(lines[1..]) && AllSendable(lines[1..])
  {
    hide TrimLine, LineLen, Sendable, LineOf;
    if lines != [] {
      NextLineOfFramed(lines[0], Framed(lines[1..]));
    }
  }

  /** Messages sent one per line, ended by LF or CR LF, are read back in order, however the
      bytes arrive, and then the stream ends. */
  method ReadMessages(lines: seq<Sent>, cuts: nat -> nat, pauses: nat -> nat) returns (received: seq<Bytes>)
    requires AllSendable(lines)
    ensures received == MessagesOf(lines)
  {
    hide NextLine, LineLen, AllSendable, Framed, Terminated;
    var reader := new Reader(Framed(lines), false, cuts, pauses);
    received := [];
    ghost var remaining := lines;
    NextOfMessages(remaining);
    var r := reader.ReadIncoming();
    while r.Ok? && r.value.Line?
      invariant fresh(reader) && reader.Valid() && !reader.broken && AllSendable(remaining)
      invariant received + MessagesOf(remaining) == MessagesOf(lines)
      invariant r == Ok(if remaining == [] then Eof else Line(remaining[0].message))
      invariant remaining != [] ==> reader.Rest() == Framed(remaining[1..]) && AllSendable(remaining[1..])
      decreases |remaining|
    {
      assert received + MessagesOf(remaining) == received + [remaining[0].message] + MessagesOf(remaining[1..]);
      received := received + [r.value.bytes];
      remaining := remaining[1..];
      NextOfMessages(remaining);
      r := reader.ReadIncoming();
    }
  }
}
