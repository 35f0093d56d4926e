/** The forkd agent's exec response (`agent/process_exec.rs`): bounded capture of a child's
    streams, their wire form, and shrinking until the response fits the wire. */
module AgentShrink {
  import opened Common
  import opened Utf8

  const MAX_EXEC_STREAM_BYTES: nat := 128 * 1024
  const MAX_RESPONSE: nat := 1024 * 1024
  const BUDGET: nat := 1024 * 1024 - 256
  const MAX_ROUNDS: nat := 24

  // ---------------------------------------------------------------------------
  // Capture.
  // ---------------------------------------------------------------------------

  /** Drain a stream that arrives in `chunks`, keeping its first `limit` bytes. */
  method ReadBounded(chunks: seq<Bytes>, limit: nat) returns (data: Bytes, truncated: bool)
    requires forall i :: 0 <= i < |chunks| ==> chunks[i] != []
    ensures var stream := Concat(chunks);
            data == stream[..Min(limit, |stream|)] && (truncated <==> |stream| > limit)
  {
    data, truncated := [], false;
    ghost var seen: Bytes := [];
    assert chunks[0..] == chunks;
    for i := 0 to |chunks|
      invariant seen + Concat(chunks[i..]) == Concat(chunks)
      invariant data == seen[..Min(limit, |seen|)] && (truncated <==> |seen| > limit)
    {
      var buf := chunks[i];
      ghost var before := seen;
      seen := seen + buf;
      assert chunks[i..][1..] == chunks[i + 1..];
      assert seen + Concat(chunks[i + 1..]) == before + (buf + Concat(chunks[i + 1..]));
      if |data| < limit {
        var take := Min(limit - |data|, |buf|);
        data := data + buf[..take];
        if take < |buf| {
          truncated := true;
        }
      } else {
        truncated := true;
      }
    }
    assert seen == Concat(chunks);
  }

  // ---------------------------------------------------------------------------
  // Serialized size.
  // ---------------------------------------------------------------------------

  /** A captured stream on the wire: a JSON string, or an array of byte values. */
  datatype Wire = Str(bytes: Bytes) | Arr(bytes: Bytes)

  /** The exec response; `hasError` says whether it carries its null `error` key. */
  datatype Response = Response(
    out: Wire, err: Wire, stdout: Wire, stderr: Wire, exitCode: Option<int>, hasError: bool, timedOut: bool, truncated: bool)

  /** Valid UTF-8 travels as a string, anything else byte by byte. */
  function BytesToWire(data: Bytes): Wire {
    if Utf8.Valid(data) then Str(data) else Arr(data)
  }

  function HexDigit(n: nat): Byte
    requires n < 16
  {
    if n < 10 then 48 + n else 87 + n
  }

  /** JSON string escapes. */
  function EscapeByte(b: Byte): (r: Bytes)
    ensures 1 <= |r| <= 6
  {
    if b == 34 || b == 92 then [92, b]
    else if b == 8 then [92, 98]
    else if b == 9 then [92, 116]
    else if b == 10 then [92, 110]
    else if b == 12 then [92, 102]
    else if b == 13 then [92, 114]
    else if b < 32 then [92, 117, 48, 48, HexDigit(b / 16), HexDigit(b % 16)]
    else [b]
  }

  function EscapeAll(s: Bytes): (r: Bytes)
    ensures |s| <= |r| <= 6 * |s|
  {
    if s == [] then [] else EscapeByte(s[0]) + EscapeAll(s[1..])
  }

  function Decimal(n: nat): (r: Bytes)
    ensures |r| >= 1
  {
    if n < 10 then [48 + n] else Decimal(n / 10) + [48 + n % 10]
  }

  function Power10(k: nat): nat {
    if k == 0 then 1 else 10 * Power10(k - 1)
  }

  lemma {:induction false} DecimalLength(n: nat, k: nat)
    requires k > 0 && n < Power10(k)
    ensures |Decimal(n)| <= k
    decreases k
  {
    if n >= 10 {
      assert k > 1;
      DecimalLength(n / 10, k - 1);
    }
  }

  lemma DecimalShort(n: nat)
    ensures n < 1000 ==> |Decimal(n)| <= 3
    ensures n < 0x1_0000_0000 ==> |Decimal(n)| <= 10
  {
    hide Decimal;
    assert Power10(3) == 1000;
    assert Power10(5) == 100 * Power10(3);
    assert Power10(8) == 1000 * Power10(5);
    assert Power10(10) == 100 * Power10(8);
    if n < 1000 {
      DecimalLength(n, 3);
    }
    if n < 0x1_0000_0000 {
      DecimalLength(n, 10);
    }
  }

  /** Byte values separated by commas. */
  function Elements(s: Bytes): (r: Bytes)
    ensures |s| <= |r| <= 4 * |s|
  {
    if s == [] then []
    else
      DecimalShort(s[0]);
      Decimal(s[0]) + (if |s| == 1 then [] else [44]) + Elements(s[1..])
  }

  function WireText(w: Wire): (r: Bytes)
    ensures |w.bytes| <= |r| <= 2 + 6 * |w.bytes|
  {
    match w
    case Str(s) => [34] + EscapeAll(s) + [34]
    case Arr(s) => [91] + Elements(s) + [93]
  }

  function Ascii(s: string): (r: Bytes)
    ensures |r| == |s|
  {
    seq(|s|, i requires 0 <= i < |s| => if s[i] < 128 as char then s[i] as int else 63)
  }

  function BoolText(b: bool): (r: Bytes)
    ensures 4 <= |r| <= 5
  {
    if b then Ascii("true") else Ascii("false")
  }

  predicate IsI32(code: Option<int>) {
    code.Some? ==> -0x8000_0000 <= code.value < 0x8000_0000
  }

  function ExitText(code: Option<int>): (r: Bytes)
    ensures IsI32(code) ==> |r| <= 11
  {
    match code
    case None => Ascii("null")
    case Some(n) =>
      DecimalShort(if n < 0 then -n else n);
      if n < 0 then [45] + Decimal(-n) else Decimal(n)
  }

  /** A key (with what stands before it) and its value. */
  function Field(key: string, value: Bytes): (r: Bytes)
    ensures |r| == |key| + |value|
  {
    Ascii(key) + value
  }

  function OutputFields(r: Response): (s: Bytes)
    ensures OutputBytes(r) <= |s| <= 6 * OutputBytes(r) + 43
  {
    Field("\"err\":", WireText(r.err)) + Field(",\"out\":", WireText(r.out))
    + (Field(",\"stderr\":", WireText(r.stderr)) + Field(",\"stdout\":", WireText(r.stdout)))
  }

  function StatusFields(r: Response): (s: Bytes)
    ensures IsI32(r.exitCode) ==> |s| <= 77
  {
    (if r.hasError then Field(",\"error\":", Ascii("null")) else []) + Field(",\"exit_code\":", ExitText(r.exitCode))
    + (Field(",\"timed_out\":", BoolText(r.timedOut)) + Field(",\"truncated\":", BoolText(r.truncated)))
  }

  /** The response object as serialized, up to the order of its keys. */
  function Serialize(r: Response): (s: Bytes)
    ensures OutputBytes(r) <= |s|
    ensures IsI32(r.exitCode) ==> |s| <= 6 * OutputBytes(r) + 122
  {
    Field("{", OutputFields(r)) + StatusFields(r) + Ascii("}")
  }

  /** The bytes of output in a response, aliases included. */
  function OutputBytes(r: Response): nat {
    |r.out.bytes| + |r.err.bytes| + |r.stdout.bytes| + |r.stderr.bytes|
  }

  // ---------------------------------------------------------------------------
  // Shrinking.
  // ---------------------------------------------------------------------------

  /** The last character boundary at or before `half`. */
  method FloorBoundary(text: Bytes, half: nat) returns (cut: nat)
    requires half <= |text|
    ensures cut == Floor(text, half)
  {
    cut := half;
    while cut > 0 && !IsCharBoundary(text, cut)
      invariant cut <= half && Floor(text, cut) == Floor(text, half)
    {
      cut := cut - 1;
    }
  }

  predicate IsCharBoundary(text: Bytes, i: nat)
    requires i <= |text|
  {
    i == 0 || i == |text| || !IsContinuation(text[i])
  }

  function Floor(text: Bytes, cut: nat): (r: nat)
    requires cut <= |text|
    ensures r <= cut && IsCharBoundary(text, r)
    ensures forall i :: r < i <= cut ==> !IsCharBoundary(text, i)
  {
    if IsCharBoundary(text, cut) then cut else Floor(text, cut - 1)
  }

  /** Half of a field: arrays exactly, strings back to a character boundary. */
  function Half(w: Wire): Wire {
    match w
    case Arr(s) => Arr(s[..|s| / 2])
    case Str(s) => Str(s[..Floor(s, |s| / 2)])
  }

  /** Half of a field as the source cuts it. */
  method HalveField(w: Wire) returns (h: Wire)
    ensures h == Half(w)
  {
    match w
    case Arr(s) => return Arr(s[..|s| / 2]);
    case Str(s) =>
      var cut := FloorBoundary(s, |s| / 2);
      return Str(s[..cut]);
  }

  function Halve(r: Response): Response {
    r.(out := Half(r.out), err := Half(r.err), stdout := Half(r.stdout), stderr := Half(r.stderr), truncated := true)
  }

  /** Strings hold valid UTF-8. */
  predicate Sound(w: Wire) {
    w.Str? ==> Utf8.Valid(w.bytes)
  }

  /** `w` is a prefix of `of`, in the same form. */
  predicate PrefixOf(w: Wire, of: Wire) {
    w.Str? == of.Str? && w.bytes <= of.bytes
  }

  /** Within a valid string a boundary is at most three bytes back. */
  lemma {:induction false} FloorIsNear(s: Bytes, cut: nat)
    requires Utf8.Valid(s) && cut <= |s|
    ensures BoundaryAt(s, Floor(s, cut)) && cut <= Floor(s, cut) + 3
    decreases |s|
  {
    var f := Floor(s, cut);
    if 0 < f < |s| {
      LeadIsBoundary(s, f);
    } else if f == |s| {
      ValidEndsAtBoundary(s);
    }
    if cut > f + 3 {
      NoLongRun(s, f);
    }
  }

  lemma {:induction false} ValidEndsAtBoundary(s: Bytes)
    requires Utf8.Valid(s)
    ensures BoundaryAt(s, |s|)
    decreases |s|
  {
    if s != [] {
      ValidEndsAtBoundary(s[UnitLen(s)..]);
    }
  }

  /** After a boundary of a valid string, one of the next four positions is a boundary. */
  lemma NoLongRun(s: Bytes, f: nat)
    requires Utf8.Valid(s) && f + 4 <= |s| && BoundaryAt(s, f)
    ensures exists i :: f < i <= f + 4 && IsCharBoundary(s, i)
  {
    ValidAtBoundary(s, f);
    var t := s[f..];
    var k := UnitLen(t);
    assert Complete(t) && Utf8.Valid(t[k..]);
    if f + k < |s| {
      assert s[f + k] == t[k..][0];
      assert Complete(t[k..]);
    }
    assert IsCharBoundary(s, f + k);
  }

  lemma HalfIsPrefix(w: Wire)
    requires Sound(w)
    ensures Sound(Half(w)) && PrefixOf(Half(w), w)
    ensures |Half(w).bytes| <= |w.bytes| / 2 && |w.bytes| / 2 <= |Half(w).bytes| + 3
  {
    hide Utf8.Valid;
    if w.Str? {
      FloorIsNear(w.bytes, |w.bytes| / 2);
      ValidAtBoundary(w.bytes, Floor(w.bytes, |w.bytes| / 2));
    }
  }

  predicate AllSound(r: Response) {
    Sound(r.out) && Sound(r.err) && Sound(r.stdout) && Sound(r.stderr)
  }

  /** `r` is `of` with its outputs cut short at most: the status is kept, the aliases stay
      equal, and `truncated` is set exactly when bytes were dropped here or before. */
  predicate CutShort(r: Response, of: Response) {
    && PrefixOf(r.out, of.out) && PrefixOf(r.err, of.err) && PrefixOf(r.stdout, of.stdout) && PrefixOf(r.stderr, of.stderr)
    && (of.out == of.stdout ==> r.out == r.stdout) && (of.err == of.stderr ==> r.err == r.stderr)
    && r.exitCode == of.exitCode && r.hasError == of.hasError && r.timedOut == of.timedOut
    && (r.truncated <==> of.truncated || OutputBytes(r) < OutputBytes(of))
  }

  lemma HalveCuts(r: Response, of: Response)
    requires AllSound(r) && CutShort(r, of) && OutputBytes(r) > 0
    ensures AllSound(Halve(r)) && CutShort(Halve(r), of)
    ensures 2 * OutputBytes(Halve(r)) <= OutputBytes(r)
  {
    hide Sound, Half;
    HalfIsPrefix(r.out);
    HalfIsPrefix(r.err);
    HalfIsPrefix(r.stdout);
    HalfIsPrefix(r.stderr);
  }

  function Power2(k: nat): (p: nat)
    ensures p > 0
  {
    if k == 0 then 1 else 2 * Power2(k - 1)
  }

  /** What the rounds can bring under the budget. */
  const SHRINKABLE: nat := 174_699 * Power2(MAX_ROUNDS)

  /** Shrinking ends under the budget for every response within reach of its rounds, and
      drops only what it must report. For captured streams at most two rounds are needed. */
  method ShrinkToWireBudget(response: Response) returns (r: Response)
    requires AllSound(response) && IsI32(response.exitCode)
    ensures AllSound(r) && CutShort(r, response)
    ensures |Serialize(response)| <= 1_048_320 ==> r == response
    ensures OutputBytes(response) <= SHRINKABLE ==> |Serialize(r)| <= 1_048_320
    ensures OutputBytes(response) <= 4 * 131072 ==>
              |Serialize(r)| <= 1_048_320 && (r == response || r == Halve(response) || r == Halve(Halve(response)))
  {
    hide AllSound, CutShort, Serialize, Half, OutputBytes, Power2;
    r := response;
    CutNothing(response);
    SmallPowers();
    for i := 0 to MAX_ROUNDS
      invariant AllSound(r) && CutShort(r, response) && r.exitCode == response.exitCode
      invariant OutputBytes(r) * Power2(i) <= OutputBytes(response)
      invariant OutputBytes(response) <= 4 * MAX_EXEC_STREAM_BYTES ==>
                  i <= 2 && r == if i == 0 then response else if i == 1 then Halve(response) else Halve(Halve(response))
      invariant if i == 0 then r == response else |Serialize(response)| > BUDGET
    {
      if |Serialize(r)| <= BUDGET {
        return r;
      }
      HalveCuts(r, response);
      NextPower(OutputBytes(Halve(r)), OutputBytes(r), OutputBytes(response), i);
      var out := HalveField(r.out);
      var stdout := HalveField(r.stdout);
      var err := HalveField(r.err);
      var stderr := HalveField(r.stderr);
      r := r.(out := out, stdout := stdout, err := err, stderr := stderr, truncated := true);
    }
    if OutputBytes(response) <= SHRINKABLE {
      Divide(OutputBytes(r), 174_699, Power2(MAX_ROUNDS));
    }
  }

  lemma CutNothing(r: Response)
    ensures CutShort(r, r)
  {
  }

  lemma SmallPowers()
    ensures Power2(0) == 1 && Power2(1) == 2 && Power2(2) == 4
  {
  }

  lemma NextPower(half: nat, size: nat, total: nat, i: nat)
    requires 2 * half <= size && size * Power2(i) <= total
    ensures half * Power2(i + 1) <= total
  {
    assert half * (2 * Power2(i)) == 2 * half * Power2(i);
    Scale(2 * half, size, Power2(i));
  }

  lemma Scale(x: nat, y: nat, p: nat)
    requires x <= y
    ensures x * p <= y * p
  {
    assert (y - x) * p >= 0;
  }

  lemma Divide(x: nat, y: nat, p: nat)
    requires p > 0 && x * p <= y * p
    ensures x <= y
  {
    if x > y {
      Scale(y + 1, x, p);
    }
  }

  /** Two rounds keep a quarter of each output, less 21 bytes at most. */
  lemma QuarterKept(w: Wire)
    requires Sound(w)
    ensures |w.bytes| <= 4 * |Half(Half(w)).bytes| + 21
  {
    hide Sound, Half;
    HalfIsPrefix(w);
    HalfIsPrefix(Half(w));
  }

  // ---------------------------------------------------------------------------
  // A whole exec.
  // ---------------------------------------------------------------------------

  function TooLarge(): (r: Bytes)
    ensures |r| < 64
  {
    Ascii("{\"error\":\"response too large\"}")
  }

  /** What goes on the wire: the response, or an error in its place if it is too large. */
  method WriteJson(r: Response) returns (line: Bytes)
    ensures |line| <= 0x10_0000 + 1
    ensures line == if |Serialize(r)| <= 0x10_0000 then Serialize(r) + [10]
                    else TooLarge() + [10]
  {
    var bytes := Serialize(r);
    if |bytes| > MAX_RESPONSE {
      bytes := TooLarge();
    }
    return bytes + [10];
  }

  function Captured(stream: Bytes): Bytes {
    stream[..Min(131072, |stream|)]
  }

  /** `process timeout` */
  const TIMEOUT_TEXT: Bytes := Ascii("process timeout")

  /** What is answered when the deadline passes first. */
  const TIMED_OUT := Response(Str([]), Str(TIMEOUT_TEXT), Str([]), Str(TIMEOUT_TEXT), None, false, true, false)

  /** A child's streams, however they arrive, are answered by a response that is never
      replaced: its outputs are prefixes of the streams in the form the whole capture
      has, its status is the child's, and `truncated` says whether anything is missing.
      A child that outlives its deadline (`ended` is None) is answered as timed out. */
  method Execute(outChunks: seq<Bytes>, errChunks: seq<Bytes>, ended: Option<Option<int>>) returns (r: Response, line: Bytes)
    requires forall i :: 0 <= i < |outChunks| ==> outChunks[i] != []
    requires forall i :: 0 <= i < |errChunks| ==> errChunks[i] != []
    requires ended.Some? ==> IsI32(ended.value)
    ensures line == Serialize(r) + [10] && r.out == r.stdout && r.err == r.stderr
    ensures r.timedOut <==> ended.None?
    ensures r.exitCode == if ended.Some? then ended.value else None
    ensures ended.None? ==>
              r.out == Str([]) && r.err == Str(Ascii("process timeout")) && !r.hasError && !r.truncated
    ensures ended.Some? ==>
              && AllSound(r)
              && r.out.bytes <= Concat(outChunks) && r.err.bytes <= Concat(errChunks)
              && (r.out.Str? <==> Utf8.Valid(Captured(Concat(outChunks))))
              && (r.err.Str? <==> Utf8.Valid(Captured(Concat(errChunks))))
              && (r.truncated <==> r.out.bytes != Concat(outChunks) || r.err.bytes != Concat(errChunks))
  {
    hide Serialize, AllSound, BytesToWire, CutShort, Concat;
    if ended.None? {
      r := TIMED_OUT;
      line := WriteJson(r);
      return;
    }
    var out, outTruncated := ReadBounded(outChunks, MAX_EXEC_STREAM_BYTES);
    var err, errTruncated := ReadBounded(errChunks, MAX_EXEC_STREAM_BYTES);
    WireOfBytes(out);
    WireOfBytes(err);
    var whole := Response(BytesToWire(out), BytesToWire(err), BytesToWire(out), BytesToWire(err),
                          ended.value, true, false, outTruncated || errTruncated);
    WholeSound(whole);
    r := ShrinkToWireBudget(whole);
    line := WriteJson(r);
    NothingUnreported(r, whole, Concat(outChunks), Concat(errChunks));
  }

  /** A response cut short from bounded captures reports every missing byte. */
  lemma NothingUnreported(r: Response, whole: Response, out: Bytes, err: Bytes)
    requires CutShort(r, whole) && whole.out == whole.stdout && whole.err == whole.stderr
    requires whole.out.bytes <= out && whole.err.bytes <= err
    requires whole.truncated <==> whole.out.bytes != out || whole.err.bytes != err
    ensures r.out == r.stdout && r.err == r.stderr && r.exitCode == whole.exitCode && r.timedOut == whole.timedOut
    ensures r.out.bytes <= out && r.err.bytes <= err
    ensures r.out.Str? == whole.out.Str? && r.err.Str? == whole.err.Str?
    ensures r.truncated <==> r.out.bytes != out || r.err.bytes != err
  {
    var a, b := r.out.bytes, r.err.bytes;
    assert a <= whole.out.bytes && b <= whole.err.bytes;
    assert |a| == |out| ==> a == out;
    assert |b| == |err| ==> b == err;
    assert |whole.out.bytes| == |out| ==> whole.out.bytes == out;
    assert |whole.err.bytes| == |err| ==> whole.err.bytes == err;
  }

  lemma WireOfBytes(data: Bytes)
    ensures Sound(BytesToWire(data)) && BytesToWire(data).bytes == data
    ensures BytesToWire(data).Str? <==> Utf8.Valid(data)
  {
  }

  lemma WholeSound(r: Response)
    requires Sound(r.out) && Sound(r.err) && Sound(r.stdout) && Sound(r.stderr)
    ensures AllSound(r)
  {
  }
}
