/** What a ZBRT peer finds at which byte: the layout of frames and payloads, told by position
    and independently of the encoders. */
module WireLayout {
  import opened Common
  import opened Utf8
  import opened Wire
  import Frames
  import Payloads

  /** A 32-bit number at `i`, most significant byte first. */
  predicate NumberAt(v: Bytes, i: nat, n: nat) {
    i + 4 <= |v| && n == 0x100_0000 * (v[i] as int) + 0x1_0000 * (v[i + 1] as int) + 0x100 * (v[i + 2] as int) + v[i + 3]
  }

  /** A field at `i`: its length and then its bytes. */
  predicate FieldAt(v: Bytes, i: nat, b: Bytes) {
    NumberAt(v, i, |b|) && i + 4 + |b| <= |v| && v[i + 4..i + 4 + |b|] == b
  }

  /** An optional field at `i`: a byte 0, or a byte 1 and the field. */
  predicate OptionalAt(v: Bytes, i: nat, value: Option<Text>) {
    i < |v| && if value.None? then v[i] == 0 else v[i] == 1 && FieldAt(v, i + 1, value.value)
  }

  function OptionalLen(value: Option<Text>): nat {
    if value.None? then 1 else 5 + |value.value|
  }

  /** Fields one after the other from `i` on. */
  predicate FieldsAt(v: Bytes, i: nat, items: seq<Text>)
    decreases |items|
  {
    items == [] || (FieldAt(v, i, items[0]) && FieldsAt(v, i + 4 + |items[0]|, items[1..]))
  }

  function FieldsLen(items: seq<Text>): nat {
    if items == [] then 0 else 4 + |items[0]| + FieldsLen(items[1..])
  }

  // ---------------------------------------------------------------------------
  // The primitives.
  // ---------------------------------------------------------------------------

  lemma NumberLayout(a: Bytes, n: U32, e: Bytes)
    ensures NumberAt(a + Be32(n) + e, |a|, n)
  {
    Be32RoundTrip(n);
    var v, b := a + Be32(n) + e, Be32(n);
    assert v[|a|] == b[0] && v[|a| + 1] == b[1] && v[|a| + 2] == b[2] && v[|a| + 3] == b[3];
  }

  lemma FieldLayout(a: Bytes, b: Bytes, e: Bytes)
    requires Put(b).Ok?
    ensures |Put(b).value| == 4 + |b| && FieldAt(a + Put(b).value + e, |a|, b)
  {
    hide Be32;
    NumberLayout(a, |b|, b + e);
    var v := a + Put(b).value + e;
    assert v == a + Be32(|b|) + (b + e);
    assert v[|a| + 4..|a| + 4 + |b|] == b;
  }

  lemma OptionalLayout(a: Bytes, value: Option<Text>, e: Bytes)
    requires PutOptional(value).Ok?
    ensures |PutOptional(value).value| == OptionalLen(value) && OptionalAt(a + PutOptional(value).value + e, |a|, value)
  {
    hide FieldAt;
    if value.Some? {
      var field := Put(value.value).value;
      FieldLayout(a + [1], value.value, e);
      assert a + PutOptional(value).value + e == a + [1] + field + e;
    }
  }

  lemma {:induction false} FieldsLayout(a: Bytes, items: seq<Text>, e: Bytes)
    requires PutTexts(items).Ok?
    ensures |PutTexts(items).value| == FieldsLen(items) && FieldsAt(a + PutTexts(items).value + e, |a|, items)
    decreases |items|
  {
    hide FieldAt, Put;
    if items != [] {
      var head, tail := Put(items[0]).value, PutTexts(items[1..]).value;
      FieldLayout(a, items[0], tail + e);
      FieldsLayout(a + head, items[1..], e);
      assert a + PutTexts(items).value + e == a + head + (tail + e) == a + head + tail + e;
      assert |a + head| == |a| + 4 + |items[0]|;
    }
  }

  // ---------------------------------------------------------------------------
  // Frames.
  // ---------------------------------------------------------------------------

  /** `ZBRT`, version 1, the kind's number, two zero flag bytes, the request id, the payload's
      length and the payload. */
  lemma FrameLayout(frame: Frames.Frame)
    ensures Frames.Encode(frame).Ok? <==> frame.flags == 0 && |frame.payload| <= 16_777_216
    ensures Frames.Encode(frame).Ok? ==>
            var v := Frames.Encode(frame).value;
            && |v| == 28 + |frame.payload| && v[28..] == frame.payload
            && v[..4] == ['Z' as int, 'B' as int, 'R' as int, 'T' as int] && v[4] == 1
            && v[5] == Frames.KindByte(frame.kind) && v[6] == 0 && v[7] == 0
            && v[8..24] == frame.requestId && NumberAt(v, 24, |frame.payload|)
  {
    hide Be32, Frames.KindByte;
    if Frames.Encode(frame).Ok? {
      var v := Frames.Encode(frame).value;
      var head := Frames.MAGIC + [Frames.VERSION, Frames.KindByte(frame.kind), 0, 0] + frame.requestId;
      assert v == head + Be32(|frame.payload|) + frame.payload;
      NumberLayout(head, |frame.payload|, frame.payload);
    }
  }

  lemma KindNumbers()
    ensures Frames.KindByte(Frames.Hello) == 1 && Frames.KindByte(Frames.HelloAck) == 2
    ensures Frames.KindByte(Frames.Execute) == 3 && Frames.KindByte(Frames.Output) == 4
    ensures Frames.KindByte(Frames.Exit) == 5 && Frames.KindByte(Frames.Cancel) == 6
    ensures Frames.KindByte(Frames.CancelAck) == 7 && Frames.KindByte(Frames.Fs) == 8
    ensures Frames.KindByte(Frames.FsResult) == 9 && Frames.KindByte(Frames.Health) == 10
    ensures Frames.KindByte(Frames.HealthAck) == 11 && Frames.KindByte(Frames.Error) == 12
    ensures Frames.KindByte(Frames.Kind.Result) == 13
  {
  }

  // ---------------------------------------------------------------------------
  // Payloads.
  // ---------------------------------------------------------------------------

  /** Hello and HelloAck: the name, the number of texts in one byte, the texts. */
  lemma NamedListLayout(name: Text, items: seq<Text>)
    requires Payloads.EncodeNamedList(name, items).Ok?
    ensures var v := Payloads.EncodeNamedList(name, items).value;
            && |v| == 5 + |name| + FieldsLen(items)
            && FieldAt(v, 0, name) && v[4 + |name|] == |items| && FieldsAt(v, 5 + |name|, items)
  {
    hide FieldAt, FieldsAt, Put, PutTexts;
    var o, fields := Put(name).value, PutTexts(items).value;
    var v := Payloads.EncodeNamedList(name, items).value;
    FieldLayout([], name, [|items|] + fields);
    FieldsLayout(o + [|items|], items, []);
    assert v == [] + o + ([|items|] + fields) == o + [|items|] + fields + [];
  }

  lemma HelloLayout(x: Payloads.Hello, y: Payloads.HelloAck)
    ensures Payloads.EncodeHello(x) == Payloads.EncodeNamedList(x.client, x.capabilities)
    ensures Payloads.EncodeHelloAck(y) == Payloads.EncodeNamedList(y.server, y.capabilities)
  {
  }

  /** Execute: the number of arguments in one byte, the arguments, the optional directory, the
      input and the deadline. */
  lemma ExecuteLayout(x: Payloads.Execute)
    requires Payloads.EncodeExecute(x).Ok?
    ensures var v := Payloads.EncodeExecute(x).value;
            var cwd := 1 + FieldsLen(x.argv);
            var stdin := cwd + OptionalLen(x.cwd);
            && v[..1] == [|x.argv|] && FieldsAt(v, 1, x.argv) && OptionalAt(v, cwd, x.cwd)
            && FieldAt(v, stdin, x.stdin) && NumberAt(v, stdin + 4 + |x.stdin|, x.timeoutMs)
            && |v| == stdin + 8 + |x.stdin|
  {
    hide FieldAt, FieldsAt, OptionalAt, NumberAt, Put, PutTexts, PutOptional, Be32;
    var count: Bytes := [|x.argv|];
    var argv, cwd := PutTexts(x.argv).value, PutOptional(x.cwd).value;
    var stdin, time := Put(x.stdin).value, Be32(x.timeoutMs);
    var v := Payloads.EncodeExecute(x).value;
    assert v == count + argv + (cwd + (stdin + time));
    assert v == count + argv + cwd + (stdin + time);
    assert v == count + argv + cwd + stdin + time;
    assert v == count + argv + cwd + stdin + time + [];
    FieldsLayout(count, x.argv, cwd + (stdin + time));
    OptionalLayout(count + argv, x.cwd, stdin + time);
    FieldLayout(count + argv + cwd, x.stdin, time);
    NumberLayout(count + argv + cwd + stdin, x.timeoutMs, []);
  }

  /** Output: the stream's number and the data. */
  lemma OutputLayout(x: Payloads.Output)
    requires Payloads.EncodeOutput(x).Ok?
    ensures var v := Payloads.EncodeOutput(x).value; |v| == 5 + |x.data| && v[0] == x.stream && FieldAt(v, 1, x.data)
  {
    hide FieldAt, Put;
    FieldLayout([x.stream], x.data, []);
    assert Payloads.EncodeOutput(x).value == [x.stream] + Put(x.data).value + [];
  }

  /** Exit: the code in two's complement, and the optional signal. */
  lemma ExitLayout(x: Payloads.Exit)
    ensures var v := Payloads.EncodeExit(x).value;
            && NumberAt(v, 0, if x.code < 0 then x.code + 0x1_0000_0000 else x.code)
            && (if x.signal.None? then |v| == 5 && v[4] == 0 else |v| == 9 && v[4] == 1 && NumberAt(v, 5, x.signal.value))
  {
    hide NumberAt, Be32;
    var v := Payloads.EncodeExit(x).value;
    var code := Be32(Payloads.ToU32(x.code));
    if x.signal.None? {
      NumberLayout([], Payloads.ToU32(x.code), [0]);
      assert v == [] + code + [0];
    } else {
      var signal := Be32(x.signal.value);
      NumberLayout([], Payloads.ToU32(x.code), [1] + signal);
      NumberLayout(code + [1], x.signal.value, []);
      assert v == [] + code + ([1] + signal) == code + [1] + signal + [];
    }
  }

  /** Fs: the operation, the path and the data. */
  lemma FsLayout(x: Payloads.Fs)
    requires Payloads.EncodeFs(x).Ok?
    ensures var v := Payloads.EncodeFs(x).value;
            && |v| == 9 + |x.path| + |x.data| && v[0] == x.op
            && FieldAt(v, 1, x.path) && FieldAt(v, 5 + |x.path|, x.data)
  {
    hide FieldAt, Put;
    var path, data := Put(x.path).value, Put(x.data).value;
    FieldLayout([x.op], x.path, data);
    FieldLayout([x.op] + path, x.data, []);
    assert Payloads.EncodeFs(x).value == [x.op] + path + data == [x.op] + path + data + [];
  }

  /** Health: the verdict in one byte and the optional message. */
  lemma HealthLayout(x: Payloads.Health)
    requires Payloads.EncodeHealth(x).Ok?
    ensures var v := Payloads.EncodeHealth(x).value;
            |v| == 1 + OptionalLen(x.message) && v[0] == (if x.healthy then 1 else 0) && OptionalAt(v, 1, x.message)
  {
    hide OptionalAt, PutOptional;
    var healthy: Bytes := [if x.healthy then 1 else 0];
    OptionalLayout(healthy, x.message, []);
    assert Payloads.EncodeHealth(x).value == healthy + PutOptional(x.message).value + [];
  }

  /** Error: the code and the message. */
  lemma ErrorLayout(x: Payloads.Error)
    requires Payloads.EncodeError(x).Ok?
    ensures var v := Payloads.EncodeError(x).value;
            |v| == 8 + |x.message| && NumberAt(v, 0, x.code) && FieldAt(v, 4, x.message)
  {
    hide FieldAt, NumberAt, Put, Be32;
    var code, message := Be32(x.code), Put(x.message).value;
    NumberLayout([], x.code, message);
    FieldLayout(code, x.message, []);
    assert Payloads.EncodeError(x).value == [] + code + message == code + message + [];
  }

  /** Cancel: the optional reason, and the target id behind a byte 1, or a byte 0. */
  lemma CancelLayout(x: Payloads.Cancel)
    requires Payloads.EncodeCancel(x).Ok?
    ensures var v, n := Payloads.EncodeCancel(x).value, OptionalLen(x.reason);
            && OptionalAt(v, 0, x.reason)
            && (if x.target.None? then v[n..] == [0] else v[n..] == [1] + x.target.value)
  {
    hide OptionalAt, PutOptional;
    var target: Bytes := match x.target case None => [0] case Some(id) => [1] + id;
    OptionalLayout([], x.reason, target);
    assert Payloads.EncodeCancel(x).value == [] + PutOptional(x.reason).value + target;
  }
}
