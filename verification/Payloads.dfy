/** The nine ZBRT payload codecs (`codec!` in `zeroboot_protocol.rs`). */
module Payloads {
  import opened Common
  import opened Utf8
  import opened Wire

  const I32_MIN: int := -0x8000_0000
  const I32_MAX: int := 0x7FFF_FFFF

  type I32 = x: int | I32_MIN <= x <= I32_MAX

  datatype Hello = Hello(client: Text, capabilities: seq<Text>)
  datatype HelloAck = HelloAck(server: Text, capabilities: seq<Text>)
  datatype Execute = Execute(argv: seq<Text>, cwd: Option<Text>, stdin: Bytes, timeoutMs: U32)
  datatype Output = Output(stream: Byte, data: Bytes)
  datatype Exit = Exit(code: I32, signal: Option<U32>)
  datatype Cancel = Cancel(reason: Option<Text>, target: Option<RequestId>)
  datatype Fs = Fs(op: Byte, path: Text, data: Bytes)
  datatype Health = Health(healthy: bool, message: Option<Text>)
  datatype Error = Error(code: U32, message: Text)

  // ---------------------------------------------------------------------------
  // The shared shape: a payload is decoded only if its reader uses every byte.
  // ---------------------------------------------------------------------------

  function Decode<T>(read: Bytes -> Read<T>, payload: Bytes): Result<T, WireError> {
    var (x, rest) :- read(payload);
    if rest == [] then Ok(x) else Err(Trailing)
  }

  ghost predicate StableReader<T(!new)>(read: Bytes -> Read<T>) {
    forall b, e :: Stable(read(b), read(b + e), e)
  }

  /** The encoding decodes to `x`, and neither a strict prefix nor an extension of it decodes at all. */
  ghost predicate Exact<T(!new)>(read: Bytes -> Read<T>, encoded: Bytes, x: T) {
    && Decode(read, encoded) == Ok(x)
    && (forall n :: 0 <= n < |encoded| ==> Decode(read, encoded[..n]).Err?)
    && (forall e :: e != [] ==> Decode(read, encoded + e).Err?)
  }

  /** A reader that does not look past what it consumes gives an exact codec. */
  lemma StableReaderIsExact<T(!new)>(read: Bytes -> Read<T>, encoded: Bytes, x: T)
    requires StableReader(read) && read(encoded) == Ok((x, []))
    ensures Exact(read, encoded, x)
  {
    forall n | 0 <= n < |encoded|
      ensures Decode(read, encoded[..n]).Err?
    {
      assert Stable(read(encoded[..n]), read(encoded[..n] + encoded[n..]), encoded[n..]);
      assert encoded == encoded[..n] + encoded[n..];
    }
    forall e: Bytes | e != []
      ensures Decode(read, encoded + e).Err?
    {
      assert Stable(read(encoded), read(encoded + e), e);
      assert [] + e == e;
    }
  }

  // ---------------------------------------------------------------------------
  // Hello and HelloAck share a layout: a name, a count byte, that many texts.
  // ---------------------------------------------------------------------------

  function EncodeNamedList(name: Text, items: seq<Text>): Result<Bytes, WireError> {
    var o :- Put(name);
    var count :- PutCount(|items|);
    var fields :- PutTexts(items);
    Ok(o + (count + fields))
  }

  function ReadNamedList(b: Bytes): Read<(Text, seq<Text>)> {
    var (name, b1) :- GetText(b);
    var (n, b2) :- GetByte(b1);
    var (items, b3) :- GetTexts(b2, n);
    Ok(((name, items), b3))
  }

  lemma NamedListLaw(name: Text, items: seq<Text>)
    requires EncodeNamedList(name, items).Ok?
    ensures ReadNamedList(EncodeNamedList(name, items).value) == Ok(((name, items), []))
  {
    var o, count, fields := Put(name).value, PutCount(|items|).value, PutTexts(items).value;
    FieldLaw(name, count + fields);
    ByteLaw(|items|, fields);
    TextsLaw(items, []);
    assert fields + [] == fields;
  }

  lemma NamedListStable(b: Bytes, e: Bytes)
    ensures Stable(ReadNamedList(b), ReadNamedList(b + e), e)
  {
    GetStable(b, e);
    if GetText(b).Ok? {
      var b1 := GetText(b).value.1;
      GetNStable(b1, 0, e);
      if GetByte(b1).Ok? {
        var (n, b2) := GetByte(b1).value;
        GetTextsStable(b2, n, e);
      }
    }
  }

  function EncodeHello(x: Hello): Result<Bytes, WireError> {
    EncodeNamedList(x.client, x.capabilities)
  }

  function ReadHello(b: Bytes): Read<Hello> {
    var ((client, capabilities), b') :- ReadNamedList(b);
    Ok((Hello(client, capabilities), b'))
  }

  lemma HelloExact(x: Hello)
    requires EncodeHello(x).Ok?
    ensures Exact(ReadHello, EncodeHello(x).value, x)
  {
    NamedListLaw(x.client, x.capabilities);
    forall b, e ensures Stable(ReadHello(b), ReadHello(b + e), e) {
      NamedListStable(b, e);
    }
    StableReaderIsExact(ReadHello, EncodeHello(x).value, x);
  }

  function EncodeHelloAck(x: HelloAck): Result<Bytes, WireError> {
    EncodeNamedList(x.server, x.capabilities)
  }

  function ReadHelloAck(b: Bytes): Read<HelloAck> {
    var ((server, capabilities), b') :- ReadNamedList(b);
    Ok((HelloAck(server, capabilities), b'))
  }

  lemma HelloAckExact(x: HelloAck)
    requires EncodeHelloAck(x).Ok?
    ensures Exact(ReadHelloAck, EncodeHelloAck(x).value, x)
  {
    NamedListLaw(x.server, x.capabilities);
    forall b, e ensures Stable(ReadHelloAck(b), ReadHelloAck(b + e), e) {
      NamedListStable(b, e);
    }
    StableReaderIsExact(ReadHelloAck, EncodeHelloAck(x).value, x);
  }

  // ---------------------------------------------------------------------------
  // Execute.
  // ---------------------------------------------------------------------------

  function EncodeExecute(x: Execute): Result<Bytes, WireError> {
    var count :- PutCount(|x.argv|);
    var argv :- PutTexts(x.argv);
    var cwd :- PutOptional(x.cwd);
    var stdin :- Put(x.stdin);
    Ok(count + (argv + (cwd + (stdin + Be32(x.timeoutMs)))))
  }

  function ReadExecute(b: Bytes): Read<Execute> {
    var (n, b1) :- GetByte(b);
    var (argv, b2) :- GetTexts(b1, n);
    var (cwd, b3) :- GetOptional(b2);
    var (stdin, b4) :- Get(b3);
    var (timeoutMs, b5) :- GetU32(b4);
    Ok((Execute(argv, cwd, stdin, timeoutMs), b5))
  }

  lemma ExecuteLaw(x: Execute)
    requires EncodeExecute(x).Ok?
    ensures ReadExecute(EncodeExecute(x).value) == Ok((x, []))
  {
    var argv, cwd, stdin := PutTexts(x.argv).value, PutOptional(x.cwd).value, Put(x.stdin).value;
    var timeout := Be32(x.timeoutMs);
    ByteLaw(|x.argv|, argv + (cwd + (stdin + timeout)));
    TextsLaw(x.argv, cwd + (stdin + timeout));
    OptionalLaw(x.cwd, stdin + timeout);
    FieldLaw(x.stdin, timeout);
    U32Law(x.timeoutMs, []);
    assert timeout + [] == timeout;
  }

  lemma ExecuteStable(b: Bytes, e: Bytes)
    ensures Stable(ReadExecute(b), ReadExecute(b + e), e)
  {
    hide GetN, Get, GetText, GetTexts, GetOptional, GetByte, GetU32;
    if ReadExecute(b).Ok? {
      GetNStable(b, 0, e);
      var (n, b1) := GetByte(b).value;
      GetTextsStable(b1, n, e);
      var b2 := GetTexts(b1, n).value.1;
      GetOptionalStable(b2, e);
      var b3 := GetOptional(b2).value.1;
      GetStable(b3, e);
      GetNStable(Get(b3).value.1, 0, e);
    }
  }

  lemma ExecuteExact(x: Execute)
    requires EncodeExecute(x).Ok?
    ensures Exact(ReadExecute, EncodeExecute(x).value, x)
  {
    hide ReadExecute, EncodeExecute;
    ExecuteLaw(x);
    forall b, e ensures Stable(ReadExecute(b), ReadExecute(b + e), e) {
      ExecuteStable(b, e);
    }
    StableReaderIsExact(ReadExecute, EncodeExecute(x).value, x);
  }

  // ---------------------------------------------------------------------------
  // Output, Exit, Fs, Health and Error.
  // ---------------------------------------------------------------------------

  function EncodeOutput(x: Output): Result<Bytes, WireError> {
    var data :- Put(x.data);
    Ok([x.stream] + data)
  }

  function ReadOutput(b: Bytes): Read<Output> {
    var (stream, b1) :- GetByte(b);
    var (data, b2) :- Get(b1);
    Ok((Output(stream, data), b2))
  }

  lemma OutputExact(x: Output)
    requires EncodeOutput(x).Ok?
    ensures Exact(ReadOutput, EncodeOutput(x).value, x)
  {
    hide GetN, Get;
    var data := Put(x.data).value;
    ByteLaw(x.stream, data);
    FieldLaw(x.data, []);
    assert data + [] == data;
    forall b, e ensures Stable(ReadOutput(b), ReadOutput(b + e), e) {
      GetNStable(b, 0, e);
      if GetByte(b).Ok? { GetStable(GetByte(b).value.1, e); }
    }
    StableReaderIsExact(ReadOutput, EncodeOutput(x).value, x);
  }

  /** Two's complement, as `i32::to_be_bytes` and `from_be_bytes` use it. */
  function ToU32(x: I32): U32 {
    if x < 0 then x + U32_LIMIT else x
  }

  function ToI32(n: U32): I32 {
    if n > I32_MAX then n - U32_LIMIT else n
  }

  function EncodeExit(x: Exit): Result<Bytes, WireError> {
    Ok(Be32(ToU32(x.code)) + match x.signal case None => [0] case Some(v) => [1] + Be32(v))
  }

  function ReadExit(b: Bytes): Read<Exit> {
    var (code, b1) :- GetU32(b);
    var (present, b2) :- GetFlag(b1);
    if !present then Ok((Exit(ToI32(code), None), b2)) else
      var (signal, b3) :- GetU32(b2);
      Ok((Exit(ToI32(code), Some(signal)), b3))
  }

  lemma ExitExact(x: Exit)
    ensures EncodeExit(x).Ok? && Exact(ReadExit, EncodeExit(x).value, x)
  {
    hide GetN, Be32, FromBe32;
    var tail := match x.signal case None => [0] case Some(v) => [1] + Be32(v);
    U32Law(ToU32(x.code), tail);
    match x.signal {
      case None => ByteLaw(0, []); assert tail == [0] + [];
      case Some(v) => ByteLaw(1, Be32(v)); U32Law(v, []); assert Be32(v) + [] == Be32(v);
    }
    forall b, e ensures Stable(ReadExit(b), ReadExit(b + e), e) {
      ExitStable(b, e);
    }
    StableReaderIsExact(ReadExit, EncodeExit(x).value, x);
  }

  lemma ExitStable(b: Bytes, e: Bytes)
    ensures Stable(ReadExit(b), ReadExit(b + e), e)
  {
    hide GetN, FromBe32, GetU32, GetFlag;
    GetNStable(b, 0, e);
    if GetU32(b).Ok? {
      var b1 := GetU32(b).value.1;
      GetNStable(b1, 0, e);
      if GetFlag(b1).Ok? { GetNStable(GetFlag(b1).value.1, 0, e); }
    }
  }

  function EncodeFs(x: Fs): Result<Bytes, WireError> {
    var path :- Put(x.path);
    var data :- Put(x.data);
    Ok([x.op] + (path + data))
  }

  function ReadFs(b: Bytes): Read<Fs> {
    var (op, b1) :- GetByte(b);
    var (path, b2) :- GetText(b1);
    var (data, b3) :- Get(b2);
    Ok((Fs(op, path, data), b3))
  }

  lemma FsExact(x: Fs)
    requires EncodeFs(x).Ok?
    ensures Exact(ReadFs, EncodeFs(x).value, x)
  {
    hide GetN, Get, GetText;
    var path, data := Put(x.path).value, Put(x.data).value;
    ByteLaw(x.op, path + data);
    FieldLaw(x.path, data);
    FieldLaw(x.data, []);
    assert data + [] == data;
    forall b, e ensures Stable(ReadFs(b), ReadFs(b + e), e) {
      GetNStable(b, 0, e);
      if GetByte(b).Ok? {
        var b1 := GetByte(b).value.1;
        GetStable(b1, e);
        if GetText(b1).Ok? { GetStable(GetText(b1).value.1, e); }
      }
    }
    StableReaderIsExact(ReadFs, EncodeFs(x).value, x);
  }

  function EncodeHealth(x: Health): Result<Bytes, WireError> {
    var message :- PutOptional(x.message);
    Ok([if x.healthy then 1 else 0] + message)
  }

  function ReadHealth(b: Bytes): Read<Health> {
    var (healthy, b1) :- GetFlag(b);
    var (message, b2) :- GetOptional(b1);
    Ok((Health(healthy, message), b2))
  }

  lemma HealthExact(x: Health)
    requires EncodeHealth(x).Ok?
    ensures Exact(ReadHealth, EncodeHealth(x).value, x)
  {
    hide GetN, GetOptional;
    var message := PutOptional(x.message).value;
    ByteLaw(if x.healthy then 1 else 0, message);
    OptionalLaw(x.message, []);
    assert message + [] == message;
    forall b, e ensures Stable(ReadHealth(b), ReadHealth(b + e), e) {
      GetNStable(b, 0, e);
      if GetFlag(b).Ok? { GetOptionalStable(GetFlag(b).value.1, e); }
    }
    StableReaderIsExact(ReadHealth, EncodeHealth(x).value, x);
  }

  function EncodeError(x: Error): Result<Bytes, WireError> {
    var message :- Put(x.message);
    Ok(Be32(x.code) + message)
  }

  function ReadError(b: Bytes): Read<Error> {
    var (code, b1) :- GetU32(b);
    var (message, b2) :- GetText(b1);
    Ok((Error(code, message), b2))
  }

  lemma ErrorExact(x: Error)
    requires EncodeError(x).Ok?
    ensures Exact(ReadError, EncodeError(x).value, x)
  {
    hide GetN, GetText, Be32, FromBe32;
    var message := Put(x.message).value;
    U32Law(x.code, message);
    FieldLaw(x.message, []);
    assert message + [] == message;
    forall b, e ensures Stable(ReadError(b), ReadError(b + e), e) {
      GetNStable(b, 0, e);
      if GetU32(b).Ok? { GetStable(GetU32(b).value.1, e); }
    }
    StableReaderIsExact(ReadError, EncodeError(x).value, x);
  }

  // ---------------------------------------------------------------------------
  // Cancel: payloads from before the target field existed end after the reason.
  // ---------------------------------------------------------------------------

  function EncodeCancel(x: Cancel): Result<Bytes, WireError> {
    var reason :- PutOptional(x.reason);
    Ok(reason + match x.target case None => [0] case Some(id) => [1] + id)
  }

  function ReadTarget(b: Bytes): Read<Option<RequestId>> {
    if b == [] then Ok((None, b)) else
      var (present, b1) :- GetFlag(b);
      if !present then Ok((None, b1)) else
        var (id, b2) :- GetN(b1, 16);
        Ok((Some(id), b2))
  }

  function ReadCancel(b: Bytes): Read<Cancel> {
    var (reason, b1) :- GetOptional(b);
    var (target, b2) :- ReadTarget(b1);
    Ok((Cancel(reason, target), b2))
  }

  lemma TargetLaw(target: Option<RequestId>, e: Bytes)
    ensures var t := (match target case None => [0] case Some(id) => [1] + id);
            ReadTarget(t + e) == Ok((target, e))
            && forall n :: 0 < n < |t| ==> ReadTarget(t[..n]).Err?
  {
    match target
    case None => ByteLaw(0, e);
    case Some(id) =>
      var t := [1] + id;
      assert t + e == [1] + (id + e);
      ByteLaw(1, id + e);
      assert (id + e)[..16] == id && (id + e)[16..] == e;
      forall n | 0 < n < |t| ensures ReadTarget(t[..n]).Err? {
        assert t[..n] == [1] + id[..n - 1];
        ByteLaw(1, id[..n - 1]);
      }
  }

  /** Cancel round-trips and refuses every extension; a strict prefix is accepted
      exactly when it ends right after the reason, and then it has no target. */
  lemma CancelAlmostExact(x: Cancel)
    requires EncodeCancel(x).Ok?
    ensures var enc, cut := EncodeCancel(x).value, |PutOptional(x.reason).value|;
            && Decode(ReadCancel, enc) == Ok(x)
            && (forall e :: e != [] ==> Decode(ReadCancel, enc + e).Err?)
            && cut < |enc|
            && Decode(ReadCancel, enc[..cut]) == Ok(Cancel(x.reason, None))
            && (forall n :: 0 <= n < |enc| && n != cut ==> Decode(ReadCancel, enc[..n]).Err?)
  {
    hide GetOptional, ReadTarget;
    var reason := PutOptional(x.reason).value;
    var t := match x.target case None => [0] case Some(id) => [1] + id;
    var enc, cut := reason + t, |reason|;
    forall e: Bytes ensures ReadCancel(enc + e) == Ok((x, e)) {
      assert enc + e == reason + (t + e);
      OptionalLaw(x.reason, t + e);
      TargetLaw(x.target, e);
    }
    assert enc + [] == enc;
    assert Decode(ReadCancel, enc[..cut]) == Ok(Cancel(x.reason, None)) by {
      assert enc[..cut] == reason + [];
      OptionalLaw(x.reason, []);
      EmptyTarget();
    }
    forall n | 0 <= n < |enc| && n != cut ensures Decode(ReadCancel, enc[..n]).Err? {
      CancelPrefix(x, n);
    }
  }

  lemma EmptyTarget()
    ensures ReadTarget([]) == Ok((None, []))
  {
  }

  lemma CancelPrefix(x: Cancel, n: nat)
    requires EncodeCancel(x).Ok?
    requires n < |EncodeCancel(x).value| && n != |PutOptional(x.reason).value|
    ensures Decode(ReadCancel, EncodeCancel(x).value[..n]).Err?
  {
    hide GetOptional, ReadTarget;
    var reason := PutOptional(x.reason).value;
    var t := match x.target case None => [0] case Some(id) => [1] + id;
    var p := (reason + t)[..n];
    if n < |reason| {
      GetOptionalStable(p, reason[n..]);
      assert p + reason[n..] == reason == reason + [];
      OptionalLaw(x.reason, []);
    } else {
      var k := n - |reason|;
      assert p == reason + t[..k];
      OptionalLaw(x.reason, t[..k]);
      TargetLaw(x.target, []);
    }
  }
}
