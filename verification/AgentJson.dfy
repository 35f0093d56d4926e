/** Reading the agent's exec response back: a JSON reader for the values and the shape it
    uses, and the round trip through it. */
module AgentJson {
  import opened Common
  import opened AgentShrink

  type Read<T> = Option<(T, Bytes)>

  // ---------------------------------------------------------------------------
  // Strings.
  // ---------------------------------------------------------------------------

  function HexValue(b: Byte): Option<nat> {
    if 48 <= b <= 57 then Some(b - 48) else if 97 <= b <= 102 then Some(b - 87) else None
  }

  /** The rest of a JSON string whose escapes, if numeric, are of ASCII characters. */
  function ReadString(s: Bytes): Read<Bytes> {
    if s == [] || s[0] < 32 then None
    else if s[0] == 34 then Some(([], s[1..]))
    else if s[0] != 92 then Then(s[0], ReadString(s[1..]))
    else if |s| < 2 then None
    else if s[1] == 34 || s[1] == 92 || s[1] == 47 then Then(s[1], ReadString(s[2..]))
    else if s[1] == 98 then Then(8, ReadString(s[2..]))
    else if s[1] == 102 then Then(12, ReadString(s[2..]))
    else if s[1] == 110 then Then(10, ReadString(s[2..]))
    else if s[1] == 114 then Then(13, ReadString(s[2..]))
    else if s[1] == 116 then Then(9, ReadString(s[2..]))
    else if s[1] != 117 || |s| < 6 || s[2] != 48 || s[3] != 48 then None
    else
      var high, low := HexValue(s[4]), HexValue(s[5]);
      if high.None? || low.None? || high.value >= 8 then None
      else Then(16 * high.value + low.value, ReadString(s[6..]))
  }

  function Then(b: Byte, r: Read<Bytes>): Read<Bytes> {
    if r.None? then None else Some(([b] + r.value.0, r.value.1))
  }

  lemma EscapeRead(b: Byte, tail: Bytes)
    ensures ReadString(EscapeByte(b) + tail) == Then(b, ReadString(tail))
  {
    var s := EscapeByte(b) + tail;
    assert s[|EscapeByte(b)|..] == tail;
  }

  lemma {:induction false} StringRead(s: Bytes, rest: Bytes)
    ensures ReadString(EscapeAll(s) + [34] + rest) == Some((s, rest))
  {
    hide EscapeByte;
    if s == [] {
      assert EscapeAll(s) + [34] + rest == [34] + rest;
      assert ([34] + rest)[1..] == rest;
    } else {
      var tail := EscapeAll(s[1..]) + [34] + rest;
      StringRead(s[1..], rest);
      EscapeRead(s[0], tail);
      assert EscapeAll(s) + [34] + rest == EscapeByte(s[0]) + tail;
      assert [s[0]] + s[1..] == s;
    }
  }

  // ---------------------------------------------------------------------------
  // Numbers and arrays of bytes.
  // ---------------------------------------------------------------------------

  function ReadDigits(s: Bytes, value: nat): (nat, Bytes) {
    if s == [] || !(48 <= s[0] <= 57) then (value, s) else ReadDigits(s[1..], 10 * value + (s[0] - 48))
  }

  predicate NoDigit(s: Bytes) {
    s == [] || !(48 <= s[0] <= 57)
  }

  lemma {:induction false} DigitsRead(n: nat, rest: Bytes)
    ensures ReadDigits(Decimal(n) + rest, 0) == ReadDigits(rest, n)
    ensures 48 <= Decimal(n)[0] <= 57
  {
    if n < 10 {
      assert ([48 + n] + rest)[1..] == rest;
    } else {
      var d: Bytes := [48 + n % 10];
      DigitsRead(n / 10, d + rest);
      assert Decimal(n) + rest == Decimal(n / 10) + (d + rest);
      assert (d + rest)[1..] == rest;
      assert Decimal(n)[0] == Decimal(n / 10)[0];
    }
  }

  /** Byte values up to the closing bracket, at least one. */
  function ReadElements(s: Bytes): Read<Bytes>
    decreases |s|
  {
    if NoDigit(s) then None
    else
      var (n, after) := ReadDigits(s[1..], s[0] - 48);
      ShorterDigits(s[1..], s[0] - 48);
      if n > 255 || after == [] then None
      else if after[0] == 93 then Some(([n], after[1..]))
      else if after[0] == 44 then Then(n, ReadElements(after[1..]))
      else None
  }

  lemma ShorterDigits(s: Bytes, value: nat)
    ensures |ReadDigits(s, value).1| <= |s|
  {
  }

  lemma OneElement(b: Byte, rest: Bytes)
    requires NoDigit(rest)
    ensures var s := Decimal(b) + rest; !NoDigit(s) && ReadDigits(s[1..], s[0] - 48) == (b as nat, rest)
  {
    DigitsRead(b, rest);
    var s := Decimal(b) + rest;
    assert s[0] == Decimal(b)[0];
  }

  lemma {:induction false} ElementsRead(s: Bytes, rest: Bytes)
    requires s != []
    ensures ReadElements(Elements(s) + [93] + rest) == Some((s, rest))
  {
    hide Decimal, ReadDigits;
    if |s| == 1 {
      var tail := [93] + rest;
      OneElement(s[0], tail);
      assert Elements(s[1..]) == [];
      assert Elements(s) + [93] + rest == Decimal(s[0]) + tail;
      assert tail[1..] == rest && [s[0]] == s;
    } else {
      var tail := Elements(s[1..]) + [93] + rest;
      ElementsRead(s[1..], rest);
      OneElement(s[0], [44] + tail);
      assert Elements(s) + [93] + rest == Decimal(s[0]) + ([44] + tail);
      assert ([44] + tail)[1..] == tail;
      assert [s[0]] + s[1..] == s;
    }
  }

  // ---------------------------------------------------------------------------
  // Outputs.
  // ---------------------------------------------------------------------------

  function ReadWire(s: Bytes): Read<Wire> {
    if s == [] then None
    else if s[0] == 34 then
      var r := ReadString(s[1..]);
      if r.None? then None else Some((Str(r.value.0), r.value.1))
    else if s[0] != 91 then None
    else if |s| > 1 && s[1] == 93 then Some((Arr([]), s[2..]))
    else
      var r := ReadElements(s[1..]);
      if r.None? then None else Some((Arr(r.value.0), r.value.1))
  }

  /** Every output is read back in its own form, byte for byte. */
  lemma WireRead(w: Wire, rest: Bytes)
    ensures ReadWire(WireText(w) + rest) == Some((w, rest))
  {
    hide ReadString, ReadElements, EscapeAll, Elements;
    var s := WireText(w) + rest;
    match w
    case Str(b) =>
      StringRead(b, rest);
      assert s[1..] == EscapeAll(b) + [34] + rest;
    case Arr(b) =>
      if b == [] {
        NoElements();
        assert s == [91, 93] + rest;
        assert s[2..] == rest;
      } else {
        ElementsRead(b, rest);
        assert s[1..] == Elements(b) + [93] + rest;
        FirstElement(b);
        assert s[1] == Elements(b)[0];
      }
  }

  lemma NoElements()
    ensures Elements([]) == []
  {
  }

  lemma FirstElement(b: Bytes)
    requires b != []
    ensures Elements(b) != [] && Elements(b)[0] != 93
  {
    DigitsRead(b[0], []);
  }

  // ---------------------------------------------------------------------------
  // The response.
  // ---------------------------------------------------------------------------

  function Expect(s: Bytes, text: string): Option<Bytes> {
    if Ascii(text) <= s then Some(s[|text|..]) else None
  }

  lemma Expected(text: string, rest: Bytes)
    ensures Expect(Ascii(text) + rest, text) == Some(rest)
  {
  }

  function ReadBool(s: Bytes): Read<bool> {
    if Ascii("true") <= s then Some((true, s[4..]))
    else if Ascii("false") <= s then Some((false, s[5..]))
    else None
  }

  lemma BoolRead(b: bool, rest: Bytes)
    ensures ReadBool(BoolText(b) + rest) == Some((b, rest))
  {
    var s := BoolText(b) + rest;
    if !b {
      assert s[0] == Ascii("false")[0] != Ascii("true")[0];
    }
  }

  function ReadExit(s: Bytes): Read<Option<int>> {
    if Ascii("null") <= s then Some((None, s[4..]))
    else if s != [] && s[0] == 45 then
      var (n, rest) := ReadDigits(s[1..], 0);
      Some((Some(-(n as int)), rest))
    else
      var (n, rest) := ReadDigits(s, 0);
      Some((Some(n), rest))
  }

  lemma ExitRead(code: Option<int>, rest: Bytes)
    requires NoDigit(rest)
    ensures ReadExit(ExitText(code) + rest) == Some((code, rest))
  {
    hide ReadDigits, Decimal;
    var s := ExitText(code) + rest;
    if code.None? {
      assert s == Ascii("null") + rest;
    } else if code.value < 0 {
      DigitsRead(-code.value, rest);
      DigitsEnd(rest, -code.value);
      assert s[1..] == Decimal(-code.value) + rest;
      NotNull(s);
    } else {
      DigitsRead(code.value, rest);
      DigitsEnd(rest, code.value);
      assert s[0] == Decimal(code.value)[0];
      NotNull(s);
    }
  }

  lemma DigitsEnd(rest: Bytes, n: nat)
    requires NoDigit(rest)
    ensures ReadDigits(rest, n) == (n, rest)
  {
  }

  lemma NotNull(s: Bytes)
    requires s != [] && s[0] < 58
    ensures !(Ascii("null") <= s)
  {
    assert Ascii("null")[0] == 110;
  }

  function ReadOutputs(s: Bytes): Read<(Wire, Wire, Wire, Wire)> {
    var a := Expect(s, "{\"err\":");
    if a.None? then None else
    var err := ReadWire(a.value);
    if err.None? then None else
    var b := Expect(err.value.1, ",\"out\":");
    if b.None? then None else
    var out := ReadWire(b.value);
    if out.None? then None else
    var c := Expect(out.value.1, ",\"stderr\":");
    if c.None? then None else
    var stderr := ReadWire(c.value);
    if stderr.None? then None else
    var d := Expect(stderr.value.1, ",\"stdout\":");
    if d.None? then None else
    var stdout := ReadWire(d.value);
    if stdout.None? then None else Some(((err.value.0, out.value.0, stderr.value.0, stdout.value.0), stdout.value.1))
  }

  function ReadStatus(s: Bytes): Read<(Option<int>, bool, bool, bool)> {
    var e := Expect(s, ",\"error\":null");
    var s1 := if e.Some? then e.value else s;
    var a := Expect(s1, ",\"exit_code\":");
    if a.None? then None else
    var exit := ReadExit(a.value);
    if exit.None? then None else
    var b := Expect(exit.value.1, ",\"timed_out\":");
    if b.None? then None else
    var timedOut := ReadBool(b.value);
    if timedOut.None? then None else
    var c := Expect(timedOut.value.1, ",\"truncated\":");
    if c.None? then None else
    var truncated := ReadBool(c.value);
    if truncated.None? then None
    else Some(((exit.value.0, e.Some?, timedOut.value.0, truncated.value.0), truncated.value.1))
  }

  function ReadResponse(s: Bytes): Option<Response> {
    var outputs := ReadOutputs(s);
    if outputs.None? then None else
    var status := ReadStatus(outputs.value.1);
    if status.None? || status.value.1 != Ascii("}") then None else
    var (err, out, stderr, stdout) := outputs.value.0;
    var (exitCode, hasError, timedOut, truncated) := status.value.0;
    Some(Response(out, err, stdout, stderr, exitCode, hasError, timedOut, truncated))
  }

  lemma OutputsRead(r: Response, rest: Bytes)
    ensures ReadOutputs(Field("{", OutputFields(r)) + rest) == Some(((r.err, r.out, r.stderr, r.stdout), rest))
  {
    hide ReadWire, WireText, Expect, Ascii;
    var d := Ascii(",\"stdout\":") + (WireText(r.stdout) + rest);
    var c := Ascii(",\"stderr\":") + (WireText(r.stderr) + d);
    var b := Ascii(",\"out\":") + (WireText(r.out) + c);
    var a := Ascii("{\"err\":") + (WireText(r.err) + b);
    FirstKey();
    assert Field("{", OutputFields(r)) + rest == a;
    Expected("{\"err\":", WireText(r.err) + b);
    WireRead(r.err, b);
    Expected(",\"out\":", WireText(r.out) + c);
    WireRead(r.out, c);
    Expected(",\"stderr\":", WireText(r.stderr) + d);
    WireRead(r.stderr, d);
    Expected(",\"stdout\":", WireText(r.stdout) + rest);
    WireRead(r.stdout, rest);
  }

  lemma FirstKey()
    ensures Ascii("{") + Ascii("\"err\":") == Ascii("{\"err\":")
  {
  }

  lemma StatusRead(r: Response, rest: Bytes)
    requires rest == Ascii("}")
    ensures ReadStatus(StatusFields(r) + rest) == Some(((r.exitCode, r.hasError, r.timedOut, r.truncated), rest))
  {
    hide ReadExit, ReadBool, ExitText, BoolText, Expect, Ascii;
    var c := Ascii(",\"truncated\":") + (BoolText(r.truncated) + rest);
    var b := Ascii(",\"timed_out\":") + (BoolText(r.timedOut) + c);
    var a := Ascii(",\"exit_code\":") + (ExitText(r.exitCode) + b);
    var s := StatusFields(r) + rest;
    ErrorKey(a, ExitText(r.exitCode) + b);
    if r.hasError {
      assert s == Ascii(",\"error\":") + Ascii("null") + a;
    } else {
      assert s == a;
    }
    Expected(",\"exit_code\":", ExitText(r.exitCode) + b);
    CommaFirst(BoolText(r.timedOut) + c);
    ExitRead(r.exitCode, b);
    Expected(",\"timed_out\":", BoolText(r.timedOut) + c);
    BoolRead(r.timedOut, c);
    Expected(",\"truncated\":", BoolText(r.truncated) + rest);
    BoolRead(r.truncated, rest);
  }

  lemma ErrorKey(a: Bytes, tail: Bytes)
    requires a == Ascii(",\"exit_code\":") + tail
    ensures Ascii(",\"error\":") + Ascii("null") == Ascii(",\"error\":null")
    ensures Expect(Ascii(",\"error\":") + Ascii("null") + a, ",\"error\":null") == Some(a)
    ensures Expect(a, ",\"error\":null") == None
  {
    var key := Ascii(",\"error\":null");
    assert Ascii(",\"error\":") + Ascii("null") == key;
    assert (key + a)[|key|..] == a;
    assert a[3] == Ascii(",\"exit_code\":")[3] == 120;
    assert key[3] == 114;
  }

  lemma CommaFirst(tail: Bytes)
    ensures NoDigit(Ascii(",\"timed_out\":") + tail)
  {
    assert Ascii(",\"timed_out\":")[0] == 44;
  }

  /** The response is read back from its serialized form, every output, status and flag. */
  lemma ResponseRead(r: Response)
    ensures ReadResponse(Serialize(r)) == Some(r)
  {
    hide ReadOutputs, ReadStatus, OutputFields, StatusFields, Field, Ascii;
    var tail := StatusFields(r) + Ascii("}");
    assert Serialize(r) == Field("{", OutputFields(r)) + tail;
    OutputsRead(r, tail);
    StatusRead(r, Ascii("}"));
  }
}
