/** ZBRT wire primitives: length-prefixed fields written to a buffer and read
    back through a cursor (`put`, `get`, `getn`, `getflag` in `zeroboot_protocol.rs`). */
module Wire {
  import opened Common
  import opened Utf8

  datatype WireError =
    | Truncated | Trailing | InvalidUtf8 | FieldTooLarge | TooManyItems
    | InvalidFrame | BadMagicOrVersion | BadFlags | PayloadTooLarge | UnknownKind | UnexpectedEof

  const U32_LIMIT: nat := 0x1_0000_0000

  type U32 = x: nat | x < U32_LIMIT

  /** A 128-bit wire request id. */
  type RequestId = b: Bytes | |b| == 16 witness seq(16, _ => 0)

  /** What a cursor-advancing read yields: the value and the bytes after it. */
  type Read<T> = Result<(T, Bytes), WireError>

  // ---------------------------------------------------------------------------
  // Writing.
  // ---------------------------------------------------------------------------

  /** `u32::to_be_bytes`. */
  function Be32(n: U32): (b: Bytes)
    ensures |b| == 4
  {
    [n / 256 / 256 / 256, n / 256 / 256 % 256, n / 256 % 256, n % 256]
  }

  function Put(b: Bytes): Result<Bytes, WireError> {
    if |b| < U32_LIMIT then Ok(Be32(|b|) + b) else Err(FieldTooLarge)
  }

  function PutTexts(items: seq<Text>): Result<Bytes, WireError> {
    if items == [] then Ok([]) else
      var head :- Put(items[0]);
      var tail :- PutTexts(items[1..]);
      Ok(head + tail)
  }

  /** A flag byte and, when the value is there, its field. */
  function PutOptional(value: Option<Text>): Result<Bytes, WireError> {
    match value
    case None => Ok([0])
    case Some(text) =>
      var field :- Put(text);
      Ok([1] + field)
  }

  /** A list length in one byte. */
  function PutCount(n: nat): Result<Bytes, WireError> {
    if n < 256 then Ok([n]) else Err(TooManyItems)
  }

  // ---------------------------------------------------------------------------
  // Reading.
  // ---------------------------------------------------------------------------

  /** `u32::from_be_bytes`. */
  function FromBe32(b: Bytes): U32
    requires |b| == 4
  {
    ((256 * (b[0] as int) + b[1]) * 256 + b[2]) * 256 + b[3]
  }

  function GetN(b: Bytes, n: nat): Read<Bytes> {
    if |b| < n then Err(Truncated) else Ok((b[..n], b[n..]))
  }

  function GetByte(b: Bytes): Read<Byte> {
    var (x, b') :- GetN(b, 1);
    Ok((x[0], b'))
  }

  /** Any non-zero byte reads as true. */
  function GetFlag(b: Bytes): Read<bool> {
    var (x, b') :- GetByte(b);
    Ok((x != 0, b'))
  }

  function GetU32(b: Bytes): Read<U32> {
    var (x, b') :- GetN(b, 4);
    Ok((FromBe32(x), b'))
  }

  function Get(b: Bytes): Read<Bytes> {
    var (n, b') :- GetU32(b);
    GetN(b', n)
  }

  function GetText(b: Bytes): Read<Text> {
    var (x, b') :- Get(b);
    if Valid(x) then Ok((x, b')) else Err(InvalidUtf8)
  }

  function GetTexts(b: Bytes, n: nat): Read<seq<Text>>
    decreases n
  {
    if n == 0 then Ok(([], b)) else
      var (head, b') :- GetText(b);
      var (tail, b'') :- GetTexts(b', n - 1);
      Ok(([head] + tail, b''))
  }

  function GetOptional(b: Bytes): Read<Option<Text>> {
    var (present, b') :- GetFlag(b);
    if !present then Ok((None, b')) else
      var (text, b'') :- GetText(b');
      Ok((Some(text), b''))
  }

  // ---------------------------------------------------------------------------
  // Reading back what was written, whatever follows it.
  // ---------------------------------------------------------------------------

  lemma Be32RoundTrip(n: U32)
    ensures FromBe32(Be32(n)) == n
  {
    var x, y := n / 256, n / 256 / 256;
    assert n == x * 256 + n % 256 && x == y * 256 + x % 256 && y == y / 256 * 256 + y % 256;
  }

  lemma U32Law(n: U32, e: Bytes)
    ensures GetU32(Be32(n) + e) == Ok((n, e))
  {
    var b := Be32(n) + e;
    assert b[..4] == Be32(n) && b[4..] == e;
    Be32RoundTrip(n);
  }

  lemma ByteLaw(x: Byte, e: Bytes)
    ensures GetByte([x] + e) == Ok((x, e)) && GetFlag([x] + e) == Ok((x != 0, e))
  {
    assert ([x] + e)[..1] == [x] && ([x] + e)[1..] == e;
  }

  lemma FieldLaw(x: Bytes, e: Bytes)
    requires Put(x).Ok?
    ensures Get(Put(x).value + e) == Ok((x, e))
    ensures Valid(x) ==> GetText(Put(x).value + e) == Ok((x, e))
  {
    assert Put(x).value + e == Be32(|x|) + (x + e);
    U32Law(|x|, x + e);
    assert (x + e)[..|x|] == x && (x + e)[|x|..] == e;
  }

  lemma {:induction false} TextsLaw(items: seq<Text>, e: Bytes)
    requires PutTexts(items).Ok?
    ensures GetTexts(PutTexts(items).value + e, |items|) == Ok((items, e))
  {
    if items == [] {
      assert [] + e == e;
    } else {
      var head, tail := Put(items[0]).value, PutTexts(items[1..]).value;
      assert (head + tail) + e == head + (tail + e);
      FieldLaw(items[0], tail + e);
      TextsLaw(items[1..], e);
      assert [items[0]] + items[1..] == items;
    }
  }

  lemma OptionalLaw(value: Option<Text>, e: Bytes)
    requires PutOptional(value).Ok?
    ensures GetOptional(PutOptional(value).value + e) == Ok((value, e))
  {
    match value
    case None => ByteLaw(0, e);
    case Some(text) =>
      var field := Put(text).value;
      assert ([1] + field) + e == [1] + (field + e);
      ByteLaw(1, field + e);
      FieldLaw(text, e);
  }

  // ---------------------------------------------------------------------------
  // A successful read depends only on the bytes it consumed.
  // ---------------------------------------------------------------------------

  /** Bytes appended behind a successful read are left in the rest untouched. */
  ghost predicate Stable<T>(r: Read<T>, r': Read<T>, e: Bytes) {
    r.Ok? ==> r' == Ok((r.value.0, r.value.1 + e))
  }

  lemma GetNStable(b: Bytes, n: nat, e: Bytes)
    ensures Stable(GetN(b, n), GetN(b + e, n), e)
    ensures Stable(GetByte(b), GetByte(b + e), e)
    ensures Stable(GetFlag(b), GetFlag(b + e), e)
    ensures Stable(GetU32(b), GetU32(b + e), e)
  {
    if |b| >= n { assert (b + e)[..n] == b[..n] && (b + e)[n..] == b[n..] + e; }
    if |b| >= 1 { assert (b + e)[..1] == b[..1] && (b + e)[1..] == b[1..] + e; }
    if |b| >= 4 { assert (b + e)[..4] == b[..4] && (b + e)[4..] == b[4..] + e; }
  }

  lemma GetStable(b: Bytes, e: Bytes)
    ensures Stable(Get(b), Get(b + e), e) && Stable(GetText(b), GetText(b + e), e)
  {
    GetNStable(b, 0, e);
    if GetU32(b).Ok? {
      var (n, b') := GetU32(b).value;
      GetNStable(b', n, e);
    }
  }

  lemma {:induction false} GetTextsStable(b: Bytes, n: nat, e: Bytes)
    ensures Stable(GetTexts(b, n), GetTexts(b + e, n), e)
    decreases n
  {
    if n > 0 {
      GetStable(b, e);
      if GetText(b).Ok? {
        GetTextsStable(GetText(b).value.1, n - 1, e);
      }
    }
  }

  lemma GetOptionalStable(b: Bytes, e: Bytes)
    ensures Stable(GetOptional(b), GetOptional(b + e), e)
  {
    GetNStable(b, 0, e);
    if GetFlag(b).Ok? {
      GetStable(GetFlag(b).value.1, e);
    }
  }

  // ---------------------------------------------------------------------------
  // The list loops of the source.
  // ---------------------------------------------------------------------------

  /** Append the texts one field after the other; the first that is too long stops it. */
  method WriteTexts(o: Bytes, items: seq<Text>) returns (r: Result<Bytes, WireError>)
    ensures PutTexts(items).Err? ==> r == Err(PutTexts(items).error)
    ensures PutTexts(items).Ok? ==> r == Ok(o + PutTexts(items).value)
  {
    var out, i := o, 0;
    assert items[0..] == items;
    while i < |items|
      invariant 0 <= i <= |items|
      invariant PutTexts(items).Err? ==> PutTexts(items[i..]) == PutTexts(items)
      invariant PutTexts(items).Ok? ==>
                  PutTexts(items[i..]).Ok? && out + PutTexts(items[i..]).value == o + PutTexts(items).value
    {
      assert items[i..][1..] == items[i + 1..];
      var field := Put(items[i]);
      if field.Err? {
        return Err(field.error);
      }
      out := out + field.value;
      i := i + 1;
    }
    assert items[i..] == [] && out + [] == out;
    return Ok(out);
  }

  /** Read `n` texts, moving the cursor past each. */
  method ReadTexts(bytes: Bytes, n: nat) returns (r: Read<seq<Text>>)
    ensures r == GetTexts(bytes, n)
  {
    var b, items, i := bytes, [], 0;
    while i < n
      invariant 0 <= i <= n
      invariant GetTexts(bytes, n).Err? ==> GetTexts(b, n - i) == GetTexts(bytes, n)
      invariant GetTexts(bytes, n).Ok? ==>
                  GetTexts(b, n - i).Ok?
                  && items + GetTexts(b, n - i).value.0 == GetTexts(bytes, n).value.0
                  && GetTexts(b, n - i).value.1 == GetTexts(bytes, n).value.1
    {
      var item := GetText(b);
      if item.Err? {
        return Err(item.error);
      }
      items, b := items + [item.value.0], item.value.1;
      i := i + 1;
    }
    assert items + [] == items;
    return Ok((items, b));
  }
}
