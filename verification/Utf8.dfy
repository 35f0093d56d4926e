/** UTF-8 decoding with substitution of maximal subparts, the algorithm behind
    `String::from_utf8_lossy` (section 3.9 of the Unicode Standard, Table 3-7). */
module Utf8 {
  import opened Common

  predicate IsContinuation(b: Byte) {
    0x80 <= b <= 0xBF
  }

  /** Length of the sequence a lead byte announces; 0 for a byte that never starts one. */
  function Width(b: Byte): nat {
    if b <= 0x7F then 1
    else if 0xC2 <= b <= 0xDF then 2
    else if 0xE0 <= b <= 0xEF then 3
    else if 0xF0 <= b <= 0xF4 then 4
    else 0
  }

  predicate SecondOk(lead: Byte, b: Byte) {
    if lead == 0xE0 then 0xA0 <= b <= 0xBF
    else if lead == 0xED then 0x80 <= b <= 0x9F
    else if lead == 0xF0 then 0x90 <= b <= 0xBF
    else if lead == 0xF4 then 0x80 <= b <= 0x8F
    else IsContinuation(b)
  }

  /** How many bytes the decoder consumes at the front of `s` in one step. */
  function UnitLen(s: Bytes): (n: nat)
    requires s != []
    ensures 1 <= n <= |s| && n <= 4
  {
    var w := Width(s[0]);
    if w <= 1 || |s| < 2 || !SecondOk(s[0], s[1]) then 1
    else if w == 2 || |s| < 3 || !IsContinuation(s[2]) then 2
    else if w == 3 || |s| < 4 || !IsContinuation(s[3]) then 3
    else 4
  }

  /** Whether that step is one whole, valid character. */
  predicate Complete(s: Bytes)
    requires s != []
  {
    UnitLen(s) == Width(s[0])
  }

  /** U+FFFD in UTF-8. */
  const REPLACEMENT: Bytes := [0xEF, 0xBF, 0xBD]

  /** What one decoder step emits. */
  function Emit(s: Bytes): Bytes
    requires s != []
  {
    if Complete(s) then s[..UnitLen(s)] else REPLACEMENT
  }

  /** `String::from_utf8_lossy`; text is represented by its UTF-8 bytes. */
  function Lossy(s: Bytes): Bytes {
    if s == [] then [] else Emit(s) + Lossy(s[UnitLen(s)..])
  }

  /** `std::str::from_utf8(s).is_ok()`. */
  predicate Valid(s: Bytes) {
    s == [] || (Complete(s) && Valid(s[UnitLen(s)..]))
  }

  /** A Rust `String`. */
  type Text = s: Bytes | Valid(s)

  // ---------------------------------------------------------------------------
  // The decoder step against Table 3-7 of the Unicode Standard.
  // ---------------------------------------------------------------------------

  /** Table 3-7: the well-formed byte sequences, row by row. */
  predicate WellFormed(c: Bytes) {
    || (|c| == 1 && c[0] <= 0x7F)
    || (|c| == 2 && 0xC2 <= c[0] <= 0xDF && 0x80 <= c[1] <= 0xBF)
    || (|c| == 3 && c[0] == 0xE0 && 0xA0 <= c[1] <= 0xBF && 0x80 <= c[2] <= 0xBF)
    || (|c| == 3 && 0xE1 <= c[0] <= 0xEC && 0x80 <= c[1] <= 0xBF && 0x80 <= c[2] <= 0xBF)
    || (|c| == 3 && c[0] == 0xED && 0x80 <= c[1] <= 0x9F && 0x80 <= c[2] <= 0xBF)
    || (|c| == 3 && 0xEE <= c[0] <= 0xEF && 0x80 <= c[1] <= 0xBF && 0x80 <= c[2] <= 0xBF)
    || (|c| == 4 && c[0] == 0xF0 && 0x90 <= c[1] <= 0xBF && 0x80 <= c[2] <= 0xBF && 0x80 <= c[3] <= 0xBF)
    || (|c| == 4 && 0xF1 <= c[0] <= 0xF3 && 0x80 <= c[1] <= 0xBF && 0x80 <= c[2] <= 0xBF && 0x80 <= c[3] <= 0xBF)
    || (|c| == 4 && c[0] == 0xF4 && 0x80 <= c[1] <= 0x8F && 0x80 <= c[2] <= 0xBF && 0x80 <= c[3] <= 0xBF)
  }

  /** `p` can still be extended to (or already is) a well-formed sequence. */
  ghost predicate StartsWellFormed(p: Bytes) {
    exists c :: WellFormed(c) && p <= c
  }

  lemma CompleteUnitIsWellFormed(s: Bytes)
    requires s != []
    ensures Complete(s) ==> WellFormed(s[..UnitLen(s)])
    ensures forall n {:trigger s[..n]} :: 0 < n <= |s| && WellFormed(s[..n]) ==> Complete(s) && n == UnitLen(s)
  {
  }

  /** Without a complete character the step takes the maximal subpart: the
      longest prefix that still starts a well-formed sequence, or one byte. */
  lemma IncompleteUnitIsMaximalSubpart(s: Bytes)
    requires s != [] && !Complete(s)
    ensures UnitLen(s) == 1 || StartsWellFormed(s[..UnitLen(s)])
    ensures forall n {:trigger s[..n]} :: UnitLen(s) < n <= |s| ==> !StartsWellFormed(s[..n])
  {
    var k := UnitLen(s);
    if k > 1 {
      var c := s[..k] + seq(Width(s[0]) - k, _ => 0x80);
      assert WellFormed(c) && s[..k] <= c;
    }
    forall n {:trigger s[..n]} | k < n <= |s|
      ensures !StartsWellFormed(s[..n])
    {
      var p := s[..n];
      assert p[k] == s[k] && (k > 1 ==> p[1] == s[1]);
      assert forall c :: WellFormed(c) ==> !(p <= c);
    }
  }

  // ---------------------------------------------------------------------------
  // Decoder boundaries.
  // ---------------------------------------------------------------------------

  /** The decoder, run over `s`, stops between two steps at offset `n`. */
  predicate BoundaryAt(s: Bytes, n: nat)
    requires n <= |s|
    decreases |s|
  {
    n == 0 || (UnitLen(s) <= n && BoundaryAt(s[UnitLen(s)..], n - UnitLen(s)))
  }

  lemma {:induction false} BoundaryTrans(s: Bytes, n: nat, m: nat)
    requires n + m <= |s|
    requires BoundaryAt(s, n) && BoundaryAt(s[n..], m)
    ensures BoundaryAt(s, n + m)
    decreases |s|
  {
    if n != 0 {
      var k := UnitLen(s);
      assert s[k..][n - k..] == s[n..];
      BoundaryTrans(s[k..], n - k, m);
    }
  }

  lemma UnitOfPrefix(s: Bytes, n: nat)
    requires s != [] && UnitLen(s) <= n <= |s|
    ensures UnitLen(s[..n]) == UnitLen(s) && Complete(s[..n]) == Complete(s) && Emit(s[..n]) == Emit(s)
  {
  }

  /** Decoding may be split at any boundary. */
  lemma {:induction false} LossyAtBoundary(s: Bytes, n: nat)
    requires n <= |s| && BoundaryAt(s, n)
    ensures Lossy(s) == Lossy(s[..n]) + Lossy(s[n..])
    decreases |s|
  {
    hide UnitLen, Complete, Emit;
    if n == 0 {
      assert s[..0] == [] && s[0..] == s;
    } else {
      var k, p := UnitLen(s), s[..n];
      UnitOfPrefix(s, n);
      calc {
        Lossy(s);
        Emit(s) + Lossy(s[k..]);
        { LossyAtBoundary(s[k..], n - k);
          assert s[k..][..n - k] == p[k..] && s[k..][n - k..] == s[n..]; }
        Emit(p) + (Lossy(p[k..]) + Lossy(s[n..]));
        Lossy(p) + Lossy(s[n..]);
      }
    }
  }

  /** So may validation. */
  lemma {:induction false} ValidAtBoundary(s: Bytes, n: nat)
    requires n <= |s| && BoundaryAt(s, n)
    ensures Valid(s) <==> Valid(s[..n]) && Valid(s[n..])
    decreases |s|
  {
    hide UnitLen, Complete;
    if n == 0 {
      assert s[..0] == [] && s[0..] == s;
    } else {
      var k, p := UnitLen(s), s[..n];
      UnitOfPrefix(s, n);
      ValidAtBoundary(s[k..], n - k);
      assert s[k..][..n - k] == p[k..] && s[k..][n - k..] == s[n..];
    }
  }

  /** A byte that is not a continuation byte always starts a new step. */
  lemma {:induction false} LeadIsBoundary(s: Bytes, n: nat)
    requires n < |s| && !IsContinuation(s[n])
    ensures BoundaryAt(s, n)
    decreases |s|
  {
    if n != 0 {
      var k := UnitLen(s);
      assert k <= n;
      LeadIsBoundary(s[k..], n - k);
    }
  }

  /** A run of stray continuation bytes is decoded one byte at a time. */
  lemma {:induction false} ContinuationRunBoundary(s: Bytes, n: nat)
    requires n <= |s| && forall i :: 0 <= i < n ==> IsContinuation(s[i])
    ensures BoundaryAt(s, n)
    decreases n
  {
    if n != 0 {
      assert UnitLen(s) == 1;
      ContinuationRunBoundary(s[1..], n - 1);
    }
  }

  /** Lossy decoding always yields a valid string. */
  lemma {:induction false} LossyIsValid(s: Bytes)
    ensures Valid(Lossy(s))
    decreases |s|
  {
    if s != [] {
      EmitIsCharacter(s);
      LossyIsValid(s[UnitLen(s)..]);
      PrependCharacter(Emit(s), Lossy(s[UnitLen(s)..]));
    }
  }

  /** It changes nothing exactly when the bytes were a valid string already. */
  lemma {:induction false} LossyIdentity(s: Bytes)
    ensures Lossy(s) == s <==> Valid(s)
    decreases |s|
  {
    if Valid(s) && s != [] {
      LossyIdentity(s[UnitLen(s)..]);
    } else {
      LossyIsValid(s);
    }
  }

  lemma EmitIsCharacter(s: Bytes)
    requires s != []
    ensures var c := Emit(s); c != [] && Complete(c) && UnitLen(c) == |c|
  {
  }

  lemma PrependCharacter(c: Bytes, s: Bytes)
    requires c != [] && Complete(c) && UnitLen(c) == |c|
    requires Valid(s)
    ensures Valid(c + s)
  {
  }
}
