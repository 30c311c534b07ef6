/** Text as Unicode scalar values, and its UTF-8 bytes (section 3 of RFC 3629). */
module Utf8 {
  import opened Collections

  type Byte = b: int | 0 <= b < 0x100
  type Scalar = c: int | 0 <= c < 0xD800 || 0xE000 <= c < 0x11_0000

  /** What stands for bytes that are not text. */
  const REPLACEMENT: Scalar := 0xFFFD

  function EncodeScalar(c: Scalar): (bytes: seq<Byte>)
    ensures 1 <= |bytes| <= 4
  {
    if c < 0x80 then [c]
    else if c < 0x800 then [0xC0 + c / 64, 0x80 + c % 64]
    else if c < 0x1_0000 then [0xE0 + c / 4096, 0x80 + c / 64 % 64, 0x80 + c % 64]
    else [0xF0 + c / 262144, 0x80 + c / 4096 % 64, 0x80 + c / 64 % 64, 0x80 + c % 64]
  }

  function Encode(text: seq<Scalar>): seq<Byte> {
    if text == [] then []
    else Encode(text[..|text| - 1]) + EncodeScalar(text[|text| - 1])
  }

  predicate IsContinuation(b: Byte) {
    0x80 <= b < 0xC0
  }

  /** `str::is_char_boundary`, on the bytes. */
  predicate IsCharBoundary(bytes: seq<Byte>, end: nat) {
    end == 0 || end == |bytes| || (end < |bytes| && !IsContinuation(bytes[end]))
  }

  // ----- decoding

  /** The byte at `k`, or one that can continue nothing. */
  function At(bytes: seq<Byte>, k: nat): Byte {
    if k < |bytes| then bytes[k] else 0
  }

  /** The payload of a byte under its marker. */
  function Low(b: int, marker: int): int {
    b - marker
  }

  /** Which second bytes may follow a leading byte of three or four. */
  predicate SecondFits(first: Byte, second: Byte) {
    if first == 0xE0 then 0xA0 <= second < 0xC0
    else if first == 0xED then 0x80 <= second < 0xA0
    else if first == 0xF0 then 0x90 <= second < 0xC0
    else if first == 0xF4 then 0x80 <= second < 0x90
    else IsContinuation(second)
  }

  /** One decoding step: a scalar with the bytes it took, or how many bytes to
      replace, the longest start of a scalar there is or one byte. */
  datatype Piece = Piece(scalar: Option<Scalar>, width: nat)

  function FirstPiece(bytes: seq<Byte>): (piece: Piece)
    requires bytes != []
    ensures 1 <= piece.width <= |bytes|
  {
    var (b0, b1, b2, b3) := (bytes[0], At(bytes, 1), At(bytes, 2), At(bytes, 3));
    if b0 < 0x80 then Piece(Some(b0), 1)
    else if 0xC2 <= b0 < 0xE0 then
      if IsContinuation(b1) then Piece(Some(Low(b0, 0xC0) * 64 + Low(b1, 0x80)), 2) else Piece(None, 1)
    else if 0xE0 <= b0 < 0xF0 then
      if !SecondFits(b0, b1) then Piece(None, 1)
      else if !IsContinuation(b2) then Piece(None, 2)
      else Piece(Some(Low(b0, 0xE0) * 4096 + Low(b1, 0x80) * 64 + Low(b2, 0x80)), 3)
    else if 0xF0 <= b0 < 0xF5 then
      if !SecondFits(b0, b1) then Piece(None, 1)
      else if !IsContinuation(b2) then Piece(None, 2)
      else if !IsContinuation(b3) then Piece(None, 3)
      else Piece(Some(Low(b0, 0xF0) * 262144 + Low(b1, 0x80) * 4096 + Low(b2, 0x80) * 64 + Low(b3, 0x80)), 4)
    else Piece(None, 1)
  }

  /** `String::from_utf8_lossy`. */
  function DecodeLossy(bytes: seq<Byte>): seq<Scalar> {
    if bytes == [] then []
    else
      var piece := FirstPiece(bytes);
      [if piece.scalar.Some? then piece.scalar.value else REPLACEMENT] + DecodeLossy(bytes[piece.width..])
  }

  // ----- laws

  lemma {:induction false} EncodeAppend(text: seq<Scalar>, more: seq<Scalar>)
    ensures Encode(text + more) == Encode(text) + Encode(more)
  {
    if more == [] {
      assert text + more == text;
    } else {
      assert (text + more)[..|text + more| - 1] == text + more[..|more| - 1];
      EncodeAppend(text, more[..|more| - 1]);
    }
  }

  lemma FirstPieceOfEncoded(c: Scalar, rest: seq<Byte>)
    ensures FirstPiece(EncodeScalar(c) + rest) == Piece(Some(c), |EncodeScalar(c)|)
  {
    if c < 0x800 {
      ShortPiece(c, rest);
    } else if c < 0x1_0000 {
      ThreeBytePiece(c, rest);
    } else {
      FourBytePiece(c, rest);
    }
  }

  lemma ShortPiece(c: Scalar, rest: seq<Byte>)
    requires c < 0x800
    ensures FirstPiece(EncodeScalar(c) + rest) == Piece(Some(c), |EncodeScalar(c)|)
  {
  }

  lemma ThreeBytePiece(c: Scalar, rest: seq<Byte>)
    requires 0x800 <= c < 0x1_0000
    ensures FirstPiece(EncodeScalar(c) + rest) == Piece(Some(c), 3)
  {
    var (b0, b1, b2) := (0xE0 + c / 4096, 0x80 + c / 64 % 64, 0x80 + c % 64);
    assert EncodeScalar(c) == [b0, b1, b2];
    assert SecondFits(b0, b1);
  }

  lemma FourBytePiece(c: Scalar, rest: seq<Byte>)
    requires 0x1_0000 <= c
    ensures FirstPiece(EncodeScalar(c) + rest) == Piece(Some(c), 4)
  {
    var (b0, b1, b2, b3) := (0xF0 + c / 262144, 0x80 + c / 4096 % 64, 0x80 + c / 64 % 64, 0x80 + c % 64);
    FourParts(c);
    assert EncodeScalar(c) == [b0, b1, b2, b3];
    assert FirstPiece([b0, b1, b2, b3] + rest) == Piece(Some(c), 4);
  }

  lemma FourParts(c: Scalar)
    requires 0x1_0000 <= c
    ensures c == c / 262144 * 262144 + c / 4096 % 64 * 4096 + c / 64 % 64 * 64 + c % 64
    ensures 0 <= c / 262144 < 5
    ensures SecondFits(0xF0 + c / 262144, 0x80 + c / 4096 % 64)
  {
  }

  /** Lossy decoding loses nothing that was text. */
  lemma {:induction false} TextSurvives(text: seq<Scalar>)
    ensures DecodeLossy(Encode(text)) == text
  {
    if text != [] {
      var (first, rest) := (text[..1], text[1..]);
      assert text == first + rest && first[..0] == [];
      EncodeAppend(first, rest);
      assert Encode(first) == EncodeScalar(text[0]);
      FirstPieceOfEncoded(text[0], Encode(rest));
      TextSurvives(rest);
    }
  }

  /** A decoded scalar is what the bytes it took encode: no other form of it is
      read. */
  lemma OnlyTextIsRead(bytes: seq<Byte>)
    requires bytes != []
    ensures var piece := FirstPiece(bytes);
      piece.scalar.Some? ==> bytes[..piece.width] == EncodeScalar(piece.scalar.value)
  {
    var piece := FirstPiece(bytes);
    if piece.scalar.Some? {
      match piece.width
      case 1 =>
      case 2 => TwoParts(bytes[0] - 0xC0, bytes[1] - 0x80);
      case 3 => ThreeParts(bytes[0] - 0xE0, bytes[1] - 0x80, bytes[2] - 0x80);
      case _ => FourPartsOf(bytes[0] - 0xF0, bytes[1] - 0x80, bytes[2] - 0x80, bytes[3] - 0x80);
    }
  }

  lemma TwoParts(a: int, b: int)
    requires 0 <= a < 32 && 0 <= b < 64
    ensures var c := a * 64 + b; c / 64 == a && c % 64 == b
  {
  }

  lemma ThreeParts(a: int, b: int, c: int)
    requires 0 <= a < 16 && 0 <= b < 64 && 0 <= c < 64
    ensures var d := a * 4096 + b * 64 + c; d / 4096 == a && d / 64 % 64 == b && d % 64 == c
  {
    TwoParts(a, b);
  }

  lemma FourPartsOf(a: int, b: int, c: int, d: int)
    requires 0 <= a < 8 && 0 <= b < 64 && 0 <= c < 64 && 0 <= d < 64
    ensures var e := a * 262144 + b * 4096 + c * 64 + d;
      e / 262144 == a && e / 4096 % 64 == b && e / 64 % 64 == c && e % 64 == d
  {
    ThreeParts(a, b, c);
  }

  /** `bytes` begin with the first `k` of the bytes of `c`. */
  predicate Starts(bytes: seq<Byte>, c: Scalar, k: nat) {
    k <= |bytes| && k <= |EncodeScalar(c)| && bytes[..k] == EncodeScalar(c)[..k]
  }

  lemma StartFits(bytes: seq<Byte>, c: Scalar, k: nat)
    requires Starts(bytes, c, k) && k > 0
    ensures k > 1 ==> bytes[0] >= 0xC2 && SecondFits(bytes[0], bytes[1]) && bytes[0] < 0xF5
    ensures k > 2 ==> bytes[0] >= 0xE0 && IsContinuation(bytes[2])
    ensures k > 3 ==> bytes[0] >= 0xF0 && IsContinuation(bytes[3])
    ensures k == |EncodeScalar(c)| ==> FirstPiece(bytes) == Piece(Some(c), k)
  {
    var full := EncodeScalar(c);
    assert forall i :: 0 <= i < k ==> bytes[i] == full[i];
    if c >= 0x1_0000 {
      FourParts(c);
    }
    if k == |full| {
      assert bytes == full + bytes[k..];
      FirstPieceOfEncoded(c, bytes[k..]);
    }
  }

  /** What is replaced is the longest start of a scalar there is, or one byte that
      starts none. */
  lemma ReplacedIsLongest(bytes: seq<Byte>)
    requires bytes != [] && FirstPiece(bytes).scalar.None?
    ensures var w := FirstPiece(bytes).width;
      && (forall c: Scalar, k: nat :: Starts(bytes, c, k) ==> k <= w)
      && (w > 1 ==> exists c: Scalar :: Starts(bytes, c, w))
      && DecodeLossy(bytes) == [0xFFFD] + DecodeLossy(bytes[w..])
  {
    var w := FirstPiece(bytes).width;
    forall c: Scalar, k: nat | Starts(bytes, c, k) ensures k <= w {
      if k > 0 {
        StartFits(bytes, c, k);
      }
    }
    if w > 1 {
      var c := StartedScalar(bytes);
      assert Starts(bytes, c, w);
    }
  }

  lemma StartedScalar(bytes: seq<Byte>) returns (c: Scalar)
    requires bytes != [] && FirstPiece(bytes).scalar.None? && FirstPiece(bytes).width > 1
    ensures Starts(bytes, c, FirstPiece(bytes).width)
  {
    var b: int := Low(bytes[1], 0x80);
    if bytes[0] < 0xF0 {
      var a := Low(bytes[0], 0xE0);
      ThreeParts(a, b, 0);
      c := a * 4096 + b * 64;
    } else {
      var a := Low(bytes[0], 0xF0);
      var third := if FirstPiece(bytes).width == 3 then Low(bytes[2], 0x80) else 0;
      FourPartsOf(a, b, third, 0);
      c := a * 262144 + b * 4096 + third * 64;
    }
  }

  lemma PrefixEncodes(text: seq<Scalar>, k: nat)
    requires k <= |text|
    ensures |Encode(text[..k])| <= |Encode(text)|
    ensures k < |text| ==> |Encode(text[..k])| < |Encode(text)|
    ensures Encode(text)[..|Encode(text[..k])|] == Encode(text[..k])
  {
    assert text == text[..k] + text[k..];
    EncodeAppend(text[..k], text[k..]);
    if k < |text| {
      assert |Encode(text[k..])| >= 1;
    }
  }

  lemma OnlyTheFirstByteLeads(c: Scalar, k: nat)
    requires k < |EncodeScalar(c)|
    ensures IsContinuation(EncodeScalar(c)[k]) <==> k > 0
  {
  }

  /** A prefix of the text ends on a boundary of its bytes. */
  lemma {:induction false} PrefixEndsOnABoundary(text: seq<Scalar>, k: nat)
    requires k <= |text|
    ensures IsCharBoundary(Encode(text), |Encode(text[..k])|)
  {
    PrefixEncodes(text, k);
    if k == |text| {
      assert text[..k] == text;
    } else {
      var init := text[..|text| - 1];
      assert init[..k] == text[..k];
      PrefixEndsOnABoundary(init, k);
      PrefixEncodes(init, k);
      OnlyTheFirstByteLeads(text[|text| - 1], 0);
    }
  }

  /** And there are no other boundaries. */
  lemma {:induction false} BoundaryEndsAPrefix(text: seq<Scalar>, end: nat) returns (k: nat)
    requires IsCharBoundary(Encode(text), end)
    ensures k <= |text| && |Encode(text[..k])| == end
  {
    if end == 0 {
      k := 0;
    } else if end == |Encode(text)| {
      k := |text|;
      assert text[..k] == text;
    } else {
      var init := text[..|text| - 1];
      if end > |Encode(init)| {
        OnlyTheFirstByteLeads(text[|text| - 1], end - |Encode(init)|);
        assert false;
      }
      k := BoundaryEndsAPrefix(init, end);
      assert init[..k] == text[..k];
    }
  }

  /** The longest prefix whose bytes are at most `limit`. */
  function Cut(text: seq<Scalar>, limit: nat): (cut: seq<Scalar>)
    ensures |Encode(cut)| <= limit
  {
    if |Encode(text)| <= limit then text else Cut(text[..|text| - 1], limit)
  }

  lemma {:induction false} CutIsLongest(text: seq<Scalar>, limit: nat)
    ensures |Cut(text, limit)| <= |text| && Cut(text, limit) == text[..|Cut(text, limit)|]
    ensures forall k: nat | |Cut(text, limit)| < k <= |text| :: |Encode(text[..k])| > limit
  {
    if |Encode(text)| > limit {
      var init := text[..|text| - 1];
      CutIsLongest(init, limit);
      forall k: nat | |Cut(text, limit)| < k <= |text| ensures |Encode(text[..k])| > limit {
        if k == |text| {
          assert text[..k] == text;
        } else {
          assert text[..k] == init[..k];
        }
      }
    }
  }
}
