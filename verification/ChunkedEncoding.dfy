/**
 Chunked transfer coding, section 4.1 of RFC 7230 without extensions: the encoder that writes the delimiters
 around a body already placed in the buffer, and what a chunk-size line means.
 */
module ChunkedEncoding {
  import opened Bytes

  const ADDITIONAL_ENCODING_SPACE: nat := 12
  const DATA_OFFSET: nat := ADDITIONAL_ENCODING_SPACE - 2
  const SPACE: byte := 32
  const Crlf: seq<byte> := [CR, LF]

  function HexDigit(d: nat): byte
    requires d < 16
  {
    if d < 10 then 48 + d else 55 + d
  }

  /** `%zX`: upper-case hexadecimal without leading zeros. */
  function Hex(n: nat): seq<byte> {
    if n < 16 then [HexDigit(n)] else Hex(n / 16) + [HexDigit(n % 16)]
  }

  function Spaces(n: nat): (s: seq<byte>)
    ensures |s| == n && forall i | 0 <= i < n :: s[i] == SPACE
  {
    if n == 0 then [] else [SPACE] + Spaces(n - 1)
  }

  /** snprintf with "%8zX" into nine cells: padded to eight characters, and cut after eight. */
  function Padded(n: nat): (s: seq<byte>)
    ensures |s| == 8
  {
    if |Hex(n)| >= 8 then Hex(n)[..8] else Spaces(8 - |Hex(n)|) + Hex(n)
  }

  /** One chunk on the wire. */
  function Chunk(body: seq<byte>): seq<byte> {
    Hex(|body|) + Crlf + body + Crlf
  }

  const LastChunk: seq<byte> := [48] + Crlf + Crlf

  /** The whole transfer. */
  function Stream(bodies: seq<seq<byte>>): seq<byte> {
    if bodies == [] then LastChunk else Chunk(bodies[0]) + Stream(bodies[1..])
  }

  // ---------- hexadecimal numbers ----------

  predicate IsHexDigit(c: byte) {
    48 <= c <= 57 || 65 <= c <= 70 || 97 <= c <= 102
  }

  function DigitValue(c: byte): nat
    requires IsHexDigit(c)
  {
    if c <= 57 then c - 48 else if c <= 70 then c - 55 else c - 87
  }

  function Value(digits: seq<byte>): nat
    requires forall c <- digits :: IsHexDigit(c)
  {
    if digits == [] then 0 else 16 * Value(digits[..|digits| - 1]) + DigitValue(digits[|digits| - 1])
  }

  lemma {:induction false} HexValue(n: nat)
    ensures Hex(n) != [] && (forall c <- Hex(n) :: IsHexDigit(c)) && Value(Hex(n)) == n
  {
    if n < 16 {
      assert Hex(n)[..0] == [];
    } else {
      HexValue(n / 16);
      assert Hex(n)[..|Hex(n)| - 1] == Hex(n / 16);
    }
  }

  function Power16(k: nat): nat {
    if k == 0 then 1 else 16 * Power16(k - 1)
  }

  lemma {:induction false} HexLength(n: nat, k: nat)
    requires k > 0
    ensures |Hex(n)| <= k <==> n < Power16(k)
    decreases n
  {
    if n >= 16 && k > 1 {
      HexLength(n / 16, k - 1);
    } else {
      Power16AtLeast(k);
    }
  }

  lemma {:induction false} Power16AtLeast(k: nat)
    requires k > 0
    ensures Power16(k) >= 16 && (k == 1 ==> Power16(k) == 16)
  {
    if k > 1 {
      Power16AtLeast(k - 1);
    }
  }

  lemma EightDigits(n: nat)
    ensures |Hex(n)| <= 8 <==> n < 0x1_0000_0000
  {
    HexLength(n, 8);
    assert Power16(8) == 0x1_0000_0000;
  }

  // ---------- spellings of a size ----------

  // "0123456789ABCDEF" and "0123456789abcdef"
  const CAPITALS: seq<byte> := [48, 49, 50, 51, 52, 53, 54, 55, 56, 57, 65, 66, 67, 68, 69, 70]
  const SMALLS: seq<byte> := [48, 49, 50, 51, 52, 53, 54, 55, 56, 57, 97, 98, 99, 100, 101, 102]

  /** The digits, one by one. */
  lemma DigitsAre(d: nat)
    requires d < 16
    ensures HexDigit(d) == CAPITALS[d]
    ensures IsHexDigit(CAPITALS[d]) && DigitValue(CAPITALS[d]) == d
    ensures IsHexDigit(SMALLS[d]) && DigitValue(SMALLS[d]) == d
  {
  }

  lemma OnlyDigitsAre(c: byte)
    ensures IsHexDigit(c) <==> c in CAPITALS || c in SMALLS
  {
  }

  /** The same digit, a letter perhaps small. */
  predicate SameDigit(a: byte, digit: byte) {
    a == digit || (65 <= digit <= 70 && a == digit + 32)
  }

  /** `digits` with letters large or small, perhaps behind zeros. */
  predicate Respelled(h: seq<byte>, digits: seq<byte>) {
    var z := |h| - |digits|;
    && z >= 0 && (forall i | 0 <= i < z :: h[i] == 48)
    && forall i | z <= i < |h| :: SameDigit(h[i], digits[i - z])
  }

  /** A size as a peer may write it. */
  predicate Spells(h: seq<byte>, n: nat) {
    Respelled(h, Hex(n))
  }

  lemma {:induction false} ZerosValue(h: seq<byte>, z: nat)
    requires z <= |h| && (forall i | 0 <= i < z :: h[i] == 48) && (forall c <- h :: IsHexDigit(c))
    ensures Value(h) == Value(h[z..])
    decreases |h|
  {
    if |h| > z {
      var front := h[..|h| - 1];
      ZerosValue(front, z);
      assert front[z..] == h[z..][..|h| - z - 1];
    } else if z > 0 {
      var front := h[..|h| - 1];
      ZerosValue(front, z - 1);
      assert front[z - 1..] == [] && h[z..] == [];
    }
  }

  lemma {:induction false} SameDigits(a: seq<byte>, b: seq<byte>)
    requires |a| == |b| && (forall c <- a :: IsHexDigit(c)) && (forall c <- b :: IsHexDigit(c))
    requires forall i | 0 <= i < |a| :: DigitValue(a[i]) == DigitValue(b[i])
    ensures Value(a) == Value(b)
  {
    if a != [] {
      SameDigits(a[..|a| - 1], b[..|b| - 1]);
    }
  }

  lemma RespelledValue(h: seq<byte>, digits: seq<byte>)
    requires digits != [] && (forall c <- digits :: IsHexDigit(c)) && Respelled(h, digits)
    ensures h != [] && (forall c <- h :: IsHexDigit(c)) && Value(h) == Value(digits)
  {
    var z := |h| - |digits|;
    forall k | 0 <= k < |h| ensures IsHexDigit(h[k]) {
      if k >= z {
        assert digits[k - z] in digits && SameDigit(h[k], digits[k - z]);
      }
    }
    ZerosValue(h, z);
    forall i | 0 <= i < |digits| ensures DigitValue(h[z..][i]) == DigitValue(digits[i]) {
      assert SameDigit(h[z + i], digits[z + i - z]) && digits[i] in digits;
    }
    SameDigits(h[z..], digits);
  }

  /** Every spelling of a size has its value. */
  lemma SpelledValue(h: seq<byte>, n: nat)
    requires Spells(h, n)
    ensures h != [] && (forall c <- h :: IsHexDigit(c)) && Value(h) == n
  {
    HexValue(n);
    RespelledValue(h, Hex(n));
  }

  lemma PrintedSpells(n: nat)
    ensures Spells(Hex(n), n)
  {
  }

  /** A chunk on the wire, byte by byte, and the last chunk. */
  lemma WireFormat(body: seq<byte>)
    ensures Chunk(body) == Hex(|body|) + [13, 10] + body + [13, 10]
    ensures LastChunk == [48, 13, 10, 13, 10]
    ensures Stream([]) == LastChunk && Stream([body]) == Chunk(body) + LastChunk
  {
    assert [body][1..] == [];
  }

  // ---------- the encoder ----------

  datatype Result = Offset(offset: nat) | InsufficientBuffer

  /** Where the size starts within its eight cells. */
  function Pad(n: nat): nat {
    if |Hex(n)| >= 8 then 0 else 8 - |Hex(n)|
  }

  lemma PaddedBlanks(n: nat)
    requires |Hex(n)| > 0
    ensures Pad(n) < 8 && Padded(n)[Pad(n)] == Hex(n)[0] && forall i | 0 <= i < Pad(n) :: Padded(n)[i] == SPACE
    ensures |Hex(n)| <= 8 ==> Padded(n)[Pad(n)..] == Hex(n)
  {
  }

  lemma SizeStarts(n: nat)
    ensures Pad(n) < 8 && Padded(n)[Pad(n)] != SPACE && forall i | 0 <= i < Pad(n) :: Padded(n)[i] == SPACE
    ensures n < 0x1_0000_0000 ==> Padded(n)[Pad(n)..] == Hex(n)
  {
    HexValue(n);
    EightDigits(n);
    PaddedBlanks(n);
    assert IsHexDigit(Hex(n)[0]);
  }

  /** Copies the padded size to the front and skips its leading blanks. */
  method WriteSize(data: array<byte>, n: nat) returns (offset: nat)
    requires data.Length >= 8
    modifies data
    ensures offset == Pad(n) && data[..8] == Padded(n)
    ensures forall i | 8 <= i < data.Length :: data[i] == old(data[i])
  {
    var buffer := Padded(n);
    SizeStarts(n);
    forall i | 0 <= i < 8 {
      data[i] := buffer[i];
    }
    assert data[..8] == buffer;
    offset := 0;
    while data[offset] == SPACE
      invariant 0 <= offset <= Pad(n)
      decreases Pad(n) - offset
    {
      offset := offset + 1;
    }
  }

  /** Between the size and the line end stands the body; it is a chunk exactly when the size was not cut. */
  lemma Framed(now: seq<byte>, n: nat, offset: nat, was: seq<byte>)
    requires |now| == |was| >= n + 12
    requires offset == Pad(n) && was[..8] == Padded(n)
    requires now == was[8 := CR][9 := LF][10 + n := CR][11 + n := LF]
    ensures offset <= 8 && now[..8] == was[..8]
    ensures now[offset..n + 12] == Chunk(was[10..10 + n]) <==> n < 0x1_0000_0000
  {
    var body := was[10..10 + n];
    SizeStarts(n);
    EightDigits(n);
    assert now[offset..n + 12] == was[..8][offset..] + Crlf + body + Crlf;
    assert |Chunk(body)| == |Hex(n)| + n + 4;
  }

  /** Frames the `bytesRead` bytes at `DATA_OFFSET`; the chunk starts at the returned offset. */
  method AddChunkedDelimiters(data: array<byte>, bufferSize: nat, bytesRead: nat) returns (r: Result)
    requires bufferSize <= data.Length
    modifies data
    ensures r == InsufficientBuffer <==> bufferSize < bytesRead + ADDITIONAL_ENCODING_SPACE
    ensures r == InsufficientBuffer ==> data[..] == old(data[..])
    ensures r.Offset? && bytesRead == 0 ==> r.offset == 7 && data[7..12] == LastChunk
    ensures r.Offset? && bytesRead > 0 ==>
      r.offset <= 8 &&
      (data[r.offset..bytesRead + ADDITIONAL_ENCODING_SPACE] == Chunk(old(data[DATA_OFFSET..DATA_OFFSET + bytesRead]))
       <==> bytesRead < 0x1_0000_0000)
    ensures r.Offset? && bytesRead >= 0x1_0000_0000 ==> r.offset == 0 && data[..8] == Padded(bytesRead)
    ensures forall i | bytesRead + ADDITIONAL_ENCODING_SPACE <= i < data.Length :: data[i] == old(data[i])
    ensures forall i | DATA_OFFSET <= i < DATA_OFFSET + bytesRead && i < data.Length :: data[i] == old(data[i])
  {
    var offset := 0;
    if bufferSize < bytesRead + ADDITIONAL_ENCODING_SPACE {
      return InsufficientBuffer;
    }
    if bytesRead == 0 {
      offset := 7;
      data[7] := 48;
      data[8], data[9] := CR, LF;
      data[10], data[11] := CR, LF;
    } else {
      EightDigits(bytesRead);
      offset := WriteSize(data, bytesRead);
      ghost var was := data[..];
      data[8], data[9] := CR, LF;
      data[10 + bytesRead], data[11 + bytesRead] := CR, LF;
      Framed(data[..], bytesRead, offset, was);
      assert was[10..10 + bytesRead] == old(data[10..10 + bytesRead]);
    }
    r := Offset(offset);
  }
}
