/** WebSocket frames: writing and reading them, against the layout of section 5.2 of RFC 6455. */
module WebSocket {
  import opened Octets
  import Byte
  import opened Wrappers

  type Mask = s: Bytes | |s| == 4 witness [0, 0, 0, 0]

  datatype Frame = Frame(fin: bool, rsv: bv8, opcode: bv8, payloadLen: U64, mask: Option<Mask>, payload: Bytes)

  // ---- Masking (section 5.3)

  function Masked(mask: Mask, data: Bytes): (r: Bytes)
    ensures |r| == |data|
  {
    seq(|data|, i requires 0 <= i < |data| => data[i] ^ mask[i % 4])
  }

  lemma MaskedStep(mask: Mask, data: Bytes, from: nat, i: nat)
    requires from + i < |data|
    ensures Masked(mask, data[from..from + i + 1]) ==
            Masked(mask, data[from..from + i]) + [data[from + i] ^ mask[i % 4]]
  {
  }

  method XorMask(mask: Mask, data: Bytes) returns (decoded: Bytes)
    ensures decoded == Masked(mask, data)
  {
    decoded := [];
    for i := 0 to |data|
      invariant decoded == Masked(mask, data[0..i])
    {
      MaskedStep(mask, data, 0, i);
      decoded := decoded + [data[i] ^ mask[i % 4]];
    }
    assert data[0..|data|] == data;
  }

  lemma XorTwice(x: bv8, y: bv8)
    ensures (x ^ y) ^ y == x
  {
  }

  lemma MaskingTwice(mask: Mask, data: Bytes)
    ensures Masked(mask, Masked(mask, data)) == data
  {
    forall i | 0 <= i < |data| ensures Masked(mask, Masked(mask, data))[i] == data[i] {
      XorTwice(data[i], mask[i % 4]);
    }
  }

  // ---- Writing

  function Flag(b: bool): bv8 { if b then 0x80 else 0 }

  function HeadByte(f: Frame): bv8 {
    (Flag(f.fin) | (f.rsv << 4)) | f.opcode
  }

  predicate InBand(n: nat) {
    126 <= n <= 65535
  }

  function Body(f: Frame): Bytes {
    match f.mask
    case Some(mask) => mask + Masked(mask, f.payload)
    case None => f.payload
  }

  /** The second byte, and a length field of `width` bytes. */
  function LengthBytes(f: Frame, code: bv8, width: nat): Bytes {
    [Flag(f.mask.Some?) | code] + BigEndian(f.payloadLen, width)
  }

  /** The length as the RFC lays it out: seven bits, or 126 and two bytes, or 127 and eight bytes. */
  function RfcLength(f: Frame): Bytes {
    if f.payloadLen <= 125 then LengthBytes(f, f.payloadLen as bv8, 0)
    else if f.payloadLen <= 65535 then LengthBytes(f, 126, 2)
    else LengthBytes(f, 127, 8)
  }

  /** The length as the code writes it: 126 to 65535 also take eight bytes. */
  function WrittenLength(f: Frame): Bytes {
    if InBand(f.payloadLen) then LengthBytes(f, 126, 8) else RfcLength(f)
  }

  function RfcBytes(f: Frame): Bytes {
    [HeadByte(f)] + RfcLength(f) + Body(f)
  }

  function Written(f: Frame): Bytes {
    [HeadByte(f)] + WrittenLength(f) + Body(f)
  }

  lemma NoLengthField(f: Frame, code: bv8, width: nat)
    requires width == 0
    ensures LengthBytes(f, code, width) == [Flag(f.mask.Some?) | code]
  {
  }

  method WriteLength(f: Frame) returns (s: Bytes)
    ensures s == WrittenLength(f)
  {
    if f.payloadLen <= 125 {
      s := [Flag(f.mask.Some?) | (f.payloadLen as bv8)];
      NoLengthField(f, f.payloadLen as bv8, 0);
    } else {
      var code: bv8 := if f.payloadLen <= 65535 then 126 else 127;
      s := [Flag(f.mask.Some?) | code] + BigEndian(f.payloadLen, 8);
    }
  }

  method WriteBody(f: Frame) returns (s: Bytes)
    ensures s == Body(f)
  {
    match f.mask {
      case Some(mask) =>
        var masked := XorMask(mask, f.payload);
        s := mask + masked;
      case None => s := f.payload;
    }
  }

  method ToBytes(f: Frame) returns (buf: Bytes)
    ensures buf == Written(f)
  {
    buf := [(Flag(f.fin) | (f.rsv << 4)) | f.opcode];
    var length := WriteLength(f);
    buf := buf + length;
    var body := WriteBody(f);
    buf := buf + body;
  }

  // ---- Reading

  /** `Panics` is an index past the end of the buffer. */
  datatype Outcome = Panics | Nothing | Parsed(frame: Frame)

  /** The value of the length field and the offset after it. */
  function LengthField(buf: Bytes): Option<(U64, nat)>
    requires |buf| >= 2
  {
    var code := buf[1] & 0x7f;
    if code == 126 then if |buf| < 4 then None else Some((Length(buf[2..4]), 4))
    else if code == 127 then if |buf| < 10 then None else Some((Length(buf[2..10]), 10))
    else Some((code as nat, 2))
  }

  function Length(s: Bytes): U64
    requires |s| <= 8
  {
    Powers();
    FromBigEndianBound(s);
    PowerMonotone(|s|, 8);
    FromBigEndian(s)
  }

  function FrameOf(head: bv8, n: U64, mask: Mask, payload: Bytes): Frame {
    Frame(head & 0x80 != 0, (head & 0x70) >> 4, head & 0x0f, n, Some(mask), payload)
  }

  function Read(buf: Bytes): Outcome {
    if |buf| < 2 then Panics
    else
      match LengthField(buf)
      case None => Panics
      case Some((n, offset)) =>
        if n == 0 || buf[1] & 0x80 == 0 then Nothing
        else if |buf| < offset + 4 then Panics
        else
          match Unmasked(buf, offset, n)
          case None => Panics
          case Some(payload) => Parsed(FrameOf(buf[0], n, buf[offset..offset + 4], payload))
  }

  /** The payload of `n` bytes after the mask at `offset`, or `None` if the buffer is too short. */
  function Unmasked(buf: Bytes, offset: nat, n: U64): Option<Bytes>
    requires |buf| >= offset + 4
  {
    if |buf| < offset + 4 + n then None
    else Some(Masked(buf[offset..offset + 4], buf[offset + 4..offset + 4 + n]))
  }

  method Unmask(buf: Bytes, offset: nat, payloadLen: U64) returns (r: Option<Bytes>)
    requires |buf| >= offset + 4
    ensures r == Unmasked(buf, offset, payloadLen)
  {
    var decoded, mask := [], buf[offset..offset + 4];
    for i := 0 to payloadLen
      invariant |buf| >= i + offset + 4
      invariant decoded == Masked(mask, buf[offset + 4..offset + 4 + i])
    {
      if |buf| <= i + offset + 4 {
        return None;
      }
      MaskedStep(mask, buf, offset + 4, i);
      decoded := decoded + [buf[i + offset + 4] ^ mask[i % 4]];
    }
    return Some(decoded);
  }

  method FromSlice(buf: Bytes) returns (r: Outcome)
    ensures r == Read(buf)
  {
    if |buf| < 2 {
      return Panics;
    }
    var fin, rsv, masked, opcode := buf[0] & 0x80 != 0, (buf[0] & 0x70) >> 4, buf[1] & 0x80 != 0, buf[0] & 0x0f;
    var field := LengthField(buf);
    if field.None? {
      return Panics;
    }
    var (payloadLen, offset) := field.value;
    if payloadLen == 0 {
      return Nothing;
    }
    if !masked {
      return Nothing;
    }
    if |buf| < offset + 4 {
      return Panics;
    }
    var decoded := Unmask(buf, offset, payloadLen);
    if decoded.None? {
      return Panics;
    }
    var mask: Mask := buf[offset..offset + 4];
    return Parsed(Frame(fin, rsv, opcode, payloadLen, Some(mask), decoded.value));
  }

  // ---- Round trips

  /** What a sender must respect: the two fields fit their bits, and the length is that of the payload. */
  predicate WellFormed(f: Frame) {
    f.rsv < 8 && f.opcode < 16 && f.payloadLen == |f.payload|
  }

  lemma HeadBits(f: Frame)
    requires f.rsv < 8 && f.opcode < 16
    ensures HeadByte(f) & 0x80 != 0 <==> f.fin
    ensures (HeadByte(f) & 0x70) >> 4 == f.rsv
    ensures HeadByte(f) & 0x0f == f.opcode
  {
  }

  lemma HeadRead(f: Frame, mask: Mask)
    requires f.rsv < 8 && f.opcode < 16 && f.mask == Some(mask)
    ensures FrameOf(HeadByte(f), f.payloadLen, mask, f.payload) == f
  {
    HeadBits(f);
  }

  lemma FieldsFit(b: bv8)
    ensures (b & 0x70) >> 4 < 8 && b & 0x0f < 16
  {
  }

  lemma LengthBits(masked: bool, code: bv8)
    requires code < 128
    ensures (Flag(masked) | code) & 0x7f == code
    ensures (Flag(masked) | code) & 0x80 == 0 <==> !masked
  {
  }

  lemma SmallCode(n: nat)
    requires n < 128
    ensures n as bv8 < 128 && (n as bv8) as nat == n
  {
    Byte.Value(n);
  }

  /** Whatever is read back is well formed, masked and not empty. */
  lemma ReadIsWellFormed(buf: Bytes)
    requires Read(buf).Parsed?
    ensures var f := Read(buf).frame; WellFormed(f) && f.mask.Some? && f.payload != []
  {
    FieldsFit(buf[0]);
  }

  function Laid(h: bv8, l: bv8, length: Bytes, body: Bytes): Bytes {
    [h] + ([l] + length) + body
  }

  lemma LaidParts(h: bv8, l: bv8, length: Bytes, mask: Mask, data: Bytes)
    ensures var buf, i := Laid(h, l, length, mask + data), 2 + |length|;
            && |buf| == i + 4 + |data| && buf[0] == h && buf[1] == l && buf[2..i] == length
            && buf[i..i + 4] == mask && buf[i + 4..i + 4 + |data|] == data
  {
  }

  lemma FieldOf(h: bv8, l: bv8, length: Bytes, body: Bytes, n: U64)
    requires var code := l & 0x7f; |length| == (if code == 126 then 2 else if code == 127 then 8 else 0)
    requires n == if length == [] then (l & 0x7f) as nat else FromBigEndian(length)
    ensures LengthField(Laid(h, l, length, body)) == Some((n, 2 + |length|))
  {
    var buf := Laid(h, l, length, body);
    assert buf[2..2 + |length|] == length;
  }

  lemma ReadLaid(h: bv8, l: bv8, length: Bytes, mask: Mask, data: Bytes)
    requires l & 0x80 != 0 && 0 < |data| < U64_LIMIT
    requires LengthField(Laid(h, l, length, mask + data)) == Some((|data|, 2 + |length|))
    ensures Read(Laid(h, l, length, mask + data)) ==
            Parsed(FrameOf(h, |data|, mask, Masked(mask, data)))
  {
    LaidParts(h, l, length, mask, data);
  }

  lemma ReadCoded(h: bv8, l: bv8, length: Bytes, mask: Mask, payload: Bytes)
    requires l & 0x80 != 0 && 0 < |payload| < U64_LIMIT
    requires var code := l & 0x7f; |length| == (if code == 126 then 2 else if code == 127 then 8 else 0)
    requires |payload| == if length == [] then (l & 0x7f) as nat else FromBigEndian(length)
    ensures Read(Laid(h, l, length, mask + Masked(mask, payload))) == Parsed(FrameOf(h, |payload|, mask, payload))
  {
    var data := Masked(mask, payload);
    FieldOf(h, l, length, mask + data, |payload|);
    ReadLaid(h, l, length, mask, data);
    MaskingTwice(mask, payload);
  }

  /** The reader takes apart a head byte, a length field and a body. */
  lemma {:induction false} ReadParts(f: Frame, code: bv8, length: Bytes, mask: Mask)
    requires code < 128 && |length| == (if code == 126 then 2 else if code == 127 then 8 else 0)
    requires WellFormed(f) && f.mask == Some(mask) && f.payload != []
    requires f.payloadLen == if length == [] then code as nat else FromBigEndian(length)
    ensures Read(Laid(HeadByte(f), Flag(true) | code, length, mask + Masked(mask, f.payload))) == Parsed(f)
  {
    LengthBits(true, code);
    ReadCoded(HeadByte(f), Flag(true) | code, length, mask, f.payload);
    HeadRead(f, mask);
  }

  /** The reader undoes the layout of the RFC for every well-formed masked frame with a payload. */
  lemma ReadsTheRfc(f: Frame)
    requires WellFormed(f) && f.mask.Some? && f.payload != []
    ensures Read(RfcBytes(f)) == Parsed(f)
  {
    Powers();
    if f.payloadLen <= 125 {
      SmallCode(f.payloadLen);
      ReadParts(f, f.payloadLen as bv8, [], f.mask.value);
    } else if f.payloadLen <= 65535 {
      BigEndianRoundTrip(f.payloadLen, 2);
      ReadParts(f, 126, BigEndian(f.payloadLen, 2), f.mask.value);
    } else {
      BigEndianRoundTrip(f.payloadLen, 8);
      ReadParts(f, 127, BigEndian(f.payloadLen, 8), f.mask.value);
    }
  }

  lemma PrefixPanics(h: bv8, l: bv8, length: Bytes, rest: Bytes, n: U64, k: nat)
    requires l & 0x80 != 0 && n > 0
    requires var code := l & 0x7f; |length| == (if code == 126 then 2 else if code == 127 then 8 else 0)
    requires n == if length == [] then (l & 0x7f) as nat else FromBigEndian(length)
    requires k < 2 + |length| + 4 + n && k <= |Laid(h, l, length, rest)|
    ensures Read(Laid(h, l, length, rest)[..k]) == Panics
  {
    var all := Laid(h, l, length, rest);
    var buf := all[..k];
    if k >= 2 + |length| {
      assert all[2..2 + |length|] == length && buf[2..2 + |length|] == all[2..2 + |length|];
      assert buf[0] == h && buf[1] == l;
      assert LengthField(buf) == Some((n, 2 + |length|));
    } else if k >= 2 {
      assert buf[1] == l;
    }
  }

  lemma {:induction false} CutParts(f: Frame, code: bv8, length: Bytes, k: nat)
    requires code < 128 && |length| == (if code == 126 then 2 else if code == 127 then 8 else 0)
    requires WellFormed(f) && f.mask.Some? && f.payload != []
    requires f.payloadLen == if length == [] then code as nat else FromBigEndian(length)
    requires k < |Laid(HeadByte(f), Flag(true) | code, length, Body(f))|
    ensures Read(Laid(HeadByte(f), Flag(true) | code, length, Body(f))[..k]) == Panics
  {
    LengthBits(true, code);
    PrefixPanics(HeadByte(f), Flag(true) | code, length, Body(f), f.payloadLen, k);
  }

  /** And a frame that is cut short anywhere makes it index past the end. */
  lemma CutFramesPanic(f: Frame, k: nat)
    requires WellFormed(f) && f.mask.Some? && f.payload != [] && k < |RfcBytes(f)|
    ensures Read(RfcBytes(f)[..k]) == Panics
  {
    Powers();
    if f.payloadLen <= 125 {
      SmallCode(f.payloadLen);
      CutParts(f, f.payloadLen as bv8, [], k);
    } else if f.payloadLen <= 65535 {
      BigEndianRoundTrip(f.payloadLen, 2);
      CutParts(f, 126, BigEndian(f.payloadLen, 2), k);
    } else {
      BigEndianRoundTrip(f.payloadLen, 8);
      CutParts(f, 127, BigEndian(f.payloadLen, 8), k);
    }
  }

  const HELLO: Bytes := [0x48, 0x65, 0x6c, 0x6c, 0x6f]

  const HELLO_MASK: Mask := [0x37, 0xfa, 0x21, 0x3d]

  lemma HelloBytes()
    ensures Masked(HELLO_MASK, HELLO) == [0x7f, 0x9f, 0x4d, 0x51, 0x58]
    ensures Flag(true) | 5 == 0x85 && Flag(false) | 5 == 0x05
    ensures HeadByte(Frame(true, 0, 1, 5, None, HELLO)) == 0x81
  {
  }

  /** Examples of section 5.7 of RFC 6455: the text `Hello`, plain and masked. */
  lemma RfcHello()
    ensures Written(Frame(true, 0, 1, 5, None, HELLO)) == [0x81, 0x05] + HELLO
    ensures Written(Frame(true, 0, 1, 5, Some(HELLO_MASK), HELLO)) ==
            [0x81, 0x85] + (HELLO_MASK + [0x7f, 0x9f, 0x4d, 0x51, 0x58])
  {
    HelloBytes();
  }

  lemma TwoByteLength()
    ensures BigEndian(256, 2) == [1, 0]
  {
    assert BigEndian(1, 1) == [1];
  }

  /** And 256 bytes of binary data. */
  lemma RfcBinary(data: Bytes)
    ensures RfcBytes(Frame(true, 0, 2, 256, None, data)) == [0x82, 0x7e, 1, 0] + data
  {
    TwoByteLength();
    assert Flag(false) | 126 == 0x7e;
    assert HeadByte(Frame(true, 0, 2, 256, None, data)) == 0x82;
  }

  /** The writer meets the RFC exactly outside the band. */
  lemma WritesTheRfc(f: Frame)
    ensures Written(f) == RfcBytes(f) <==> !InBand(f.payloadLen)
  {
    if InBand(f.payloadLen) {
      assert |Written(f)| != |RfcBytes(f)|;
    }
  }

  lemma HighBytes(n: nat)
    requires n <= 65535
    ensures BigEndian(n, 8)[..2] == [0, 0]
  {
    assert n / 256 / 256 == 0;
    BigEndianZero(6);
    var s := BigEndian(0, 6);
    assert BigEndian(n / 256, 7)[..6] == s && BigEndian(n, 8)[..7] == BigEndian(n / 256, 7);
    assert BigEndian(n, 8)[0] == s[0] && BigEndian(n, 8)[1] == s[1];
  }

  lemma TwoZeros()
    ensures FromBigEndian([0, 0]) == 0
  {
    var s: Bytes := [0];
    assert s + [0] == [0, 0];
    FromBigEndianAppend([], 0);
    FromBigEndianAppend(s, 0);
  }

  /** A length in the band is read from the two most significant of its eight bytes, as zero. */
  lemma BandReadsNothing(f: Frame)
    requires InBand(f.payloadLen)
    ensures Read(Written(f)) == Nothing
  {
    var buf, l := Written(f), Flag(f.mask.Some?) | (126 as bv8);
    LengthBits(f.mask.Some?, 126);
    HighBytes(f.payloadLen);
    TwoZeros();
    assert buf[2..4] == BigEndian(f.payloadLen, 8)[..2];
    assert buf[1] == l && l & 0x7f == 126;
    assert LengthField(buf) == Some((0, 4));
  }

  /** When reading gives back what was written. */
  lemma RoundTrip(f: Frame)
    ensures Read(Written(f)) == Parsed(f) <==>
            WellFormed(f) && f.mask.Some? && f.payload != [] && !InBand(f.payloadLen)
  {
    if InBand(f.payloadLen) {
      BandReadsNothing(f);
    } else if WellFormed(f) && f.mask.Some? && f.payload != [] {
      ReadsTheRfc(f);
      WritesTheRfc(f);
    } else if Read(Written(f)) == Parsed(f) {
      ReadIsWellFormed(Written(f));
    }
  }
}
