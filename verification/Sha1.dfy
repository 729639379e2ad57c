/**
  SHA-1. The specification follows FIPS 180-4 (sections 4.1.1, 4.2.1, 5.1.1, 5.3.1 and 6.1.2); the methods
  follow the code: one padded buffer, one message schedule per block, and five running words.
 */
module Sha1 {
  import opened Octets
  import opened Wrappers

  datatype Word = Word(bits: bv32)

  datatype State = State(a: Word, b: Word, c: Word, d: Word, e: Word)

  // ---- Specification

  function Add(x: Word, y: Word): Word { Word(x.bits + y.bits) }

  function Xor(x: Word, y: Word): Word { Word(x.bits ^ y.bits) }

  function And(x: Word, y: Word): Word { Word(x.bits & y.bits) }

  function Or(x: Word, y: Word): Word { Word(x.bits | y.bits) }

  function Not(x: Word): Word { Word(!x.bits) }

  function Rotl1(x: Word): Word { Word((x.bits << 1) | (x.bits >> 31)) }

  function Rotl5(x: Word): Word { Word((x.bits << 5) | (x.bits >> 27)) }

  function Rotl30(x: Word): Word { Word((x.bits << 30) | (x.bits >> 2)) }

  function Ch(x: Word, y: Word, z: Word): Word { Xor(And(x, y), And(Not(x), z)) }

  function Parity(x: Word, y: Word, z: Word): Word { Xor(Xor(x, y), z) }

  function Maj(x: Word, y: Word, z: Word): Word { Xor(Xor(And(x, y), And(x, z)), And(y, z)) }

  function Scramble(t: nat, x: Word, y: Word, z: Word): Word {
    if t < 20 then Ch(x, y, z) else if 40 <= t < 60 then Maj(x, y, z) else Parity(x, y, z)
  }

  function Constant(t: nat): Word {
    Word(if t < 20 then 0x5a827999 else if t < 40 then 0x6ed9eba1 else if t < 60 then 0x8f1bbcdc else 0xca62c1d6)
  }

  const INITIAL := State(Word(0x67452301), Word(0xefcdab89), Word(0x98badcfe), Word(0x10325476), Word(0xc3d2e1f0))

  function BigEndianWord(p: bv8, q: bv8, r: bv8, s: bv8): Word {
    Word(((p as bv32) << 24) | ((q as bv32) << 16) | ((r as bv32) << 8) | (s as bv32))
  }

  /** Word `t` of the message schedule. */
  function Schedule(block: Bytes, t: nat): Word
    requires |block| == 64
  {
    if t < 16 then BigEndianWord(block[4 * t], block[4 * t + 1], block[4 * t + 2], block[4 * t + 3])
    else
      Rotl1(Xor(Xor(Xor(Schedule(block, t - 3), Schedule(block, t - 8)), Schedule(block, t - 14)),
                Schedule(block, t - 16)))
  }

  function Round(s: State, t: nat, w: Word): State {
    var temp := Add(Add(Add(Add(Rotl5(s.a), Scramble(t, s.b, s.c, s.d)), s.e), Constant(t)), w);
    State(temp, s.a, Rotl30(s.b), s.c, s.d)
  }

  function Rounds(block: Bytes, h: State, t: nat): State
    requires |block| == 64
  {
    if t == 0 then h else Round(Rounds(block, h, t - 1), t - 1, Schedule(block, t - 1))
  }

  function Sum(x: State, y: State): State {
    State(Add(x.a, y.a), Add(x.b, y.b), Add(x.c, y.c), Add(x.d, y.d), Add(x.e, y.e))
  }

  function HashBlocks(h: State, padded: Bytes): State
    requires |padded| % 64 == 0
    decreases |padded|
  {
    if padded == [] then h else HashBlocks(Sum(h, Rounds(padded[..64], h, 80)), padded[64..])
  }

  function Zeros(k: nat): Bytes {
    seq(k, _ => 0)
  }

  /** The bytes of zeros after the `1` bit: the fewest that leave eight bytes of a whole number of blocks. */
  function ZeroCount(n: nat): (k: nat)
    ensures k < 64 && (n + 1 + k + 8) % 64 == 0
  {
    (119 - n % 64) % 64
  }

  /** The message, a `1` bit, zeros, and the length in bits: a whole number of blocks (section 5.1.1). */
  function Padded(message: Bytes): (s: Bytes)
    ensures |s| % 64 == 0
  {
    message + [0x80] + Zeros(ZeroCount(|message|)) + BigEndian(8 * |message|, 8)
  }

  /** The four bytes of a word, most significant first. */
  function WordBytes(w: Word): Bytes {
    [((w.bits >> 24) & 0xff) as bv8, ((w.bits >> 16) & 0xff) as bv8, ((w.bits >> 8) & 0xff) as bv8,
     (w.bits & 0xff) as bv8]
  }

  function Digest(s: State): Bytes {
    WordBytes(s.a) + WordBytes(s.b) + WordBytes(s.c) + WordBytes(s.d) + WordBytes(s.e)
  }

  function Sha1(message: Bytes): Bytes {
    Digest(HashBlocks(INITIAL, Padded(message)))
  }

  // ---- Bit identities

  /** The code writes `|` where the standard writes exclusive or. */
  lemma ChForm(x: Word, y: Word, z: Word)
    ensures Or(And(x, y), And(Not(x), z)) == Ch(x, y, z)
  {
  }

  lemma MajForm(x: Word, y: Word, z: Word)
    ensures Or(Or(And(x, y), And(x, z)), And(y, z)) == Maj(x, y, z)
  {
  }

  /** Writing a word out and reading it back. */
  lemma WordRoundTrip(w: Word)
    ensures var s := WordBytes(w); BigEndianWord(s[0], s[1], s[2], s[3]) == w
  {
  }

  lemma BytesRoundTrip(p: bv8, q: bv8, r: bv8, s: bv8)
    ensures WordBytes(BigEndianWord(p, q, r, s)) == [p, q, r, s]
  {
  }

  /** The four constants are the square roots of 2, 3, 5 and 10 with thirty binary places. */
  lemma Constants(t: nat)
    ensures var k, n := Constant(t).bits as nat, if t < 20 then 2 else if t < 40 then 3 else if t < 60 then 5 else 10;
            k * k <= n * 0x1000_0000_0000_0000 < (k + 1) * (k + 1)
  {
  }

  // ---- Padding

  /** The longest message whose padded length still fits in 64-bit arithmetic. */
  const LIMIT: nat := 0x1fff_ffff_ffff_ffb7

  /** `(8 n + 583) / 512 * 64` in 64-bit arithmetic. */
  function PaddedLength(n: nat): nat {
    (n * 8 + 583) % U64_LIMIT / 512 * 64
  }

  /** Up to the limit it is the least whole number of blocks with nine bytes to spare; past it, it is too short. */
  lemma PaddedLengthIsLeast(n: nat, m: nat)
    ensures n <= LIMIT ==> PaddedLength(n) % 64 == 0 && PaddedLength(n) >= n + 9
    ensures n <= LIMIT && m % 64 == 0 && m >= n + 9 ==> PaddedLength(n) <= m
    ensures n <= LIMIT ==> PaddedLength(n) == n + 1 + ZeroCount(n) + 8
    ensures n > LIMIT ==> PaddedLength(n) < n
  {
    if n <= LIMIT {
      assert PaddedLength(n) == (n + 72) / 64 * 64 by {
        assert n * 8 + 583 < U64_LIMIT;
        assert (n * 8 + 583) / 512 == (n + 72) / 64;
      }
    } else {
      var x := (n * 8 + 583) % U64_LIMIT;
      assert x < n * 8;
    }
  }

  method Pad(message: Bytes) returns (padded: array<bv8>)
    requires |message| <= LIMIT
    ensures fresh(padded) && padded[..] == Padded(message)
  {
    var n, msgLen := |message|, PaddedLength(|message|);
    PaddedLengthIsLeast(n, 0);
    padded := new bv8[msgLen](_ => 0);
    forall i | 0 <= i < n {
      padded[i] := message[i];
    }
    padded[n] := 0x80;
    var length := BigEndian(8 * n, 8);
    forall i | 0 <= i < 8 {
      padded[msgLen - 8 + i] := length[i];
    }
    assert padded[..n] == message;
    assert padded[n..n + 1] == [0x80];
    assert padded[n + 1..msgLen - 8] == Zeros(ZeroCount(n));
    assert padded[msgLen - 8..] == length;
    assert padded[..] == padded[..n] + padded[n..n + 1] + padded[n + 1..msgLen - 8] + padded[msgLen - 8..];
  }

  /** Padding loses nothing: the last eight bytes give the length back, and the message is a prefix. */
  lemma PaddingIsInjective(x: Bytes, y: Bytes)
    requires |x| < 0x2000_0000_0000_0000 && |y| < 0x2000_0000_0000_0000
    requires Padded(x) == Padded(y)
    ensures x == y
  {
    PaddedParts(x);
    PaddedParts(y);
  }

  lemma PaddedParts(x: Bytes)
    requires |x| < 0x2000_0000_0000_0000
    ensures var p := Padded(x);
            |p| >= 8 && FromBigEndian(p[|p| - 8..]) == 8 * |x| && |p| >= |x| && p[..|x|] == x
  {
    var p, length := Padded(x), BigEndian(8 * |x|, 8);
    Powers();
    BigEndianRoundTrip(8 * |x|, 8);
    assert p[|p| - 8..] == length;
  }

  // ---- The code

  method Choose(i: nat, b: Word, c: Word, d: Word) returns (f: Word, k: Word)
    requires i < 80
    ensures f == Scramble(i, b, c, d)
    ensures k == Constant(i)
  {
    if i <= 19 {
      ChForm(b, c, d);
      f, k := Or(And(b, c), And(Not(b), d)), Word(0x5a827999);
    } else if i <= 39 {
      f, k := Xor(Xor(b, c), d), Word(0x6ed9eba1);
    } else if i <= 59 {
      MajForm(b, c, d);
      f, k := Or(Or(And(b, c), And(b, d)), And(c, d)), Word(0x8f1bbcdc);
    } else {
      f, k := Xor(Xor(b, c), d), Word(0xca62c1d6);
    }
  }

  method LoadWords(chunk: Bytes, w: array<Word>)
    requires |chunk| == 64 && w.Length == 80
    modifies w
    ensures forall t :: 0 <= t < 16 ==> w[t] == Schedule(chunk, t)
  {
    for i := 0 to 16
      invariant forall t :: 0 <= t < i ==> w[t] == Schedule(chunk, t)
    {
      w[i] := BigEndianWord(chunk[i * 4], chunk[i * 4 + 1], chunk[i * 4 + 2], chunk[i * 4 + 3]);
    }
  }

  method Expand(chunk: Bytes) returns (w: array<Word>)
    requires |chunk| == 64
    ensures fresh(w) && w.Length == 80
    ensures forall t :: 0 <= t < 80 ==> w[t] == Schedule(chunk, t)
  {
    w := new Word[80](_ => Word(0));
    LoadWords(chunk, w);
    for i := 16 to 80
      invariant forall t :: 0 <= t < i ==> w[t] == Schedule(chunk, t)
    {
      w[i] := Xor(Xor(Xor(w[i - 3], w[i - 8]), w[i - 14]), w[i - 16]);
      w[i] := Rotl1(w[i]);
    }
  }

  method Compress(w: array<Word>, chunk: Bytes, h: State) returns (a: Word, b: Word, c: Word, d: Word, e: Word)
    requires |chunk| == 64 && w.Length == 80
    requires forall t :: 0 <= t < 80 ==> w[t] == Schedule(chunk, t)
    ensures State(a, b, c, d, e) == Rounds(chunk, h, 80)
  {
    a, b, c, d, e := h.a, h.b, h.c, h.d, h.e;
    for i := 0 to 80
      invariant State(a, b, c, d, e) == Rounds(chunk, h, i)
    {
      var f, k := Choose(i, b, c, d);
      var temp := Add(Add(Add(Add(Rotl5(a), f), e), k), w[i]);
      e := d;
      d := c;
      c := Rotl30(b);
      b := a;
      a := temp;
    }
  }

  lemma HashStep(h: State, chunks: Bytes)
    requires |chunks| % 64 == 0 && chunks != []
    ensures |chunks| >= 64 && |chunks[64..]| % 64 == 0
    ensures HashBlocks(h, chunks) == HashBlocks(Sum(h, Rounds(chunks[..64], h, 80)), chunks[64..])
  {
  }

  method HashChunks(padded: array<bv8>) returns (h0: Word, h1: Word, h2: Word, h3: Word, h4: Word)
    requires padded.Length % 64 == 0
    ensures State(h0, h1, h2, h3, h4) == HashBlocks(INITIAL, padded[..])
  {
    h0, h1, h2, h3, h4 := Word(0x67452301), Word(0xefcdab89), Word(0x98badcfe), Word(0x10325476), Word(0xc3d2e1f0);
    var chunks := padded[..];
    while chunks != []
      invariant |chunks| % 64 == 0
      invariant HashBlocks(State(h0, h1, h2, h3, h4), chunks) == HashBlocks(INITIAL, padded[..])
      decreases |chunks|
    {
      HashStep(State(h0, h1, h2, h3, h4), chunks);
      var w := Expand(chunks[..64]);
      var a, b, c, d, e := Compress(w, chunks[..64], State(h0, h1, h2, h3, h4));
      h0, h1, h2, h3, h4 := Add(h0, a), Add(h1, b), Add(h2, c), Add(h3, d), Add(h4, e);
      chunks := chunks[64..];
    }
  }

  /** The digest of the standard, and `None` where the slice of the padded buffer panics. */
  method Hash(message: Bytes) returns (digest: Option<Bytes>)
    ensures digest == if |message| <= LIMIT then Some(Sha1(message)) else None
  {
    PaddedLengthIsLeast(|message|, 0);
    if PaddedLength(|message|) < |message| {
      return None;
    }
    var padded := Pad(message);
    var h0, h1, h2, h3, h4 := HashChunks(padded);
    return Some(WordBytes(h0) + WordBytes(h1) + WordBytes(h2) + WordBytes(h3) + WordBytes(h4));
  }
}
