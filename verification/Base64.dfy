/**
  Base64 (section 4 of RFC 4648), with the decoder as it is written. Text is a sequence of ASCII codes,
  and `+` and `/` are called special: the decoder shifts their values to the mirrored position.
 */
module Base64 {
  import opened Octets
  import Text

  const PAD: bv8 := 61

  /** Entry `v` of the alphabet table: `A`-`Z`, `a`-`z`, `0`-`9`, `+`, `/`. */
  function Letter(v: bv8): bv8 {
    if v < 26 then v + 65
    else if v < 52 then v + 71
    else if v < 62 then v - 4
    else if v == 62 then 43
    else 47
  }

  // The four groups of six bits in three bytes.

  function First(a: bv8): bv8 { (a & 0xfc) >> 2 }

  function Second(a: bv8, b: bv8): bv8 { ((a & 0x03) << 4) + ((b & 0xf0) >> 4) }

  function Third(b: bv8, c: bv8): bv8 { ((b & 0x0f) << 2) + ((c & 0xc0) >> 6) }

  function Fourth(c: bv8): bv8 { c & 0x3f }

  // ---- Encoding

  /** The four characters for the first `n` of three bytes. */
  function Quad(a: bv8, b: bv8, c: bv8, n: nat): Bytes {
    [Letter(First(a)), Letter(Second(a, b)),
     if n < 2 then PAD else Letter(Third(b, c)), if n < 3 then PAD else Letter(Fourth(c))]
  }

  function ByteAt(inp: Bytes, i: nat): bv8 {
    if i < |inp| then inp[i] else 0
  }

  function QuadAt(inp: Bytes, i: nat): Bytes {
    Quad(ByteAt(inp, i), ByteAt(inp, i + 1), ByteAt(inp, i + 2), if i < |inp| then |inp| - i else 0)
  }

  function EncodedFrom(inp: Bytes, i: nat): Bytes
    decreases |inp| - i
  {
    if i >= |inp| then [] else QuadAt(inp, i) + EncodedFrom(inp, i + 3)
  }

  function Encoded(inp: Bytes): Bytes {
    EncodedFrom(inp, 0)
  }

  lemma MissingIsZero(a: bv8, b: bv8)
    ensures Second(a, 0) == (a & 0x03) << 4 && Third(b, 0) == (b & 0x0f) << 2
  {
  }

  method EncodeQuad(inp: Bytes, i: nat) returns (out: Bytes)
    requires i < |inp|
    ensures out == QuadAt(inp, i)
  {
    MissingIsZero(inp[i], ByteAt(inp, i + 1));
    if i + 1 < |inp| {
      if i + 2 < |inp| {
        return [Letter(First(inp[i])), Letter(Second(inp[i], inp[i + 1])),
                Letter(Third(inp[i + 1], inp[i + 2])), Letter(Fourth(inp[i + 2]))];
      }
      return [Letter(First(inp[i])), Letter(Second(inp[i], inp[i + 1])), Letter((inp[i + 1] & 0x0f) << 2), PAD];
    }
    return [Letter(First(inp[i])), Letter((inp[i] & 0x03) << 4), PAD, PAD];
  }

  method Encode(inp: Bytes) returns (out: Bytes)
    ensures out == Encoded(inp)
  {
    out := [];
    var i := 0;
    while i < |inp|
      invariant out + EncodedFrom(inp, i) == Encoded(inp)
      decreases |inp| - i
    {
      var quad := EncodeQuad(inp, i);
      Text.Regroup(out, quad, EncodedFrom(inp, i + 3));
      out, i := out + quad, i + 3;
    }
  }

  lemma {:induction false} EncodedLength(inp: Bytes, i: nat)
    requires i <= |inp|
    ensures |EncodedFrom(inp, i)| == (|inp| - i + 2) / 3 * 4
    decreases |inp| - i
  {
    if i < |inp| {
      if i + 3 <= |inp| {
        EncodedLength(inp, i + 3);
      } else {
        assert EncodedFrom(inp, i + 3) == [];
      }
    }
  }

  // ---- Decoding one group of up to four characters

  /** `Panics` is the slice `[1..0]` that a leading `=` asks for. */
  datatype Outcome = Panics | Invalid | Decoded(bytes: Bytes)

  /** The 32-bit accumulator. */
  datatype Word = Word(bits: bv32)

  const ZERO := Word(0)

  function Or(x: Word, y: Word): Word {
    Word(x.bits | y.bits)
  }

  /** `v << 6 * k` */
  function Shifted(v: bv8, k: nat): Word
    requires k < 4
  {
    var x := v as bv32;
    Word(if k == 0 then x else if k == 1 then x << 6 else if k == 2 then x << 12 else x << 18)
  }

  function ByteOf(x: bv32): bv8 { (x & 0xff) as bv8 }

  /** The last three of the four big-endian bytes. */
  datatype Low = Low(first: bv8, second: bv8, third: bv8)

  function LowThree(w: Word): Low {
    Low(ByteOf(w.bits >> 16), ByteOf(w.bits >> 8), ByteOf(w.bits))
  }

  /** The first `n` of them. */
  function Take(low: Low, n: nat): (s: Bytes)
    requires n <= 3
    ensures |s| == n
  {
    [low.first, low.second, low.third][..n]
  }

  /** What a character means at a position of its group: bits, the end, or an error. */
  datatype Item = Bits(bits: Word) | Stop | Bad

  function ItemAt(e: bv8, i: nat): Item
    requires i < 4
  {
    if 65 <= e <= 90 then Bits(Shifted(e - 65, 3 - i))
    else if 97 <= e <= 122 then Bits(Shifted(e - 71, 3 - i))
    else if 48 <= e <= 57 then Bits(Shifted(e + 4, 3 - i))
    else if e == 43 then Bits(Shifted(62, i))
    else if e == 47 then Bits(Shifted(63, i))
    else if e == PAD then Stop
    else Bad
  }

  function Items(chunk: Bytes): seq<Item>
    requires |chunk| <= 4
  {
    seq(|chunk|, i requires 0 <= i < |chunk| => ItemAt(chunk[i], i))
  }

  function GroupFrom(items: seq<Item>, i: nat, acc: Word): Outcome
    requires i <= |items| <= 4
    decreases |items| - i
  {
    if i == |items| then Decoded(Take(LowThree(acc), 3))
    else match items[i]
         case Bits(bits) => GroupFrom(items, i + 1, Or(acc, bits))
         case Stop => if i == 0 then Panics else Decoded(Take(LowThree(acc), i - 1))
         case Bad => Invalid
  }

  function GroupOf(chunk: Bytes): Outcome
    requires |chunk| <= 4
  {
    GroupFrom(Items(chunk), 0, ZERO)
  }

  method DecodeGroup(chunk: Bytes) returns (r: Outcome)
    requires |chunk| <= 4
    ensures r == GroupOf(chunk)
  {
    var decode := ZERO;
    for i := 0 to |chunk|
      invariant GroupFrom(Items(chunk), i, decode) == GroupOf(chunk)
    {
      match ItemAt(chunk[i], i) {
        case Bits(bits) => decode := Or(decode, bits);
        case Stop =>
          if i == 0 {
            return Panics;
          }
          return Decoded(Take(LowThree(decode), i - 1));
        case Bad => return Invalid;
      }
    }
    return Decoded(Take(LowThree(decode), 3));
  }

  /** One of the 64 letters of the alphabet. */
  predicate IsLetter(e: bv8) {
    65 <= e <= 90 || 97 <= e <= 122 || 48 <= e <= 57 || e == 43 || e == 47
  }

  lemma {:induction false} GroupFromEnds(chunk: Bytes, k: nat, acc: Word, i: nat)
    requires k <= i <= |chunk| <= 4 && forall j :: 0 <= j < i ==> IsLetter(chunk[j])
    requires i < |chunk| ==> !IsLetter(chunk[i])
    ensures var r := GroupFrom(Items(chunk), k, acc);
            if i == |chunk| then r.Decoded? && |r.bytes| == 3
            else if chunk[i] != PAD then r == Invalid
            else if i == 0 then r == Panics
            else r.Decoded? && |r.bytes| == i - 1
    decreases i - k
  {
    if k < i {
      GroupFromEnds(chunk, k + 1, Or(acc, ItemAt(chunk[k], k).bits), i);
    }
  }

  /**
    How decoding a group ends: with three bytes if it holds only letters, even if it is short; with one byte
    less than there are letters before the first `=`; with a panic if that comes first; and otherwise it fails.
   */
  lemma GroupEnds(chunk: Bytes, i: nat)
    requires i <= |chunk| <= 4 && forall j :: 0 <= j < i ==> IsLetter(chunk[j])
    requires i < |chunk| ==> !IsLetter(chunk[i])
    ensures if i == |chunk| then GroupOf(chunk).Decoded? && |GroupOf(chunk).bytes| == 3
            else if chunk[i] != PAD then GroupOf(chunk) == Invalid
            else if i == 0 then GroupOf(chunk) == Panics
            else GroupOf(chunk).Decoded? && |GroupOf(chunk).bytes| == i - 1
  {
    GroupFromEnds(chunk, 0, ZERO, i);
  }

  function Group(inp: Bytes): Bytes {
    if |inp| >= 4 then inp[..4] else inp
  }

  function AfterGroup(inp: Bytes): Bytes {
    if |inp| >= 4 then inp[4..] else []
  }

  function Followed(first: Bytes, rest: Outcome): Outcome {
    match rest
    case Decoded(more) => Decoded(first + more)
    case _ => rest
  }

  function DecodedAll(inp: Bytes): Outcome
    decreases |inp|
  {
    if inp == [] then Decoded([])
    else
      match GroupOf(Group(inp))
      case Decoded(bytes) => Followed(bytes, DecodedAll(AfterGroup(inp)))
      case other => other
  }

  method Decode(inp: Bytes) returns (r: Outcome)
    ensures r == DecodedAll(inp)
  {
    if inp == [] {
      return Decoded([]);
    }
    var out: Bytes, chunks := [], inp;
    FollowedBy(out, [], DecodedAll(inp));
    while chunks != []
      invariant Followed(out, DecodedAll(chunks)) == DecodedAll(inp)
      decreases |chunks|
    {
      var group := DecodeGroup(Group(chunks));
      if !group.Decoded? {
        return group;
      }
      FollowedBy(out, group.bytes, DecodedAll(AfterGroup(chunks)));
      out, chunks := out + group.bytes, AfterGroup(chunks);
    }
    assert out + [] == out;
    return Decoded(out);
  }

  lemma FollowedBy(a: Bytes, b: Bytes, r: Outcome)
    ensures Followed(a, Followed(b, r)) == Followed(a + b, r)
    ensures Followed([], r) == r
  {
    if r.Decoded? {
      assert a + (b + r.bytes) == (a + b) + r.bytes && [] + r.bytes == r.bytes;
    }
  }

  // ---- One group, encoded and decoded

  predicate Special(e: bv8) {
    e == 43 || e == 47
  }

  /** Every special character of the group stands opposite an equal one. */
  predicate Mirrored(q: Bytes)
    requires |q| == 4
  {
    && (Special(q[0]) || Special(q[3]) ==> q[0] == q[3])
    && (Special(q[1]) || Special(q[2]) ==> q[1] == q[2])
  }

  /** Where the value `v` of a letter ends up when it stands at position `i`. */
  function Field(v: bv8, i: nat): Word
    requires i < 4
  {
    if v < 62 then Shifted(v, 3 - i) else Shifted(v, i)
  }

  lemma LetterPlaced(v: bv8, i: nat)
    requires v < 64 && i < 4
    ensures ItemAt(Letter(v), i) == Bits(Field(v, i))
    ensures Special(Letter(v)) <==> v >= 62
    ensures Letter(v) != PAD
  {
  }

  lemma LetterInjective(v: bv8, w: bv8)
    requires v < 64 && w < 64
    ensures Letter(v) == Letter(w) <==> v == w
  {
  }

  lemma SixBits(a: bv8, b: bv8, c: bv8)
    ensures First(a) < 64 && Second(a, b) < 64 && Third(b, c) < 64 && Fourth(c) < 64
    ensures Second(a, 0) < 62 && Third(b, 0) < 62
  {
  }

  function Fields(v0: bv8, v1: bv8, v2: bv8, v3: bv8): Word {
    Or(Or(Or(Field(v0, 0), Field(v1, 1)), Field(v2, 2)), Field(v3, 3))
  }

  predicate MirroredValues(v0: bv8, v1: bv8, v2: bv8, v3: bv8) {
    (v0 >= 62 || v3 >= 62 ==> v0 == v3) && (v1 >= 62 || v2 >= 62 ==> v1 == v2)
  }

  /** The four values in their own places. */
  function Packed(v0: bv8, v1: bv8, v2: bv8, v3: bv8): Word {
    Or(Or(Or(Shifted(v0, 3), Shifted(v1, 2)), Shifted(v2, 1)), Shifted(v3, 0))
  }

  predicate Holds(w: Word, a: bv8, b: bv8, c: bv8) {
    ByteOf(w.bits >> 16) == a && ByteOf(w.bits >> 8) == b && ByteOf(w.bits) == c
  }

  lemma ShiftedBits(v: bv8)
    ensures Shifted(v, 0) == Word(v as bv32)
    ensures Shifted(v, 1) == Word((v as bv32) << 6)
    ensures Shifted(v, 2) == Word((v as bv32) << 12)
    ensures Shifted(v, 3) == Word((v as bv32) << 18)
  {
  }

  lemma OrBits(w: Word, v: Word)
    ensures Or(w, v).bits == w.bits | v.bits
  {
  }

  lemma JoinedBytes(a: bv8, b: bv8, c: bv8, p: bv32, q: bv32, r: bv32, s: bv32, x: bv32, y: bv32, z: bv32)
    requires p == (First(a) as bv32) << 18 && q == (Second(a, b) as bv32) << 12
    requires r == (Third(b, c) as bv32) << 6 && s == Fourth(c) as bv32
    requires x == p | q && y == x | r && z == y | s
    ensures ByteOf(z >> 16) == a && ByteOf(z >> 8) == b && ByteOf(z) == c
  {
  }

  lemma JoinedWords(a: bv8, b: bv8, c: bv8, w0: Word, w1: Word, w2: Word, w3: Word)
    requires w0.bits == (First(a) as bv32) << 18 && w1.bits == (Second(a, b) as bv32) << 12
    requires w2.bits == (Third(b, c) as bv32) << 6 && w3.bits == Fourth(c) as bv32
    ensures Holds(Or(Or(Or(w0, w1), w2), w3), a, b, c)
  {
    OrBits(w0, w1);
    OrBits(Or(w0, w1), w2);
    OrBits(Or(Or(w0, w1), w2), w3);
    JoinedBytes(a, b, c, w0.bits, w1.bits, w2.bits, w3.bits,
                Or(w0, w1).bits, Or(Or(w0, w1), w2).bits, Or(Or(Or(w0, w1), w2), w3).bits);
  }

  lemma PackedBytes(a: bv8, b: bv8, c: bv8)
    ensures Holds(Packed(First(a), Second(a, b), Third(b, c), Fourth(c)), a, b, c)
  {
    ShiftedBits(First(a));
    ShiftedBits(Second(a, b));
    ShiftedBits(Third(b, c));
    ShiftedBits(Fourth(c));
    JoinedWords(a, b, c, Shifted(First(a), 3), Shifted(Second(a, b), 2),
                Shifted(Third(b, c), 1), Shifted(Fourth(c), 0));
  }

  lemma OrPairs(a: Word, b: Word, c: Word, d: Word)
    ensures Or(Or(Or(a, b), c), d) == Or(Or(a, d), Or(b, c))
  {
  }

  lemma PairIsPacked(v: bv8, w: bv8)
    requires v >= 62 || w >= 62 ==> v == w
    ensures Or(Field(v, 0), Field(w, 3)) == Or(Shifted(v, 3), Shifted(w, 0))
    ensures Or(Field(v, 1), Field(w, 2)) == Or(Shifted(v, 2), Shifted(w, 1))
  {
  }

  lemma MirroredIsPacked(v0: bv8, v1: bv8, v2: bv8, v3: bv8)
    requires MirroredValues(v0, v1, v2, v3)
    ensures Fields(v0, v1, v2, v3) == Packed(v0, v1, v2, v3)
  {
    PairIsPacked(v0, v3);
    PairIsPacked(v1, v2);
    OrPairs(Field(v0, 0), Field(v1, 1), Field(v2, 2), Field(v3, 3));
    OrPairs(Shifted(v0, 3), Shifted(v1, 2), Shifted(v2, 1), Shifted(v3, 0));
  }

  lemma PackedIsMirrored(a: bv8, b: bv8, c: bv8)
    ensures Holds(Fields(First(a), Second(a, b), Third(b, c), Fourth(c)), a, b, c) ==>
            MirroredValues(First(a), Second(a, b), Third(b, c), Fourth(c))
  {
  }

  lemma FieldsOfTwo(a: bv8, b: bv8)
    ensures var w := Or(Or(Field(First(a), 0), Field(Second(a, b), 1)), Field(Third(b, 0), 2));
            ByteOf(w.bits >> 16) == a && ByteOf(w.bits >> 8) == b <==> First(a) < 62 && Second(a, b) < 62
  {
  }

  lemma FieldsOfOne(a: bv8)
    ensures ByteOf(Or(Field(First(a), 0), Field(Second(a, 0), 1)).bits >> 16) == a <==> First(a) < 62
  {
  }

  lemma OrZero(w: Word)
    ensures Or(ZERO, w) == w
  {
  }

  lemma AccumulatedFour(f0: Word, f1: Word, f2: Word, f3: Word)
    ensures GroupFrom([Bits(f0), Bits(f1), Bits(f2), Bits(f3)], 0, ZERO) ==
            Decoded(Take(LowThree(Or(Or(Or(f0, f1), f2), f3)), 3))
  {
    var items := [Bits(f0), Bits(f1), Bits(f2), Bits(f3)];
    var w := Or(Or(Or(f0, f1), f2), f3);
    OrZero(f0);
    assert GroupFrom(items, 4, w) == Decoded(Take(LowThree(w), 3));
    assert GroupFrom(items, 3, Or(Or(f0, f1), f2)) == Decoded(Take(LowThree(w), 3));
    assert GroupFrom(items, 2, Or(f0, f1)) == Decoded(Take(LowThree(w), 3));
    assert GroupFrom(items, 1, f0) == Decoded(Take(LowThree(w), 3));
  }

  lemma AccumulatedThree(f0: Word, f1: Word, f2: Word)
    ensures GroupFrom([Bits(f0), Bits(f1), Bits(f2), Stop], 0, ZERO) == Decoded(Take(LowThree(Or(Or(f0, f1), f2)), 2))
  {
    var items := [Bits(f0), Bits(f1), Bits(f2), Stop];
    var w := Or(Or(f0, f1), f2);
    OrZero(f0);
    assert GroupFrom(items, 3, w) == Decoded(Take(LowThree(w), 2));
    assert GroupFrom(items, 2, Or(f0, f1)) == Decoded(Take(LowThree(w), 2));
    assert GroupFrom(items, 1, f0) == Decoded(Take(LowThree(w), 2));
  }

  lemma AccumulatedTwo(f0: Word, f1: Word)
    ensures GroupFrom([Bits(f0), Bits(f1), Stop, Stop], 0, ZERO) == Decoded(Take(LowThree(Or(f0, f1)), 1))
  {
    var items := [Bits(f0), Bits(f1), Stop, Stop];
    var w := Or(f0, f1);
    OrZero(f0);
    assert GroupFrom(items, 2, w) == Decoded(Take(LowThree(w), 1));
    assert GroupFrom(items, 1, f0) == Decoded(Take(LowThree(w), 1));
  }

  lemma ItemsOfLetters(v0: bv8, v1: bv8, v2: bv8, v3: bv8)
    requires v0 < 64 && v1 < 64 && v2 < 64 && v3 < 64
    ensures Items([Letter(v0), Letter(v1), Letter(v2), Letter(v3)]) ==
            [Bits(Field(v0, 0)), Bits(Field(v1, 1)), Bits(Field(v2, 2)), Bits(Field(v3, 3))]
    ensures Items([Letter(v0), Letter(v1), Letter(v2), PAD]) ==
            [Bits(Field(v0, 0)), Bits(Field(v1, 1)), Bits(Field(v2, 2)), Stop]
    ensures Items([Letter(v0), Letter(v1), PAD, PAD]) == [Bits(Field(v0, 0)), Bits(Field(v1, 1)), Stop, Stop]
  {
    LetterPlaced(v0, 0);
    LetterPlaced(v1, 1);
    LetterPlaced(v2, 2);
    LetterPlaced(v3, 3);
  }

  /** What a group decodes to is right exactly when the group is mirrored. */
  predicate Agrees(q: Bytes, bytes: Bytes)
    requires |q| == 4
  {
    var r := GroupOf(q);
    r.Decoded? && |r.bytes| == |bytes| && (r.bytes == bytes <==> Mirrored(q))
  }

  /** The fields of three bytes give them back exactly when the values are mirrored. */
  lemma FieldsAgree(a: bv8, b: bv8, c: bv8)
    ensures Holds(Fields(First(a), Second(a, b), Third(b, c), Fourth(c)), a, b, c) <==>
            MirroredValues(First(a), Second(a, b), Third(b, c), Fourth(c))
  {
    if MirroredValues(First(a), Second(a, b), Third(b, c), Fourth(c)) {
      MirroredIsPacked(First(a), Second(a, b), Third(b, c), Fourth(c));
      PackedBytes(a, b, c);
    }
    PackedIsMirrored(a, b, c);
  }

  lemma LettersDecode(v0: bv8, v1: bv8, v2: bv8, v3: bv8)
    requires v0 < 64 && v1 < 64 && v2 < 64 && v3 < 64
    ensures GroupOf([Letter(v0), Letter(v1), Letter(v2), Letter(v3)]) ==
            Decoded(Take(LowThree(Fields(v0, v1, v2, v3)), 3))
  {
    ItemsOfLetters(v0, v1, v2, v3);
    AccumulatedFour(Field(v0, 0), Field(v1, 1), Field(v2, 2), Field(v3, 3));
  }

  lemma FullDecodes(a: bv8, b: bv8, c: bv8)
    ensures GroupOf(Quad(a, b, c, 3)) ==
            Decoded(Take(LowThree(Fields(First(a), Second(a, b), Third(b, c), Fourth(c))), 3))
  {
    SixBits(a, b, c);
    LettersDecode(First(a), Second(a, b), Third(b, c), Fourth(c));
  }

  lemma SameBytes(low: Low, a: bv8, b: bv8, c: bv8)
    ensures Take(low, 3) == [a, b, c] <==> low == Low(a, b, c)
    ensures Take(low, 2) == [a, b] <==> low.first == a && low.second == b
    ensures Take(low, 1) == [a] <==> low.first == a
  {
    var s, t := Take(low, 3), [a, b, c];
    assert s[0] == low.first && s[1] == low.second && s[2] == low.third && t[0] == a && t[1] == b && t[2] == c;
    assert Take(low, 2) == [low.first, low.second] && Take(low, 1) == [low.first];
    assert [low.first, low.second][0] == low.first && [low.first, low.second][1] == low.second;
    assert [a, b][0] == a && [a, b][1] == b && [low.first][0] == low.first && [a][0] == a;
  }

  lemma FullAgrees(a: bv8, b: bv8, c: bv8)
    ensures Agrees(Quad(a, b, c, 3), [a, b, c])
  {
    var v0, v1, v2, v3 := First(a), Second(a, b), Third(b, c), Fourth(c);
    SixBits(a, b, c);
    FullDecodes(a, b, c);
    SpecialQuad(v0, v1, v2, v3);
    FieldsAgree(a, b, c);
    SameBytes(LowThree(Fields(v0, v1, v2, v3)), a, b, c);
  }

  lemma SpecialQuad(v0: bv8, v1: bv8, v2: bv8, v3: bv8)
    requires v0 < 64 && v1 < 64 && v2 < 64 && v3 < 64
    ensures Mirrored([Letter(v0), Letter(v1), Letter(v2), Letter(v3)]) <==> MirroredValues(v0, v1, v2, v3)
  {
    LetterPlaced(v0, 0);
    LetterPlaced(v1, 1);
    LetterPlaced(v2, 2);
    LetterPlaced(v3, 3);
    LetterInjective(v0, v3);
    LetterInjective(v1, v2);
  }

  /** A padded group is mirrored only without special characters, as its last value is a multiple of four. */
  lemma SpecialPadded(v0: bv8, v1: bv8, v2: bv8)
    requires v0 < 64 && v1 < 64 && v2 < 62
    ensures Mirrored([Letter(v0), Letter(v1), Letter(v2), PAD]) <==> v0 < 62 && v1 < 62
    ensures v1 < 62 ==> (Mirrored([Letter(v0), Letter(v1), PAD, PAD]) <==> v0 < 62)
  {
    LetterPlaced(v0, 0);
    LetterPlaced(v1, 1);
    LetterPlaced(v2, 2);
  }

  lemma TwoAgrees(a: bv8, b: bv8)
    ensures Agrees(Quad(a, b, 0, 2), [a, b])
  {
    var v0, v1, v2 := First(a), Second(a, b), Third(b, 0);
    SixBits(a, b, 0);
    ItemsOfLetters(v0, v1, v2, 0);
    AccumulatedThree(Field(v0, 0), Field(v1, 1), Field(v2, 2));
    SpecialPadded(v0, v1, v2);
    FieldsOfTwo(a, b);
    SameBytes(LowThree(Or(Or(Field(v0, 0), Field(v1, 1)), Field(v2, 2))), a, b, 0);
  }

  lemma OneAgrees(a: bv8)
    ensures Agrees(Quad(a, 0, 0, 1), [a])
  {
    var v0, v1 := First(a), Second(a, 0);
    SixBits(a, 0, 0);
    ItemsOfLetters(v0, v1, 0, 0);
    AccumulatedTwo(Field(v0, 0), Field(v1, 1));
    SpecialPadded(v0, v1, 0);
    FieldsOfOne(a);
    SameBytes(LowThree(Or(Field(v0, 0), Field(v1, 1))), a, 0, 0);
  }

  // ---- Whole strings

  predicate AllMirrored(s: Bytes)
    decreases |s|
  {
    s == [] || (|s| >= 4 && Mirrored(s[..4]) && AllMirrored(s[4..]))
  }

  /** The end of the group that starts at `i`. */
  function Next(inp: Bytes, i: nat): nat {
    if i + 3 <= |inp| then i + 3 else |inp|
  }

  lemma EncodedStep(inp: Bytes, i: nat)
    requires i < |inp|
    ensures EncodedFrom(inp, i) == QuadAt(inp, i) + EncodedFrom(inp, Next(inp, i))
    ensures inp[i..] == inp[i..Next(inp, i)] + inp[Next(inp, i)..]
  {
  }

  lemma DecodedStep(q: Bytes, rest: Bytes)
    requires |q| == 4 && GroupOf(q).Decoded?
    ensures DecodedAll(q + rest) == Followed(GroupOf(q).bytes, DecodedAll(rest))
    ensures AllMirrored(q + rest) <==> Mirrored(q) && AllMirrored(rest)
  {
    assert (q + rest)[..4] == q && (q + rest)[4..] == rest;
  }

  lemma {:induction false} RoundTripFrom(inp: Bytes, i: nat)
    requires i <= |inp|
    ensures var r := DecodedAll(EncodedFrom(inp, i));
            r.Decoded? && |r.bytes| == |inp| - i && (r.bytes == inp[i..] <==> AllMirrored(EncodedFrom(inp, i)))
    decreases |inp| - i
  {
    if i < |inp| {
      var q, j := QuadAt(inp, i), Next(inp, i);
      QuadAgrees(inp, i);
      EncodedStep(inp, i);
      DecodedStep(q, EncodedFrom(inp, j));
      RoundTripFrom(inp, j);
      Text.SameAppend(GroupOf(q).bytes, DecodedAll(EncodedFrom(inp, j)).bytes, inp[i..j], inp[j..]);
    }
  }

  lemma QuadAgrees(inp: Bytes, i: nat)
    requires i < |inp|
    ensures Agrees(QuadAt(inp, i), inp[i..Next(inp, i)])
  {
    if i + 3 <= |inp| {
      FullAgrees(inp[i], inp[i + 1], inp[i + 2]);
      assert inp[i..i + 3] == [inp[i], inp[i + 1], inp[i + 2]];
    } else if i + 2 == |inp| {
      TwoAgrees(inp[i], inp[i + 1]);
      assert inp[i..] == [inp[i], inp[i + 1]];
    } else {
      OneAgrees(inp[i]);
      assert inp[i..] == [inp[i]];
    }
  }

  /** Decoding what was encoded gives it back exactly when every special character is mirrored. */
  lemma RoundTrip(inp: Bytes)
    ensures DecodedAll(Encoded(inp)) == Decoded(inp) <==> AllMirrored(Encoded(inp))
  {
    RoundTripFrom(inp, 0);
    assert inp[0..] == inp;
  }

  lemma {:induction false} PlainIsMirrored(s: Bytes)
    requires |s| % 4 == 0 && forall k :: 0 <= k < |s| ==> !Special(s[k])
    ensures AllMirrored(s)
    decreases |s|
  {
    if s != [] {
      PlainIsMirrored(s[4..]);
    }
  }

  /** In particular, every byte string whose encoding has neither `+` nor `/` survives. */
  lemma PlainRoundTrip(inp: Bytes)
    requires forall k :: 0 <= k < |Encoded(inp)| ==> !Special(Encoded(inp)[k])
    ensures DecodedAll(Encoded(inp)) == Decoded(inp)
  {
    EncodedLength(inp, 0);
    PlainIsMirrored(Encoded(inp));
    RoundTrip(inp);
  }

  // ---- The decoder of RFC 4648

  function Value(e: bv8): bv8 {
    if 65 <= e <= 90 then e - 65
    else if 97 <= e <= 122 then e - 71
    else if 48 <= e <= 57 then e + 4
    else if e == 43 then 62
    else if e == 47 then 63
    else 0
  }

  function RfcGroup(q: Bytes): Bytes
    requires |q| == 4
  {
    var low := LowThree(Packed(Value(q[0]), Value(q[1]), Value(q[2]), Value(q[3])));
    Take(low, if q[2] == PAD then 1 else if q[3] == PAD then 2 else 3)
  }

  function RfcDecoded(s: Bytes): Bytes
    decreases |s|
  {
    if |s| < 4 then [] else RfcGroup(s[..4]) + RfcDecoded(s[4..])
  }

  lemma ValueOfLetter(v: bv8)
    requires v < 64
    ensures Value(Letter(v)) == v && Letter(v) != PAD
    ensures Value(PAD) == 0
  {
  }

  lemma RfcGroupOfQuad(a: bv8, b: bv8, c: bv8, n: nat)
    requires 1 <= n && (n < 2 ==> b == 0) && (n < 3 ==> c == 0)
    ensures RfcGroup(Quad(a, b, c, n)) == if n == 1 then [a] else if n == 2 then [a, b] else [a, b, c]
  {
    SixBits(a, b, c);
    ValueOfLetter(First(a));
    ValueOfLetter(Second(a, b));
    ValueOfLetter(Third(b, c));
    ValueOfLetter(Fourth(c));
    MissingSextets();
    PackedBytes(a, b, c);
    SameBytes(LowThree(Packed(First(a), Second(a, b), Third(b, c), Fourth(c))), a, b, c);
  }

  lemma MissingSextets()
    ensures Third(0, 0) == 0 && Fourth(0) == 0
  {
  }

  lemma NextBytes(inp: Bytes, i: nat)
    requires i < |inp|
    ensures inp[i..Next(inp, i)] ==
            if i + 3 <= |inp| then [inp[i], inp[i + 1], inp[i + 2]]
            else if i + 2 == |inp| then [inp[i], inp[i + 1]]
            else [inp[i]]
  {
  }

  lemma RfcQuad(inp: Bytes, i: nat)
    requires i < |inp|
    ensures RfcGroup(QuadAt(inp, i)) == inp[i..Next(inp, i)]
  {
    NextBytes(inp, i);
    RfcGroupOfQuad(inp[i], ByteAt(inp, i + 1), ByteAt(inp, i + 2), |inp| - i);
  }

  lemma RfcStep(q: Bytes, rest: Bytes)
    requires |q| == 4
    ensures RfcDecoded(q + rest) == RfcGroup(q) + RfcDecoded(rest)
  {
    assert (q + rest)[..4] == q && (q + rest)[4..] == rest;
  }

  lemma {:induction false} RfcRoundTrip(inp: Bytes, i: nat)
    requires i <= |inp|
    ensures RfcDecoded(EncodedFrom(inp, i)) == inp[i..]
    decreases |inp| - i
  {
    if i < |inp| {
      EncodedStep(inp, i);
      RfcQuad(inp, i);
      RfcStep(QuadAt(inp, i), EncodedFrom(inp, Next(inp, i)));
      RfcRoundTrip(inp, Next(inp, i));
    }
  }

  /** The encoder is invertible: the decoder of the RFC undoes it, so no two inputs share a text. */
  lemma EncodeInjective(x: Bytes, y: Bytes)
    ensures RfcDecoded(Encoded(x)) == x
    ensures Encoded(x) == Encoded(y) ==> x == y
    ensures |Encoded(x)| == (|x| + 2) / 3 * 4
  {
    RfcRoundTrip(x, 0);
    RfcRoundTrip(y, 0);
    EncodedLength(x, 0);
  }

  /** Examples of section 10 of RFC 4648: `f`, `fo` and `foo`. */
  lemma RfcVectors()
    ensures Encoded([102]) == [90, 103, 61, 61]
    ensures Encoded([102, 111]) == [90, 109, 56, 61]
    ensures Encoded([102, 111, 111]) == [90, 109, 57, 118]
  {
    var f: bv8, o: bv8, z: bv8 := 102, 111, 0;
    assert EncodedFrom([f], 3) == [] && EncodedFrom([f, o], 3) == [] && EncodedFrom([f, o, o], 3) == [];
    assert Quad(f, z, z, 1) == [90, 103, 61, 61];
    assert Quad(f, o, z, 2) == [90, 109, 56, 61];
    assert Quad(f, o, o, 3) == [90, 109, 57, 118];
  }

  /** The shifted `+`: the bytes `f8 00 00` encode to `+AAA` and come back as `00 00 3e`. */
  lemma PlusIsMisread()
    ensures Encoded([0xf8, 0, 0]) == [43, 65, 65, 65]
    ensures DecodedAll([43, 65, 65, 65]) == Decoded([0, 0, 62])
  {
    var a: bv8, z: bv8 := 0xf8, 0;
    assert Letter(First(a)) == 43 && Letter(Second(a, z)) == 65 && Letter(Third(z, z)) == 65 && Letter(Fourth(z)) == 65;
    assert EncodedFrom([a, z, z], 3) == [];
    FullDecodes(a, z, z);
    assert Group([43, 65, 65, 65]) == Quad(a, z, z, 3);
    assert Take(LowThree(Fields(First(a), Second(a, z), Third(z, z), Fourth(z))), 3) == [0, 0, 62];
  }
}
