/** Query strings and form bodies. */
module Query {
  import opened Wrappers
  import opened Text
  import Url

  type Pairs = seq<(string, string)>

  function DecodeOrKeep(s: string): string {
    match Url.Decoded(s)
    case Some(d) => d
    case None => s
  }

  /** The pair written in one `&`-separated piece, if it has a `=`. */
  function PairOf(part: string): Option<(string, string)> {
    match SplitOnce(part, '=')
    case Some((key, value)) => Some((DecodeOrKeep(key), DecodeOrKeep(value)))
    case None => None
  }

  function PairsOf(parts: seq<string>): Pairs {
    if parts == [] then []
    else match PairOf(parts[0])
         case Some(pair) => [pair] + PairsOf(parts[1..])
         case None => PairsOf(parts[1..])
  }

  function Parsed(body: string): Pairs {
    PairsOf(Split(body, {'&'}))
  }

  method ParsePair(part: string) returns (pair: Option<(string, string)>)
    ensures pair == PairOf(part)
  {
    var sub := SplitOnce(part, '=');
    if sub.None? {
      return None;
    }
    var key := Url.Decode(sub.value.0);
    var value := Url.Decode(sub.value.1);
    return Some((if key.Some? then key.value else sub.value.0, if value.Some? then value.value else sub.value.1));
  }

  method FromBody(body: string) returns (data: Pairs)
    ensures data == Parsed(body)
  {
    data := [];
    var parts := Split(body, {'&'});
    for i := 0 to |parts|
      invariant data + PairsOf(parts[i..]) == PairsOf(parts)
    {
      var pair := ParsePair(parts[i]);
      PairsStep(data, parts, i);
      if pair.None? {
        continue;
      }
      data := data + [pair.value];
    }
    assert parts[|parts|..] == [];
  }

  lemma PairsStep(data: Pairs, parts: seq<string>, i: nat)
    requires i < |parts|
    ensures data + PairsOf(parts[i..]) ==
            (if PairOf(parts[i]).Some? then data + [PairOf(parts[i]).value] else data) + PairsOf(parts[i + 1..])
  {
    assert parts[i..][0] == parts[i] && parts[i..][1..] == parts[i + 1..];
  }

  lemma PairsOfOne(part: string, rest: seq<string>)
    ensures PairsOf([part]) == if PairOf(part).Some? then [PairOf(part).value] else []
    ensures PairsOf([part] + rest) == PairsOf([part]) + PairsOf(rest)
  {
    assert [part][1..] == [] && ([part] + rest)[1..] == rest;
  }

  /** Pieces between `&` are read one by one. */
  lemma ParseConcat(a: string, b: string)
    requires '&' !in a
    ensures Parsed(a + "&" + b) == Parsed(a) + Parsed(b)
  {
    SplitCons(a, '&', b, {'&'});
    SplitOne(a, {'&'});
    PairsOfOne(a, Split(b, {'&'}));
  }

  /** A piece without `=` is dropped; in any other the first `=` ends the key, and what cannot be decoded is kept. */
  lemma ParsePiece(key: string, value: string)
    requires '&' !in key && '=' !in key && '&' !in value
    ensures Parsed(key) == []
    ensures var pair := ((if Url.Decoded(key).Some? then Url.Decoded(key).value else key),
                         (if Url.Decoded(value).Some? then Url.Decoded(value).value else value));
            Parsed(key + "=" + value) == [pair]
  {
    var piece := key + ['='] + value;
    SplitOne(key, {'&'});
    FreeAppend(key, "=", {'&'});
    FreeAppend(key + "=", value, {'&'});
    SplitOne(piece, {'&'});
    SplitOnceAt(key, '=', value);
    PairsOfOne(key, []);
    PairsOfOne(piece, []);
  }

  function RenderPair(pair: (string, string)): string {
    Url.Encoded(pair.0) + "=" + Url.Encoded(pair.1)
  }

  function RenderedParts(pairs: Pairs): seq<string> {
    seq(|pairs|, i requires 0 <= i < |pairs| => RenderPair(pairs[i]))
  }

  function Render(pairs: Pairs): string {
    Join(RenderedParts(pairs), "&")
  }

  function LowBytes(pair: (string, string)): (string, string) {
    (Url.LowBytes(pair.0), Url.LowBytes(pair.1))
  }

  lemma RenderedPairPlain(pair: (string, string))
    ensures Free(RenderPair(pair), {'&'}) && NoWhitespace(RenderPair(pair)) && '=' !in Url.Encoded(pair.0)
  {
    Url.EncodedPlain(pair.0);
    Url.EncodedPlain(pair.1);
    FreeAppend(Url.Encoded(pair.0), "=", {'&'});
    FreeAppend(Url.Encoded(pair.0) + "=", Url.Encoded(pair.1), {'&'});
  }

  lemma RenderedPair(pair: (string, string))
    ensures PairOf(RenderPair(pair)) == Some(LowBytes(pair))
  {
    RenderedPairPlain(pair);
    Url.DecodeEncode(pair.0);
    Url.DecodeEncode(pair.1);
    SplitOnceAt(Url.Encoded(pair.0), '=', Url.Encoded(pair.1));
  }

  lemma {:induction false} RenderedPairs(pairs: Pairs)
    ensures var low := PairsOf(RenderedParts(pairs));
            |low| == |pairs| && forall i :: 0 <= i < |pairs| ==> low[i] == LowBytes(pairs[i])
  {
    if pairs != [] {
      RenderedPair(pairs[0]);
      RenderedPairs(pairs[1..]);
      assert RenderedParts(pairs)[1..] == RenderedParts(pairs[1..]);
    }
  }

  /** Rendered pairs come back with the low byte of each character, in order. */
  lemma ParseRender(pairs: Pairs)
    ensures |Parsed(Render(pairs))| == |pairs|
    ensures forall i :: 0 <= i < |pairs| ==> Parsed(Render(pairs))[i] == LowBytes(pairs[i])
  {
    var parts := RenderedParts(pairs);
    if pairs == [] {
      SplitOne("", {'&'});
      assert PairOf("").None?;
    } else {
      forall p | p in parts ensures Free(p, {'&'}) {
        var i :| 0 <= i < |pairs| && p == RenderPair(pairs[i]);
        RenderedPairPlain(pairs[i]);
      }
      SplitJoin(parts, '&', {'&'});
      RenderedPairs(pairs);
    }
  }

  predicate Latin1(pairs: Pairs) {
    forall i :: 0 <= i < |pairs| ==> Url.Latin1(pairs[i].0) && Url.Latin1(pairs[i].1)
  }

  /** The round trip holds for exactly the pairs of Latin-1 strings. */
  lemma RoundTrip(pairs: Pairs)
    ensures Parsed(Render(pairs)) == pairs <==> Latin1(pairs)
  {
    ParseRender(pairs);
    forall i | 0 <= i < |pairs|
      ensures LowBytes(pairs[i]) == pairs[i] <==> Url.Latin1(pairs[i].0) && Url.Latin1(pairs[i].1)
    {
      Url.LowBytesKeep(pairs[i].0);
      Url.LowBytesKeep(pairs[i].1);
    }
  }
}
