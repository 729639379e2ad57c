/** Splitting a multipart body at its boundary and parsing its parts. */
module Multipart {
  import opened Wrappers
  import opened Text
  import Header

  // ---- Occurrences of a word in a text

  predicate At(data: string, b: string, i: nat) {
    i + |b| <= |data| && data[i..i + |b|] == b
  }

  /** The positions from `from` on at which `b` occurs, in order. */
  function Positions(data: string, b: string, from: nat): (p: seq<nat>)
    ensures forall k :: 0 <= k < |p| ==> from <= p[k] && At(data, b, p[k])
    ensures forall k, l :: 0 <= k < l < |p| ==> p[k] < p[l]
    ensures forall i :: from <= i && At(data, b, i) ==> i in p
    decreases |data| - from
  {
    if from + |b| > |data| then []
    else if At(data, b, from) then [from] + Positions(data, b, from + 1)
    else Positions(data, b, from + 1)
  }

  /** `b` starts with the word of length `k` that it ends with. */
  predicate BorderOf(b: string, k: nat) {
    0 < k < |b| && b[..k] == b[|b| - k..]
  }

  predicate Unbordered(b: string) {
    forall k :: 0 < k < |b| ==> !BorderOf(b, k)
  }

  lemma AtChars(data: string, b: string, i: nat)
    requires At(data, b, i)
    ensures forall k :: 0 <= k < |b| ==> data[i + k] == b[k]
  {
    var slice := data[i..i + |b|];
    assert forall k :: 0 <= k < |b| ==> slice[k] == data[i + k];
  }

  /** Two occurrences that overlap show a border. */
  lemma OverlapIsBorder(data: string, b: string, i: nat, j: nat)
    requires At(data, b, i) && At(data, b, j) && i < j < i + |b|
    ensures BorderOf(b, i + |b| - j)
  {
    assert b[j - i..] == data[j..i + |b|];
    assert b[..i + |b| - j] == data[j..i + |b|];
  }

  /** Occurrences of an unbordered word do not overlap. */
  lemma NoOverlap(data: string, b: string, i: nat, j: nat)
    requires Unbordered(b) && At(data, b, i) && At(data, b, j) && i < j
    ensures i + |b| <= j
  {
    if j < i + |b| {
      OverlapIsBorder(data, b, i, j);
    }
  }

  // ---- `split_boundary`

  predicate Fits(data: string, size: nat, positions: seq<nat>) {
    forall k :: 0 <= k < |positions| ==> positions[k] + size <= |data|
  }

  /** The pieces cut out at `positions`, or nothing if one lies before the end of the previous cut. */
  function Cut(data: string, size: nat, start: nat, positions: seq<nat>): Option<seq<string>>
    requires start <= |data| && Fits(data, size, positions)
    decreases |positions|
  {
    if positions == [] then Some([data[start..]])
    else if positions[0] < start then None
    else
      match Cut(data, size, positions[0] + size, positions[1..])
      case None => None
      case Some(rest) => Some([data[start..positions[0]]] + rest)
  }

  function Pieces(data: string, b: string): Option<seq<string>> {
    Cut(data, |b|, 0, Positions(data, b, 0))
  }

  lemma PositionsFrom(data: string, b: string, i: nat)
    requires i + |b| <= |data|
    ensures Positions(data, b, i) == (if data[i..i + |b|] == b then [i] else []) + Positions(data, b, i + 1)
  {
  }

  lemma PositionsStep(out: seq<nat>, data: string, b: string, i: nat)
    requires i + |b| <= |data|
    ensures out + Positions(data, b, i) ==
            (if data[i..i + |b|] == b then out + [i] else out) + Positions(data, b, i + 1)
  {
    PositionsFrom(data, b, i);
    Regroup(out, if data[i..i + |b|] == b then [i] else [], Positions(data, b, i + 1));
    assert out + [] == out;
  }

  lemma PositionsEnd(out: seq<nat>, data: string, b: string, i: nat)
    requires i + |b| > |data|
    ensures out + Positions(data, b, i) == out
  {
  }

  method FindBoundaries(data: string, boundary: string) returns (indexes: seq<nat>)
    requires boundary != ""
    ensures indexes == Positions(data, boundary, 0)
  {
    indexes := [];
    var i := 0;
    assert [] + Positions(data, boundary, 0) == Positions(data, boundary, 0);
    while i + |boundary| <= |data|
      invariant indexes + Positions(data, boundary, i) == Positions(data, boundary, 0)
    {
      PositionsStep(indexes, data, boundary, i);
      if data[i..i + |boundary|] == boundary {
        indexes := indexes + [i];
      }
      i := i + 1;
    }
    PositionsEnd(indexes, data, boundary, i);
  }

  method CutOut(data: string, size: nat, indexes: seq<nat>) returns (r: Option<seq<string>>)
    requires Fits(data, size, indexes)
    ensures r == Cut(data, size, 0, indexes)
  {
    var out: seq<string>, start: nat, k := [], 0, 0;
    BeforeNothing(Cut(data, size, 0, indexes));
    assert indexes[0..] == indexes;
    while k < |indexes|
      invariant k <= |indexes| && start <= |data|
      invariant Cut(data, size, 0, indexes) == Before(out, Cut(data, size, start, indexes[k..]))
    {
      var s := indexes[k];
      if s < start {
        assert indexes[k..][0] == s;
        return None;
      }
      CutStep(out, data, size, start, indexes, k);
      out := out + [data[start..s]];
      start, k := s + size, k + 1;
    }
    return Some(out + [data[start..]]);
  }

  /** Slicing backwards panics, which is the result `None`; so would an empty boundary. */
  method SplitBoundary(data: string, boundary: string) returns (r: Option<seq<string>>)
    requires boundary != ""
    ensures r == Pieces(data, boundary)
  {
    var indexes := FindBoundaries(data, boundary);
    r := CutOut(data, |boundary|, indexes);
  }

  function Before(out: seq<string>, r: Option<seq<string>>): Option<seq<string>> {
    match r
    case None => None
    case Some(rest) => Some(out + rest)
  }

  lemma BeforeNothing(r: Option<seq<string>>)
    ensures Before([], r) == r
  {
    if r.Some? {
      assert [] + r.value == r.value;
    }
  }

  lemma CutStep(out: seq<string>, data: string, size: nat, start: nat, positions: seq<nat>, k: nat)
    requires k < |positions| && start <= positions[k] && start <= |data|
    requires Fits(data, size, positions)
    ensures Before(out, Cut(data, size, start, positions[k..])) ==
            Before(out + [data[start..positions[k]]], Cut(data, size, positions[k] + size, positions[k + 1..]))
  {
    assert positions[k..][0] == positions[k] && positions[k..][1..] == positions[k + 1..];
    var rest := Cut(data, size, positions[k] + size, positions[k + 1..]);
    if rest.Some? {
      var piece := [data[start..positions[k]]];
      assert out + (piece + rest.value) == (out + piece) + rest.value;
    }
  }

  // ---- When splitting succeeds

  /** The cuts from `start` on do not overlap. */
  predicate Apart(positions: seq<nat>, size: nat, start: nat) {
    && (forall k :: 0 <= k < |positions| ==> start <= positions[k])
    && (forall k, l :: 0 <= k < l < |positions| ==> positions[k] + size <= positions[l])
  }

  lemma ApartCons(positions: seq<nat>, size: nat, start: nat)
    requires positions != []
    ensures Apart(positions, size, start) <==>
            start <= positions[0] && Apart(positions[1..], size, positions[0] + size)
  {
    var rest := positions[1..];
    assert forall k :: 1 <= k < |positions| ==> positions[k] == rest[k - 1];
    assert forall k :: 0 <= k < |rest| ==> rest[k] == positions[k + 1];
  }

  lemma {:induction false} CutSucceeds(data: string, size: nat, start: nat, positions: seq<nat>)
    requires start <= |data| && Fits(data, size, positions)
    ensures Cut(data, size, start, positions).Some? <==> Apart(positions, size, start)
    decreases |positions|
  {
    if positions != [] {
      ApartCons(positions, size, start);
      if start <= positions[0] {
        CutSucceeds(data, size, positions[0] + size, positions[1..]);
      }
    }
  }

  predicate OverlapAt(data: string, b: string, i: nat, j: nat) {
    i < j < i + |b| && At(data, b, i) && At(data, b, j)
  }

  ghost predicate Overlapping(data: string, b: string) {
    exists i, j :: OverlapAt(data, b, i, j)
  }

  lemma ApartNoOverlap(data: string, b: string, i: nat, j: nat)
    requires Apart(Positions(data, b, 0), |b|, 0) && At(data, b, i) && At(data, b, j) && i < j
    ensures i + |b| <= j
  {
    var p := Positions(data, b, 0);
    var k :| 0 <= k < |p| && p[k] == i;
    var l :| 0 <= l < |p| && p[l] == j;
  }

  /** Splitting panics exactly on data in which two occurrences of the boundary overlap. */
  lemma PanicsOnOverlap(data: string, b: string)
    ensures Pieces(data, b).None? <==> Overlapping(data, b)
  {
    var p := Positions(data, b, 0);
    CutSucceeds(data, |b|, 0, p);
    if !Apart(p, |b|, 0) {
      var k, l :| 0 <= k < l < |p| && p[k] + |b| > p[l];
      assert OverlapAt(data, b, p[k], p[l]);
    } else {
      forall i: nat, j: nat ensures !OverlapAt(data, b, i, j) {
        if i < j && At(data, b, i) && At(data, b, j) {
          ApartNoOverlap(data, b, i, j);
        }
      }
    }
  }

  /** The boundaries that no data can make panic are exactly the unbordered ones. */
  lemma SafeBoundaries(b: string)
    ensures (forall data :: Pieces(data, b).Some?) <==> Unbordered(b)
  {
    if Unbordered(b) {
      forall data ensures Pieces(data, b).Some? {
        PanicsOnOverlap(data, b);
        if Overlapping(data, b) {
          var i, j :| OverlapAt(data, b, i, j);
          NoOverlap(data, b, i, j);
        }
      }
    } else {
      var k :| 0 < k < |b| && BorderOf(b, k);
      var data := b + b[k..];
      assert data[0..|b|] == b;
      assert data[|b| - k..|b| - k + |b|] == b[..k] + b[k..];
      assert OverlapAt(data, b, 0, |b| - k);
      PanicsOnOverlap(data, b);
    }
  }

  // ---- Splitting and joining are inverse

  ghost predicate Contains(p: string, b: string) {
    exists i :: 0 <= i && At(p, b, i)
  }

  ghost predicate AllFree(pieces: seq<string>, b: string) {
    forall p :: p in pieces ==> !Contains(p, b)
  }

  lemma JoinCons(piece: string, rest: seq<string>, b: string, tail: string)
    requires rest != [] && Join(rest, b) == tail
    ensures Join([piece] + rest, b) == piece + b + tail
  {
    assert ([piece] + rest)[1..] == rest;
  }

  lemma Around(data: string, b: string, start: nat, s: nat)
    requires start <= s && At(data, b, s)
    ensures data[start..s] + b + data[s + |b|..] == data[start..]
  {
    assert data[s..s + |b|] == b;
  }

  lemma CutHead(data: string, size: nat, start: nat, positions: seq<nat>)
    requires start <= |data| && Fits(data, size, positions) && positions != []
    requires Cut(data, size, start, positions).Some?
    ensures start <= positions[0] && Cut(data, size, positions[0] + size, positions[1..]).Some?
    ensures Cut(data, size, start, positions).value ==
            [data[start..positions[0]]] + Cut(data, size, positions[0] + size, positions[1..]).value
  {
  }

  lemma JoinAround(data: string, b: string, start: nat, s: nat, later: seq<string>)
    requires start <= s && At(data, b, s) && later != [] && Join(later, b) == data[s + |b|..]
    ensures Join([data[start..s]] + later, b) == data[start..]
  {
    Around(data, b, start, s);
    JoinCons(data[start..s], later, b, data[s + |b|..]);
  }

  lemma {:induction false} CutJoins(data: string, b: string, start: nat, positions: seq<nat>)
    requires start <= |data| && Fits(data, |b|, positions)
    requires forall k :: 0 <= k < |positions| ==> At(data, b, positions[k])
    requires Cut(data, |b|, start, positions).Some?
    ensures var pieces := Cut(data, |b|, start, positions).value;
            |pieces| == |positions| + 1 && Join(pieces, b) == data[start..]
    decreases |positions|
  {
    if positions != [] {
      var s := positions[0];
      CutHead(data, |b|, start, positions);
      CutJoins(data, b, s + |b|, positions[1..]);
      JoinAround(data, b, start, s, Cut(data, |b|, s + |b|, positions[1..]).value);
    }
  }

  /** An occurrence in a stretch of the data is an occurrence in the data. */
  lemma AtInStretch(data: string, b: string, start: nat, end: nat, i: nat)
    requires start <= end <= |data| && At(data[start..end], b, i)
    ensures start + i + |b| <= end && At(data, b, start + i)
  {
    var slice := data[start..end][i..i + |b|];
    assert forall k :: 0 <= k < |b| ==> slice[k] == data[start + i + k];
    assert data[start + i..start + i + |b|] == slice;
  }

  lemma StretchIsFree(data: string, b: string, start: nat, end: nat)
    requires start <= end <= |data|
    requires forall i :: start <= i && i + |b| <= end ==> !At(data, b, i)
    ensures !Contains(data[start..end], b)
  {
    forall i: nat ensures !At(data[start..end], b, i) {
      if At(data[start..end], b, i) {
        AtInStretch(data, b, start, end, i);
      }
    }
  }

  /** Every occurrence from `start` on is listed. */
  predicate Lists(data: string, b: string, start: nat, positions: seq<nat>) {
    && (forall k, l :: 0 <= k < l < |positions| ==> positions[k] < positions[l])
    && (forall i :: start <= i <= |data| && At(data, b, i) ==> i in positions)
  }

  lemma {:induction false} CutIsFree(data: string, b: string, start: nat, positions: seq<nat>)
    requires start <= |data| && Fits(data, |b|, positions) && Lists(data, b, start, positions)
    requires b != "" && Cut(data, |b|, start, positions).Some?
    ensures AllFree(Cut(data, |b|, start, positions).value, b)
    decreases |positions|
  {
    var end := if positions == [] then |data| else positions[0];
    forall i | start <= i && i + |b| <= end ensures !At(data, b, i) {
      assert i !in positions;
    }
    StretchIsFree(data, b, start, end);
    assert data[start..|data|] == data[start..];
    if positions != [] {
      var rest := positions[1..];
      assert forall i :: i in positions ==> i == positions[0] || i in rest;
      CutIsFree(data, b, end + |b|, rest);
      var later := Cut(data, |b|, end + |b|, rest).value;
      assert Cut(data, |b|, start, positions).value == [data[start..end]] + later;
      assert forall p :: p in [data[start..end]] + later ==> p == data[start..end] || p in later;
    }
  }

  /** Joining the pieces restores the data, and no piece contains the boundary. */
  lemma JoinAfterSplit(data: string, b: string)
    requires b != "" && Pieces(data, b).Some?
    ensures Join(Pieces(data, b).value, b) == data && AllFree(Pieces(data, b).value, b)
    ensures |Pieces(data, b).value| == |Positions(data, b, 0)| + 1
  {
    CutJoins(data, b, 0, Positions(data, b, 0));
    assert data[0..] == data;
    CutIsFree(data, b, 0, Positions(data, b, 0));
  }

  lemma JoinedAt(pieces: seq<string>, b: string)
    requires |pieces| > 1
    ensures At(Join(pieces, b), b, |pieces[0]|)
    ensures |pieces[0]| + |b| <= |Join(pieces, b)|
    ensures Join(pieces, b)[..|pieces[0]|] == pieces[0]
    ensures Join(pieces, b)[|pieces[0]| + |b|..] == Join(pieces[1..], b)
  {
  }

  lemma AtInPrefix(data: string, b: string, i: nat, n: nat)
    requires At(data, b, i) && i + |b| <= n <= |data|
    ensures Contains(data[..n], b)
  {
    assert data[..n][i..i + |b|] == data[i..i + |b|];
    assert At(data[..n], b, i);
  }

  /** Two lists of boundary-free pieces that join to the same data do not differ in their first cut. */
  lemma FirstCut(ps: seq<string>, qs: seq<string>, b: string)
    requires |ps| > 1 && |qs| >= 1 && Unbordered(b)
    requires !Contains(qs[0], b) && Join(ps, b) == Join(qs, b)
    ensures |qs| > 1 && |ps[0]| >= |qs[0]|
  {
    var data := Join(ps, b);
    JoinedAt(ps, b);
    assert data[..|data|] == data;
    AtInPrefix(data, b, |ps[0]|, |data|);
    if |qs| > 1 {
      JoinedAt(qs, b);
      if |ps[0]| < |qs[0]| {
        NoOverlap(data, b, |ps[0]|, |qs[0]|);
        AtInPrefix(data, b, |ps[0]|, |qs[0]|);
      }
    }
  }

  lemma {:induction false} JoinIsInjective(ps: seq<string>, qs: seq<string>, b: string)
    requires |ps| >= 1 && |qs| >= 1 && Unbordered(b)
    requires AllFree(ps, b) && AllFree(qs, b) && Join(ps, b) == Join(qs, b)
    ensures ps == qs
    decreases |ps|
  {
    if |ps| == 1 && |qs| == 1 {
    } else if |ps| == 1 {
      FirstCut(qs, ps, b);
    } else {
      FirstCut(ps, qs, b);
      FirstCut(qs, ps, b);
      JoinedAt(ps, b);
      JoinedAt(qs, b);
      JoinIsInjective(ps[1..], qs[1..], b);
      assert ps == [ps[0]] + ps[1..] && qs == [qs[0]] + qs[1..];
    }
  }

  /** Splitting any join of boundary-free pieces gives exactly those pieces. */
  lemma SplitAfterJoin(pieces: seq<string>, b: string)
    requires |pieces| >= 1 && b != "" && Unbordered(b) && AllFree(pieces, b)
    ensures Pieces(Join(pieces, b), b) == Some(pieces)
  {
    var data := Join(pieces, b);
    SafeBoundaries(b);
    JoinAfterSplit(data, b);
    JoinIsInjective(Pieces(data, b).value, pieces, b);
  }

  // ---- Parts

  datatype Entry = Entry(name: string, filename: Option<string>, headers: seq<Header.Header>, data: string)

  datatype MultipartError = InvalidContentType | InvalidBoundary | InvalidData | InvalidEntry

  const BLANK_LINE := "\r\n\r\n"

  /** The headers on the lines that are not empty. */
  function HeadersOn(lines: seq<string>): Option<seq<Header.Header>> {
    if lines == [] then Some([])
    else if lines[0] == "" then HeadersOn(lines[1..])
    else
      match (Header.FromString(lines[0]), HeadersOn(lines[1..]))
      case (Some(h), Some(rest)) => Some([h] + rest)
      case _ => None
  }

  method ReadHeaders(lines: seq<string>) returns (r: Option<seq<Header.Header>>)
    ensures r == HeadersOn(lines)
  {
    var headers: seq<Header.Header> := [];
    assert lines[0..] == lines;
    PlusNothing(HeadersOn(lines));
    for i := 0 to |lines|
      invariant HeadersOn(lines) == Plus(headers, HeadersOn(lines[i..]))
    {
      PlusStep(headers, lines, i);
      if lines[i] == "" {
        continue;
      }
      var header := Header.FromString(lines[i]);
      if header.None? {
        return None;
      }
      headers := headers + [header.value];
    }
    assert headers + [] == headers;
    return Some(headers);
  }

  function Plus(headers: seq<Header.Header>, r: Option<seq<Header.Header>>): Option<seq<Header.Header>> {
    match r
    case None => None
    case Some(rest) => Some(headers + rest)
  }

  lemma PlusNothing(r: Option<seq<Header.Header>>)
    ensures Plus([], r) == r
  {
    if r.Some? {
      assert [] + r.value == r.value;
    }
  }

  lemma PlusStep(headers: seq<Header.Header>, lines: seq<string>, i: nat)
    requires i < |lines|
    ensures var rest := HeadersOn(lines[i + 1..]);
            Plus(headers, HeadersOn(lines[i..])) ==
            if lines[i] == "" then Plus(headers, rest)
            else if Header.FromString(lines[i]).None? then None
            else Plus(headers + [Header.FromString(lines[i]).value], rest)
  {
    assert lines[i..][0] == lines[i] && lines[i..][1..] == lines[i + 1..];
    var rest, h := HeadersOn(lines[i + 1..]), Header.FromString(lines[i]);
    if rest.Some? && h.Some? {
      assert headers + ([h.value] + rest.value) == (headers + [h.value]) + rest.value;
    }
  }

  function Nonempty(lines: seq<string>): seq<string> {
    if lines == [] then []
    else if lines[0] == "" then Nonempty(lines[1..])
    else [lines[0]] + Nonempty(lines[1..])
  }

  ghost predicate SomeBad(texts: seq<string>) {
    exists i :: 0 <= i < |texts| && ':' !in texts[i]
  }

  lemma BadLater(first: string, texts: seq<string>)
    ensures SomeBad([first] + texts) <==> ':' !in first || SomeBad(texts)
  {
    var all := [first] + texts;
    assert all[0] == first && all[1..] == texts;
    if SomeBad(texts) {
      var i :| 0 <= i < |texts| && ':' !in texts[i];
      assert all[i + 1] == texts[i];
    }
  }

  predicate AreHeaders(texts: seq<string>, headers: seq<Header.Header>) {
    |headers| == |texts| && forall i :: 0 <= i < |texts| ==> Header.FromString(texts[i]) == Some(headers[i])
  }

  lemma HeadersLater(first: string, texts: seq<string>, h: Header.Header, headers: seq<Header.Header>)
    requires Header.FromString(first) == Some(h) && AreHeaders(texts, headers)
    ensures AreHeaders([first] + texts, [h] + headers)
  {
  }

  /** The nonempty lines are the headers, one for one, and one without a colon fails them all. */
  lemma {:induction false} HeadersAreLines(lines: seq<string>)
    ensures HeadersOn(lines).None? <==> SomeBad(Nonempty(lines))
    ensures HeadersOn(lines).Some? ==> AreHeaders(Nonempty(lines), HeadersOn(lines).value)
  {
    if lines != [] {
      var first, rest := lines[0], lines[1..];
      HeadersAreLines(rest);
      if first != "" {
        BadLater(first, Nonempty(rest));
        if HeadersOn(lines).Some? {
          HeadersLater(first, Nonempty(rest), Header.FromString(first).value, HeadersOn(rest).value);
        }
      }
    }
  }

  function Unquoted(s: string): Option<string> {
    if |s| >= 2 && s[0] == '"' && s[|s| - 1] == '"' then Some(s[1..|s| - 1]) else None
  }

  function DispositionType(): Header.HeaderType {
    Header.TypeFrom("Content-Disposition")
  }

  /** The entry with these headers and this data, if they name it. */
  function EntryWith(headers: seq<Header.Header>, data: string): Result<Entry, MultipartError> {
    match Header.Find(headers, DispositionType())
    case None => Err(InvalidEntry)
    case Some(content) =>
      var params := Header.ParamsOf(content.value).params;
      match Header.GetParam(params, "name")
      case None => Err(InvalidEntry)
      case Some(quoted) =>
        match Unquoted(quoted)
        case None => Err(InvalidEntry)
        case Some(name) => Ok(Entry(name, Header.GetParam(params, "filename"), headers, data))
  }

  function EntryFrom(value: string): Result<Entry, MultipartError> {
    var blank := Positions(value, BLANK_LINE, 0);
    if blank == [] then Err(InvalidEntry)
    else
      var index := blank[0] + 4;
      match HeadersOn(Lines(value[..index]))
      case None => Err(InvalidEntry)
      case Some(headers) => EntryWith(headers, value[index..])
  }

  method ParseEntry(value: string) returns (r: Result<Entry, MultipartError>)
    ensures r == EntryFrom(value)
  {
    var blank := FindBoundaries(value, BLANK_LINE);
    if blank == [] {
      return Err(InvalidEntry);
    }
    var index := blank[0] + 4;
    var headers := ReadHeaders(Lines(value[..index]));
    if headers.None? {
      return Err(InvalidEntry);
    }
    return EntryWith(headers.value, value[index..]);
  }

  type Parsing = Result<Entry, MultipartError>

  /** `collect` into a result: all the entries, or the first error. */
  function Collected(results: seq<Parsing>): Result<seq<Entry>, MultipartError> {
    if results == [] then Ok([])
    else
      match results[0]
      case Err(e) => Err(e)
      case Ok(entry) =>
        match Collected(results[1..])
        case Err(e) => Err(e)
        case Ok(rest) => Ok([entry] + rest)
  }

  function Entries(pieces: seq<string>): seq<Parsing> {
    seq(|pieces|, i requires 0 <= i < |pieces| => EntryFrom(pieces[i]))
  }

  /** `Panics` is the backwards slice of `split_boundary`. */
  datatype Form = Panics | Invalid(error: MultipartError) | Form(contentType: string, entries: seq<Entry>)

  /** The form in the pieces between boundaries: all but the first and the last are entries. */
  function FormIn(contentType: string, pieces: seq<string>): Form {
    if |pieces| < 3 then Invalid(InvalidData)
    else
      match Collected(Entries(pieces[1..|pieces| - 1]))
      case Err(e) => Invalid(e)
      case Ok(entries) => Form(contentType, entries)
  }

  function FormOf(contentType: string, pieces: Option<seq<string>>): Form {
    if contentType != "multipart/form-data" then Invalid(InvalidContentType)
    else
      match pieces
      case None => Panics
      case Some(data) => FormIn(contentType, data)
  }

  function FormFrom(headers: seq<Header.Header>, body: string): Form {
    match Header.Find(headers, Header.ContentType)
    case None => Invalid(InvalidContentType)
    case Some(h) =>
      var params := Header.ParamsOf(h.value);
      match Header.GetParam(params.params, "boundary")
      case None => Invalid(InvalidBoundary)
      case Some(boundary) => FormOf(params.value, Pieces(body, "--" + boundary))
  }

  lemma {:induction false} CollectedErrors(results: seq<Parsing>)
    requires forall i :: 0 <= i < |results| ==> results[i].Err? ==> results[i].error == InvalidEntry
    ensures Collected(results).Err? ==> Collected(results).error == InvalidEntry
  {
    if results != [] {
      CollectedErrors(results[1..]);
    }
  }

  lemma EntryErrors(value: string)
    ensures EntryFrom(value).Err? ==> EntryFrom(value).error == InvalidEntry
  {
  }

  lemma TwoPositions(data: string, b: string, i: nat, j: nat)
    requires At(data, b, i) && At(data, b, j) && i != j
    ensures |Positions(data, b, 0)| >= 2
  {
    var p := Positions(data, b, 0);
    var k :| 0 <= k < |p| && p[k] == i;
    var l :| 0 <= l < |p| && p[l] == j;
  }

  lemma EntriesErrors(pieces: seq<string>)
    ensures var r := Collected(Entries(pieces)); r.Err? ==> r.error == InvalidEntry
  {
    var results := Entries(pieces);
    forall i | 0 <= i < |results| && results[i].Err? ensures results[i].error == InvalidEntry {
      EntryErrors(pieces[i]);
    }
    CollectedErrors(results);
  }

  lemma TooShort(contentType: string, pieces: seq<string>)
    ensures FormIn(contentType, pieces) == Invalid(InvalidData) <==> |pieces| < 3
  {
    if |pieces| >= 3 {
      EntriesErrors(pieces[1..|pieces| - 1]);
    }
  }

  /** A form is too short exactly if its boundary does not occur twice. */
  lemma FewBoundaries(b: string, body: string)
    requires b != ""
    ensures FormOf("multipart/form-data", Pieces(body, b)) == Invalid(InvalidData) <==> |Positions(body, b, 0)| < 2
  {
    PanicsOnOverlap(body, b);
    var pieces := Pieces(body, b);
    if pieces.None? {
      var i, j :| OverlapAt(body, b, i, j);
      TwoPositions(body, b, i, j);
    } else {
      JoinAfterSplit(body, b);
      TooShort("multipart/form-data", pieces.value);
    }
  }

  // ---- Rendering a form and parsing it

  /** A field of a form, and the name of the file that was chosen for it. */
  datatype Part = Part(name: string, filename: Option<string>, data: string)

  function Quoted(s: string): string {
    "\"" + s + "\""
  }

  function DispositionOf(part: Part): seq<(string, string)> {
    [("name", Quoted(part.name))] + if part.filename.Some? then [("filename", Quoted(part.filename.value))] else []
  }

  function DispositionHeader(part: Part): Header.Header {
    Header.Header(DispositionType(), "form-data" + Header.RenderParams(DispositionOf(part)))
  }

  /** What stands between two boundaries for a part. */
  function PartText(part: Part): string {
    "\r\n" + Header.ToString(DispositionHeader(part)) + BLANK_LINE + part.data + "\r\n"
  }

  function PartTexts(parts: seq<Part>): seq<string> {
    seq(|parts|, i requires 0 <= i < |parts| => PartText(parts[i]))
  }

  function RenderForm(parts: seq<Part>, boundary: string): string {
    Join([""] + PartTexts(parts) + ["--\r\n"], "--" + boundary)
  }

  predicate ValidName(name: string) {
    Free(name, {';', '\r', '\n'})
  }

  predicate ValidPart(part: Part) {
    ValidName(part.name) && (part.filename.Some? ==> ValidName(part.filename.value))
  }

  /**
    What the parser makes of a part: the name without its quotes, the filename with them, and the data with
    the line break before the next boundary.
   */
  function Expected(part: Part): Entry {
    Entry(part.name, if part.filename.Some? then Some(Quoted(part.filename.value)) else None,
          [DispositionHeader(part)], part.data + "\r\n")
  }

  function ExpectedEntries(parts: seq<Part>): seq<Entry> {
    seq(|parts|, i requires 0 <= i < |parts| => Expected(parts[i]))
  }

  lemma DispositionIsCustom()
    ensures DispositionType() == Header.Custom("Content-Disposition")
    ensures Header.TypeName(DispositionType()) == "Content-Disposition"
    ensures Header.Canonical(DispositionType())
  {
    var lower := "content-disposition";
    assert Header.Lower("Content-Disposition") == lower;
    assert lower[8] == 'd' && |lower| == 19;
  }

  lemma QuotedIsPlain(name: string)
    requires ValidName(name)
    ensures Trimmed(Quoted(name)) && Free(Quoted(name), {';', '\r', '\n'})
    ensures Unquoted(Quoted(name)) == Some(name)
  {
    var q := Quoted(name);
    assert q[0] == '"' && q[|q| - 1] == '"' && q[1..|q| - 1] == name;
  }

  lemma DispositionParams(part: Part)
    requires ValidPart(part)
    ensures Header.PlainParams(DispositionOf(part))
    ensures Header.ParamsOf(DispositionHeader(part).value) == Header.HeaderParams("form-data", DispositionOf(part))
  {
    QuotedIsPlain(part.name);
    if part.filename.Some? {
      QuotedIsPlain(part.filename.value);
    }
    Header.ParamsRoundTrip("form-data", DispositionOf(part));
  }

  /** No line break, and no white space at the end. */
  predicate LineEnd(s: string) {
    Free(s, {'\r', '\n'}) && s != "" && !IsWhitespace(s[|s| - 1])
  }

  lemma LineGrows(s: string, key: string, name: string)
    requires LineEnd(s) && Free(key, {'\r', '\n'}) && ValidName(name)
    ensures LineEnd(s + ("; " + key + "=" + Quoted(name)))
  {
    var more := "; " + key + "=" + Quoted(name);
    QuotedIsPlain(name);
    FreeAppend("; ", key, {'\r', '\n'});
    FreeAppend("; " + key, "=", {'\r', '\n'});
    FreeAppend("; " + key + "=", Quoted(name), {'\r', '\n'});
    FreeAppend(s, more, {'\r', '\n'});
    assert (s + more)[|s + more| - 1] == '"';
  }

  lemma RenderOne(param: (string, string))
    ensures Header.RenderParams([param]) == "; " + param.0 + "=" + param.1
  {
    assert [param][1..] == [];
  }

  lemma RenderTwo(param: (string, string), other: (string, string))
    ensures Header.RenderParams([param] + [other]) ==
            "; " + param.0 + "=" + param.1 + ("; " + other.0 + "=" + other.1)
  {
    assert ([param] + [other])[1..] == [other];
    RenderOne(other);
  }

  lemma DispositionLineEnd(part: Part)
    requires ValidPart(part)
    ensures LineEnd(DispositionHeader(part).value) && DispositionHeader(part).value[0] == 'f'
  {
    var first := "; " + "name" + "=" + Quoted(part.name);
    LineGrows("form-data", "name", part.name);
    RenderOne(("name", Quoted(part.name)));
    if part.filename.Some? {
      var name := part.filename.value;
      LineGrows("form-data" + first, "filename", name);
      RenderTwo(("name", Quoted(part.name)), ("filename", Quoted(name)));
      Regroup("form-data", first, "; " + "filename" + "=" + Quoted(name));
    } else {
      assert DispositionOf(part) == [("name", Quoted(part.name))];
    }
  }

  lemma DispositionWritable(part: Part)
    requires ValidPart(part)
    ensures Header.Writable(DispositionHeader(part))
  {
    DispositionIsCustom();
    DispositionLineEnd(part);
  }

  lemma DispositionLine(part: Part)
    requires ValidPart(part)
    ensures Free(Header.ToString(DispositionHeader(part)), {'\r', '\n'})
    ensures Header.ToString(DispositionHeader(part)) != ""
  {
    DispositionIsCustom();
    DispositionLineEnd(part);
    FreeAppend("Content-Disposition" + ": ", DispositionHeader(part).value, {'\r', '\n'});
  }

  /** The blank line after the header line is the first one. */
  lemma FirstBlank(line: string, rest: string)
    requires Free(line, {'\r', '\n'}) && line != ""
    ensures var p := Positions("\r\n" + line + BLANK_LINE + rest, BLANK_LINE, 0);
            p != [] && p[0] == |line| + 2
  {
    var value := "\r\n" + line + BLANK_LINE + rest;
    var n := |line| + 2;
    assert value[n..n + 4] == BLANK_LINE;
    assert At(value, BLANK_LINE, n);
    var p := Positions(value, BLANK_LINE, 0);
    assert n in p;
    AtChars(value, BLANK_LINE, p[0]);
    assert BLANK_LINE[0] == '\r' && BLANK_LINE[2] == '\r';
    assert value[1] == '\n' && forall k :: 0 <= k < |line| ==> value[2 + k] == line[k];
    assert forall k :: 2 <= k < n ==> value[k] == line[k - 2];
  }

  lemma LinesOfHead(line: string)
    requires Free(line, {'\r', '\n'})
    ensures Lines("\r\n" + line + BLANK_LINE) == ["", line, ""]
  {
    assert "\r\n" + line + BLANK_LINE == "" + "\r\n" + (line + "\r\n" + ("" + "\r\n" + ""));
    LinesConsCrLf("", "");
    LinesConsCrLf(line, "" + "\r\n" + "");
    LinesConsCrLf("", line + "\r\n" + ("" + "\r\n" + ""));
  }

  lemma PartIsRead(part: Part)
    requires ValidPart(part)
    ensures EntryFrom(PartText(part)) == Ok(Expected(part))
  {
    var h := DispositionHeader(part);
    var line := Header.ToString(h);
    var value, head, data := PartText(part), "\r\n" + line + BLANK_LINE, part.data + "\r\n";
    DispositionWritable(part);
    DispositionLine(part);
    assert value == head + data;
    assert value == "\r\n" + line + BLANK_LINE + data;
    FirstBlank(line, data);
    assert value[..|line| + 6] == head && value[|line| + 6..] == data;
    LinesOfHead(line);
    HeadersOfHead(h);
    EntryOfHead(part, data);
  }

  lemma HeadersOfHead(h: Header.Header)
    requires Header.Writable(h) && Header.ToString(h) != ""
    ensures HeadersOn(["", Header.ToString(h), ""]) == Some([h])
  {
    var lines := ["", Header.ToString(h), ""];
    Header.LineRoundTrip(h);
    assert lines[1..] == [Header.ToString(h), ""] && lines[1..][1..] == [""] && [""][1..] == [];
    assert HeadersOn([""]) == Some([]);
    assert [h] + [] == [h];
  }

  lemma EntryOfHead(part: Part, data: string)
    requires ValidPart(part)
    ensures EntryWith([DispositionHeader(part)], data) == Ok(Expected(part).(data := data))
  {
    DispositionParams(part);
    QuotedIsPlain(part.name);
    var params := DispositionOf(part);
    assert params[0] == ("name", Quoted(part.name));
    if part.filename.Some? {
      assert params[1..][0] == ("filename", Quoted(part.filename.value));
    } else {
      assert params[1..] == [];
    }
    assert Header.GetParam(params, "filename") == Expected(part).filename;
  }

  lemma {:induction false} CollectedAll(results: seq<Parsing>, entries: seq<Entry>)
    requires |results| == |entries| && forall i :: 0 <= i < |results| ==> results[i] == Ok(entries[i])
    ensures Collected(results) == Ok(entries)
  {
    if results != [] {
      CollectedAll(results[1..], entries[1..]);
      assert entries == [entries[0]] + entries[1..];
    }
  }

  lemma PartsAreRead(parts: seq<Part>)
    requires forall i :: 0 <= i < |parts| ==> ValidPart(parts[i])
    ensures Collected(Entries(PartTexts(parts))) == Ok(ExpectedEntries(parts))
  {
    forall i | 0 <= i < |parts| ensures EntryFrom(PartTexts(parts)[i]) == Ok(ExpectedEntries(parts)[i]) {
      PartIsRead(parts[i]);
    }
    CollectedAll(Entries(PartTexts(parts)), ExpectedEntries(parts));
  }

  lemma DashesHaveBorder()
    ensures BorderOf("--" + "", 1)
  {
    var b := "--" + "";
    assert b[..1] == "-" && b[|b| - 1..] == "-";
  }

  lemma EndIsFree(boundary: string)
    requires Trimmed(boundary) && Unbordered("--" + boundary)
    ensures !Contains("", "--" + boundary) && !Contains("--\r\n", "--" + boundary)
  {
    var b, end := "--" + boundary, "--\r\n";
    DashesHaveBorder();
    assert boundary != "";
    assert b[1] == '-' && b[2] == boundary[0];
    forall i: nat ensures !At(end, b, i) {
      if At(end, b, i) {
        AtChars(end, b, i);
      }
    }
  }

  function FormHeader(boundary: string): Header.Header {
    Header.Header(Header.ContentType, "multipart/form-data" + Header.RenderParams([("boundary", boundary)]))
  }

  lemma FormParams(boundary: string)
    requires Trimmed(boundary) && ';' !in boundary
    ensures Header.Find([FormHeader(boundary)], Header.ContentType) == Some(FormHeader(boundary))
    ensures Header.ParamsOf(FormHeader(boundary).value).value == "multipart/form-data"
    ensures Header.GetParam(Header.ParamsOf(FormHeader(boundary).value).params, "boundary") == Some(boundary)
  {
    Header.ParamsRoundTrip("multipart/form-data", [("boundary", boundary)]);
  }

  lemma FormPieces(parts: seq<Part>, boundary: string)
    requires Trimmed(boundary) && Unbordered("--" + boundary)
    requires AllFree(PartTexts(parts), "--" + boundary)
    ensures Pieces(RenderForm(parts, boundary), "--" + boundary) == Some([""] + PartTexts(parts) + ["--\r\n"])
  {
    EndIsFree(boundary);
    SplitAfterJoin([""] + PartTexts(parts) + ["--\r\n"], "--" + boundary);
  }

  /**
    A form of named parts, rendered with an unbordered boundary that occurs in none of them, parses to
    the same names in order, each with its filename, in quotes, if it has one, and with its data and the
    line break that section 5.1.1 of RFC 2046 counts as part of the next boundary.
   */
  lemma {:induction false} FormRoundTrip(parts: seq<Part>, boundary: string)
    requires parts != [] && forall i :: 0 <= i < |parts| ==> ValidPart(parts[i])
    requires Trimmed(boundary) && ';' !in boundary && Unbordered("--" + boundary)
    requires AllFree(PartTexts(parts), "--" + boundary)
    ensures FormFrom([FormHeader(boundary)], RenderForm(parts, boundary)) ==
            Form("multipart/form-data", ExpectedEntries(parts))
  {
    var pieces := [""] + PartTexts(parts) + ["--\r\n"];
    FormPieces(parts, boundary);
    assert pieces[1..|pieces| - 1] == PartTexts(parts);
    PartsAreRead(parts);
    FormParams(boundary);
    assert FormOf("multipart/form-data", Some(pieces)) == Form("multipart/form-data", ExpectedEntries(parts));
  }
}
