/** Route patterns and the path matcher. */
module Path {
  import opened Wrappers
  import opened Text
  import Url

  datatype PathPart = Normal(text: string) | Param(name: string) | AnyAfter | Any

  datatype Path = Path(raw: string, parts: seq<PathPart>)

  type Params = seq<(string, string)>

  function FromSegment(segment: string): PathPart {
    if segment == "*" then Any
    else if segment == "**" then AnyAfter
    else if segment != "" && segment[0] == '{' && segment[|segment| - 1] == '}' then
      Param(segment[1..|segment| - 1])
    else Normal(segment)
  }

  function DropTrailing(path: string): string {
    if path != "" && path[|path| - 1] == '/' then DropTrailing(path[..|path| - 1]) else path
  }

  function DropLeading(path: string): string {
    if path != "" && path[0] == '/' then DropLeading(path[1..]) else path
  }

  function Normalized(path: string): string {
    DropLeading(DropTrailing(path))
  }

  method NormalizePath(input: string) returns (path: string)
    ensures path == Normalized(input)
  {
    path := input;
    while path != "" && path[|path| - 1] == '/'
      invariant DropTrailing(path) == DropTrailing(input)
      decreases |path|
    {
      path := path[..|path| - 1];
    }
    while path != "" && path[0] == '/'
      invariant DropLeading(path) == Normalized(input)
      decreases |path|
    {
      path := path[1..];
    }
  }

  function Segments(path: string): (segments: seq<string>)
    ensures |segments| >= 1
  {
    Split(Normalized(path), {'/'})
  }

  function PartsOf(segments: seq<string>): seq<PathPart> {
    seq(|segments|, i requires 0 <= i < |segments| => FromSegment(segments[i]))
  }

  function Tokenized(path: string): Path {
    Path(Normalized(path), PartsOf(Segments(path)))
  }

  lemma PartsStep(segments: seq<string>, i: nat)
    requires i < |segments|
    ensures PartsOf(segments[..i + 1]) == PartsOf(segments[..i]) + [FromSegment(segments[i])]
    ensures segments[..|segments|] == segments
  {
  }

  method New(path: string) returns (p: Path)
    ensures p == Tokenized(path)
  {
    var raw := NormalizePath(path);
    var out, segments := [], Split(raw, {'/'});
    for i := 0 to |segments|
      invariant out == PartsOf(segments[..i])
    {
      PartsStep(segments, i);
      out := out + [FromSegment(segments[i])];
    }
    return Path(raw, out);
  }

  function ParamValue(segment: string): string {
    match Url.Decoded(segment)
    case Some(d) => d
    case None => segment
  }

  function PrependParams(first: Params, rest: Option<Params>): Option<Params> {
    match rest
    case Some(r) => Some(first + r)
    case None => None
  }

  /** The parameters of a match, segment by segment. */
  function Matched(parts: seq<PathPart>, segments: seq<string>): Option<Params> {
    if parts == [] || segments == [] then if parts == [] && segments == [] then Some([]) else None
    else match parts[0]
         case AnyAfter => Some([])
         case Any => Matched(parts[1..], segments[1..])
         case Normal(text) => if text == segments[0] then Matched(parts[1..], segments[1..]) else None
         case Param(name) =>
           PrependParams([(name, ParamValue(segments[0]))], Matched(parts[1..], segments[1..]))
  }

  function MatchResult(p: Path, path: string): Option<Params> {
    Matched(p.parts, Segments(path))
  }

  lemma PrependNone(r: Option<Params>)
    ensures PrependParams([], r) == r
  {
    if r.Some? {
      assert [] + r.value == r.value;
    }
  }

  lemma MatchedStep(out: Params, parts: seq<PathPart>, segments: seq<string>, k: nat)
    requires k < |parts| && k < |segments|
    ensures var here := PrependParams(out, Matched(parts[k..], segments[k..]));
            var rest := Matched(parts[k + 1..], segments[k + 1..]);
            here == match parts[k] {
              case AnyAfter => Some(out)
              case Any => PrependParams(out, rest)
              case Normal(text) => if text == segments[k] then PrependParams(out, rest) else None
              case Param(name) => PrependParams(out + [(name, ParamValue(segments[k]))], rest)
            }
  {
    assert parts[k..][0] == parts[k] && parts[k..][1..] == parts[k + 1..];
    assert segments[k..][0] == segments[k] && segments[k..][1..] == segments[k + 1..];
    assert out + [] == out;
    var rest := Matched(parts[k + 1..], segments[k + 1..]);
    if parts[k].Param? && rest.Some? {
      var pair := [(parts[k].name, ParamValue(segments[k]))];
      assert out + (pair + rest.value) == (out + pair) + rest.value;
    }
  }

  /** The zip loop, its catch-all shortcut and its length check compute the recursive matcher. */
  method MatchPath(p: Path, input: string) returns (r: Option<Params>)
    ensures r == MatchResult(p, input)
  {
    if p.parts == [AnyAfter] {
      return Some([]);
    }
    var path := NormalizePath(input);
    var out: Params, segments := [], Split(path, {'/'});
    var k := 0;
    PrependNone(Matched(p.parts, segments));
    assert p.parts[0..] == p.parts && segments[0..] == segments;
    while k < |p.parts| && k < |segments|
      invariant k <= |p.parts| && k <= |segments|
      invariant PrependParams(out, Matched(p.parts[k..], segments[k..])) == Matched(p.parts, segments)
    {
      MatchedStep(out, p.parts, segments, k);
      match p.parts[k] {
        case Normal(text) =>
          if text != segments[k] {
            return None;
          }
        case Param(name) =>
          var value := Url.Decode(segments[k]);
          out := out + [(name, if value.Some? then value.value else segments[k])];
        case AnyAfter => return Some(out);
        case Any =>
      }
      k := k + 1;
    }
    if |segments| != |p.parts| {
      return None;
    }
    assert out + [] == out;
    return Some(out);
  }

  // ---- Slashes at the ends do not matter

  predicate AllSlashes(s: string) {
    forall i :: 0 <= i < |s| ==> s[i] == '/'
  }

  lemma {:induction false} DropTrailingSlashes(path: string, slashes: string)
    requires AllSlashes(slashes)
    ensures DropTrailing(path + slashes) == DropTrailing(path)
  {
    if slashes == "" {
      assert path + slashes == path;
    } else {
      var n := |slashes| - 1;
      assert (path + slashes)[..|path| + n] == path + slashes[..n];
      DropTrailingSlashes(path, slashes[..n]);
    }
  }

  lemma {:induction false} DropTrailingAll(slashes: string)
    requires AllSlashes(slashes)
    ensures DropTrailing(slashes) == ""
  {
    DropTrailingSlashes("", slashes);
    assert "" + slashes == slashes;
  }

  lemma {:induction false} DropLeadingSlashes(slashes: string, path: string)
    requires AllSlashes(slashes)
    ensures DropLeading(slashes + path) == DropLeading(path)
  {
    if slashes == "" {
      assert slashes + path == path;
    } else {
      assert (slashes + path)[1..] == slashes[1..] + path;
      DropLeadingSlashes(slashes[1..], path);
    }
  }

  lemma {:induction false} TrailingKeepsFront(slashes: string, path: string)
    requires AllSlashes(slashes)
    ensures DropTrailing(slashes + path) == slashes + DropTrailing(path)
         || (AllSlashes(path) && DropTrailing(slashes + path) == "")
  {
    if path == "" {
      assert slashes + path == slashes;
      DropTrailingAll(slashes);
    } else if path[|path| - 1] == '/' {
      assert (slashes + path)[..|slashes + path| - 1] == slashes + path[..|path| - 1];
      TrailingKeepsFront(slashes, path[..|path| - 1]);
    }
  }

  lemma NormalizeSlashes(before: string, path: string, after: string)
    requires AllSlashes(before) && AllSlashes(after)
    ensures Normalized(before + path + after) == Normalized(path)
  {
    DropTrailingSlashes(before + path, after);
    TrailingKeepsFront(before, path);
    if AllSlashes(path) {
      DropTrailingAll(path);
      DropLeadingSlashes(before, "");
    }
    DropLeadingSlashes(before, DropTrailing(path));
  }

  /** Extra slashes around the pattern or the path change nothing. */
  lemma MatchIgnoresSlashes(a: string, pattern: string, b: string, c: string, path: string, d: string)
    requires AllSlashes(a) && AllSlashes(b) && AllSlashes(c) && AllSlashes(d)
    ensures MatchResult(Tokenized(a + pattern + b), c + path + d) == MatchResult(Tokenized(pattern), path)
  {
    NormalizeSlashes(a, pattern, b);
    NormalizeSlashes(c, path, d);
  }

  /** A path without slashes at its ends is already normal. */
  lemma NormalizedPlain(path: string)
    requires path != "" ==> path[0] != '/' && path[|path| - 1] != '/'
    ensures Normalized(path) == path
  {
  }

  // ---- What a pattern means

  function PartText(part: PathPart): string {
    match part
    case Normal(text) => text
    case Param(name) => "{" + name + "}"
    case Any => "*"
    case AnyAfter => "**"
  }

  /** The part can be written as one segment: a fixed text is no wildcard and no name in braces. */
  predicate Printable(part: PathPart) {
    match part
    case Normal(text) =>
      && Free(text, {'/'}) && text != "*" && text != "**"
      && !(text != "" && text[0] == '{' && text[|text| - 1] == '}')
    case Param(name) => Free(name, {'/'})
    case _ => true
  }

  /** Printing and tokenizing are inverse on segments, in both directions. */
  lemma PartRoundTrip(part: PathPart, segment: string)
    ensures Printable(part) ==> FromSegment(PartText(part)) == part
    ensures PartText(FromSegment(segment)) == segment
  {
    if part.Param? {
      var text := PartText(part);
      assert text[1..|text| - 1] == part.name;
    }
    if FromSegment(segment).Param? {
      assert |segment| > 1;
      assert segment == [segment[0]] + segment[1..|segment| - 1] + [segment[|segment| - 1]];
    }
  }

  function PartTexts(parts: seq<PathPart>): seq<string> {
    seq(|parts|, i requires 0 <= i < |parts| => PartText(parts[i]))
  }

  function PatternText(parts: seq<PathPart>): string {
    "/" + Join(PartTexts(parts), "/")
  }

  /** Free of slashes, and not empty at either end, where slashes would be dropped. */
  predicate Solid(segments: seq<string>) {
    && (forall p :: p in segments ==> Free(p, {'/'}))
    && (segments != [] ==> segments[0] != "" && segments[|segments| - 1] != "")
  }

  lemma {:induction false} JoinLast(segments: seq<string>)
    requires segments != [] && segments[|segments| - 1] != ""
    ensures var j, last := Join(segments, "/"), segments[|segments| - 1]; j != "" && j[|j| - 1] == last[|last| - 1]
  {
    if |segments| > 1 {
      JoinLast(segments[1..]);
    }
  }

  /** Splitting a slash-led, slash-joined path gives its segments back. */
  lemma SegmentsOfJoin(segments: seq<string>)
    requires Solid(segments)
    ensures Segments("/" + Join(segments, "/")) == if segments == [] then [""] else segments
  {
    var joined := Join(segments, "/");
    NormalizeSlashes("/", joined, "");
    assert "/" + joined + "" == "/" + joined;
    if segments == [] {
      NormalizedPlain(joined);
      SplitOne("", {'/'});
    } else {
      JoinLast(segments);
      assert segments[0] in segments && segments[|segments| - 1] in segments;
      assert joined[0] == segments[0][0];
      NormalizedPlain(joined);
      SplitJoin(segments, '/', {'/'});
    }
  }

  /** A printed pattern is tokenized into the parts it was made of. */
  lemma TokenizePattern(parts: seq<PathPart>)
    requires parts != [] && (forall i :: 0 <= i < |parts| ==> Printable(parts[i])) && Solid(PartTexts(parts))
    ensures Tokenized(PatternText(parts)).parts == parts
  {
    SegmentsOfJoin(PartTexts(parts));
    forall i | 0 <= i < |parts| ensures FromSegment(PartTexts(parts)[i]) == parts[i] {
      PartRoundTrip(parts[i], "");
    }
  }

  /** The lone catch-all matches every path. */
  lemma CatchAll(path: string)
    ensures MatchResult(Tokenized("**"), path) == Some([])
  {
    NormalizedPlain("**");
    SplitOne("**", {'/'});
    assert Tokenized("**").parts == [AnyAfter];
  }

  /** One `*` more takes exactly one segment more, whatever it is. */
  lemma {:induction false} OneMore(parts: seq<PathPart>, segments: seq<string>)
    requires AnyAfter !in parts
    ensures Matched(parts + [Any], segments) ==
            if segments == [] then None else Matched(parts, segments[..|segments| - 1])
  {
    if parts == [] {
      assert parts + [Any] == [Any] && [Any][1..] == [];
    } else if |segments| > 1 {
      assert (parts + [Any])[0] == parts[0] && (parts + [Any])[1..] == parts[1..] + [Any];
      var init := segments[..|segments| - 1];
      assert init[0] == segments[0] && init[1..] == segments[1..][..|segments| - 2];
      OneMore(parts[1..], segments[1..]);
    } else if segments != [] {
      assert (parts + [Any])[1..] == parts[1..] + [Any] && segments[1..] == [] && segments[..0] == [];
    }
  }

  /** A catch-all at the end takes one segment or more. */
  lemma {:induction false} AnyMore(parts: seq<PathPart>, segments: seq<string>)
    requires AnyAfter !in parts
    ensures Matched(parts + [AnyAfter], segments) ==
            if |segments| <= |parts| then None else Matched(parts, segments[..|parts|])
  {
    if parts == [] {
      assert parts + [AnyAfter] == [AnyAfter];
    } else if segments != [] {
      assert (parts + [AnyAfter])[0] == parts[0] && (parts + [AnyAfter])[1..] == parts[1..] + [AnyAfter];
      if |segments| > |parts| {
        assert segments[..|parts|][0] == segments[0] && segments[..|parts|][1..] == segments[1..][..|parts| - 1];
      }
      AnyMore(parts[1..], segments[1..]);
    }
  }

  /** So a pattern with one star more is matched like the pattern before it, without the last segment. */
  lemma StarAtEnd(parts: seq<PathPart>, path: string)
    requires AnyAfter !in parts && (forall i :: 0 <= i < |parts| ==> Printable(parts[i])) && Solid(PartTexts(parts))
    ensures MatchResult(Tokenized(PatternText(parts + [Any])), path) ==
            Matched(parts, Segments(path)[..|Segments(path)| - 1])
  {
    PatternEnds(parts, Any);
    OneMore(parts, Segments(path));
  }

  /** And one with a catch-all more like the pattern before it, on as many segments, if there is another. */
  lemma CatchAllAtEnd(parts: seq<PathPart>, path: string)
    requires AnyAfter !in parts && (forall i :: 0 <= i < |parts| ==> Printable(parts[i])) && Solid(PartTexts(parts))
    ensures MatchResult(Tokenized(PatternText(parts + [AnyAfter])), path) ==
            if |Segments(path)| <= |parts| then None else Matched(parts, Segments(path)[..|parts|])
  {
    PatternEnds(parts, AnyAfter);
    AnyMore(parts, Segments(path));
  }

  lemma PatternEnds(parts: seq<PathPart>, last: PathPart)
    requires (forall i :: 0 <= i < |parts| ==> Printable(parts[i])) && Solid(PartTexts(parts))
    requires Printable(last) && PartText(last) != ""
    ensures Tokenized(PatternText(parts + [last])).parts == parts + [last]
  {
    PartTextFree(last);
    assert PartTexts(parts + [last]) == PartTexts(parts) + [PartText(last)];
    TokenizePattern(parts + [last]);
  }

  lemma OneSegment(segment: string)
    requires segment != "" && Free(segment, {'/'})
    ensures Segments("/" + segment) == [segment]
  {
    SegmentsOfJoin([segment]);
  }

  lemma OneParameter(name: string)
    requires Free(name, {'/'})
    ensures Tokenized("/{" + name + "}").parts == [Param(name)]
  {
    var parts := [Param(name)];
    assert PartTexts(parts) == ["{" + name + "}"] && PatternText(parts) == "/{" + name + "}";
    TokenizePattern(parts);
  }

  lemma OneMatch(name: string, segment: string)
    ensures Matched([Param(name)], [segment]) == Some([(name, ParamValue(segment))])
  {
    var pair := [(name, ParamValue(segment))];
    assert [Param(name)][1..] == [] && [segment][1..] == [];
    assert Matched([], []) == Some([]) && pair + [] == pair;
  }

  /** A parameter takes one segment, decoded if it can be and as it stands otherwise. */
  lemma ParameterValue(name: string, segment: string)
    requires Free(name, {'/'}) && segment != "" && Free(segment, {'/'})
    ensures MatchResult(Tokenized("/{" + name + "}"), "/" + segment) ==
            Some([(name, if Url.Decoded(segment).Some? then Url.Decoded(segment).value else segment)])
  {
    OneParameter(name);
    OneSegment(segment);
    OneMatch(name, segment);
  }

  lemma PartTextFree(part: PathPart)
    requires Printable(part)
    ensures Free(PartText(part), {'/'})
  {
  }

  // ---- Which parameters a match returns

  /** The names of the parameters before the first catch-all, in order. */
  function ParamNames(parts: seq<PathPart>): seq<string> {
    if parts == [] || parts[0].AnyAfter? then []
    else if parts[0].Param? then [parts[0].name] + ParamNames(parts[1..])
    else ParamNames(parts[1..])
  }

  function Names(params: Params): seq<string> {
    seq(|params|, i requires 0 <= i < |params| => params[i].0)
  }

  lemma {:induction false} MatchedNames(parts: seq<PathPart>, segments: seq<string>)
    requires Matched(parts, segments).Some?
    ensures Names(Matched(parts, segments).value) == ParamNames(parts)
  {
    if parts != [] && !parts[0].AnyAfter? {
      MatchedNames(parts[1..], segments[1..]);
    }
  }

  /** How many parts come before the first catch-all. */
  function FixedLength(parts: seq<PathPart>): (n: nat)
    ensures n <= |parts|
    ensures forall i :: 0 <= i < n ==> !parts[i].AnyAfter?
  {
    if parts == [] || parts[0].AnyAfter? then 0 else 1 + FixedLength(parts[1..])
  }

  /**
    The path agrees with the literal segments and has as many segments as there are parts, or, with a
    catch-all, at least one more than the parts before it.
   */
  predicate Fits(parts: seq<PathPart>, segments: seq<string>) {
    var n := FixedLength(parts);
    && (if n == |parts| then |segments| == n else |segments| > n)
    && forall i :: 0 <= i < n && parts[i].Normal? ==> parts[i].text == segments[i]
  }

  /** The named segments before the first catch-all, decoded where they can be. */
  function Filled(parts: seq<PathPart>, segments: seq<string>): Params {
    if parts == [] || segments == [] || parts[0].AnyAfter? then []
    else
      var value := if Url.Decoded(segments[0]).Some? then Url.Decoded(segments[0]).value else segments[0];
      (if parts[0].Param? then [(parts[0].name, value)] else []) + Filled(parts[1..], segments[1..])
  }

  /** A pattern matches exactly the paths that fit it. */
  lemma {:induction false} MatchedWhen(parts: seq<PathPart>, segments: seq<string>)
    ensures Matched(parts, segments).Some? <==> Fits(parts, segments)
  {
    if parts != [] && segments != [] && !parts[0].AnyAfter? {
      MatchedWhen(parts[1..], segments[1..]);
      assert forall i :: 1 <= i < |parts| ==> parts[i] == parts[1..][i - 1];
      assert forall i :: 1 <= i < |segments| ==> segments[i] == segments[1..][i - 1];
    }
  }

  lemma {:induction false} MatchedFills(parts: seq<PathPart>, segments: seq<string>)
    ensures Matched(parts, segments).Some? ==> Matched(parts, segments).value == Filled(parts, segments)
  {
    if parts != [] && segments != [] && !parts[0].AnyAfter? {
      MatchedFills(parts[1..], segments[1..]);
      assert [] + Filled(parts[1..], segments[1..]) == Filled(parts[1..], segments[1..]);
    }
  }
}
