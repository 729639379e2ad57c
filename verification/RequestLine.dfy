/** The request line: method, target and version. */
module RequestLine {
  import opened Wrappers
  import opened Text
  import opened Errors
  import Header
  import Path
  import Query
  import Url

  datatype RequestLine = RequestLine(verb: Method, path: string, query: Query.Pairs, version: string)

  /**
    `char::to_uppercase`, as far as comparing with ASCII names can tell: the ASCII letters, and the
    other characters whose uppercase form is made of ASCII letters.
   */
  function Upper(c: char): string {
    if 'a' <= c <= 'z' then [(c as int - 32) as char]
    else if c == '\U{0131}' then "I"
    else if c == '\U{017F}' then "S"
    else if c == '\U{00DF}' then "SS"
    else if c == '\U{FB00}' then "FF"
    else if c == '\U{FB01}' then "FI"
    else if c == '\U{FB02}' then "FL"
    else if c == '\U{FB03}' then "FFI"
    else if c == '\U{FB04}' then "FFL"
    else if c == '\U{FB05}' || c == '\U{FB06}' then "ST"
    else [c]
  }

  function Uppercase(s: string): string {
    if s == "" then "" else Upper(s[0]) + Uppercase(s[1..])
  }

  function Name(m: Method): string {
    match m
    case GET => "GET"
    case POST => "POST"
    case PUT => "PUT"
    case DELETE => "DELETE"
    case OPTIONS => "OPTIONS"
    case HEAD => "HEAD"
    case PATCH => "PATCH"
    case TRACE => "TRACE"
    case ANY => "ANY"
  }

  function MethodFrom(s: string): Result<Method, ()> {
    var u := Uppercase(s);
    if u == "GET" then Ok(GET)
    else if u == "POST" then Ok(POST)
    else if u == "PUT" then Ok(PUT)
    else if u == "DELETE" then Ok(DELETE)
    else if u == "OPTIONS" then Ok(OPTIONS)
    else if u == "HEAD" then Ok(HEAD)
    else if u == "PATCH" then Ok(PATCH)
    else if u == "TRACE" then Ok(TRACE)
    else Err(())
  }

  /** The path with runs of slashes collapsed, and the raw query; `slash` is whether a slash came last. */
  function Target(s: string, slash: bool): (string, string) {
    if s == "" then ("", "")
    else if s[0] == '/' || s[0] == '\\' then
      var rest := Target(s[1..], true);
      if slash then rest else ("/" + rest.0, rest.1)
    else if s[0] == '?' then ("", s[1..])
    else
      var rest := Target(s[1..], false);
      ([s[0]] + rest.0, rest.1)
  }

  method ReadTarget(raw: string) returns (path: string, query: string)
    ensures (path, query) == Target(raw, false)
  {
    path, query := "", "";
    var lastIsSlash, i := false, 0;
    assert raw[0..] == raw && "" + Target(raw, false).0 == Target(raw, false).0;
    while i < |raw|
      invariant i <= |raw| && query == ""
      invariant Target(raw, false) == (path + Target(raw[i..], lastIsSlash).0, Target(raw[i..], lastIsSlash).1)
    {
      var c, before := raw[i], path;
      ghost var rest := raw[i + 1..];
      assert raw[i..][0] == c && raw[i..][1..] == rest;
      i := i + 1;
      if c == '/' || c == '\\' {
        if lastIsSlash {
          continue;
        }
        lastIsSlash := true;
        path := path + "/";
        assert before + ("/" + Target(rest, true).0) == path + Target(rest, true).0;
      } else if c == '?' {
        query := query + raw[i..];
        assert query == raw[i..] && path + "" == path;
        return;
      } else {
        lastIsSlash := false;
        path := path + [c];
        assert before + ([c] + Target(rest, false).0) == path + Target(rest, false).0;
      }
    }
    assert path + "" == path;
  }

  function Parsed(line: string): Result<RequestLine, ParseError> {
    var words := SplitWhitespace(line);
    if |words| < 1 then Err(NoMethod)
    else match MethodFrom(words[0])
         case Err(_) => Err(InvalidMethod)
         case Ok(m) =>
           if |words| < 3 then Err(NoVersion)
           else
             var target := Target(words[1], false);
             Ok(RequestLine(m, target.0, Query.Parsed(target.1), words[2]))
  }

  method Parse(line: string) returns (r: Result<RequestLine, ParseError>)
    ensures r == Parsed(line)
  {
    var parts := SplitWhitespace(line);
    if |parts| < 1 {
      return Err(NoMethod);
    }
    var m := MethodFrom(parts[0]);
    if m.Err? {
      return Err(InvalidMethod);
    }
    if |parts| < 2 {
      return Err(NoVersion);
    }
    var path, rawQuery := ReadTarget(parts[1]);
    var query := Query.FromBody(rawQuery);
    if |parts| < 3 {
      return Err(NoVersion);
    }
    return Ok(RequestLine(m.value, path, query, parts[2]));
  }

  /** A method parses back from its name, except for the wildcard `ANY`, which no request can have. */
  lemma MethodRoundTrip(m: Method)
    ensures MethodFrom(Name(m)) == if m == ANY then Err(()) else Ok(m)
  {
    NameIsUppercase(m);
    UppercaseFixed(Name(m));
  }

  lemma NameIsUppercase(m: Method)
    ensures forall i :: 0 <= i < |Name(m)| ==> 'A' <= Name(m)[i] <= 'Z'
  {
  }

  lemma {:induction false} UppercaseFixed(s: string)
    requires forall i :: 0 <= i < |s| ==> 'A' <= s[i] <= 'Z'
    ensures Uppercase(s) == s
  {
    if s != "" {
      UppercaseFixed(s[1..]);
    }
  }

  predicate Ascii(s: string) {
    forall i :: 0 <= i < |s| ==> s[i] as int < 128
  }

  lemma {:induction false} UppercaseAscii(s: string)
    requires Ascii(s)
    ensures |Uppercase(s)| == |s|
    ensures forall i :: 0 <= i < |s| ==> [Uppercase(s)[i]] == Upper(s[i])
  {
    if s != "" {
      UppercaseAscii(s[1..]);
      assert |Upper(s[0])| == 1;
      forall i | 0 <= i < |s| ensures [Uppercase(s)[i]] == Upper(s[i]) {
        if i > 0 {
          assert s[i] == s[1..][i - 1];
        }
      }
    }
  }

  lemma SameUppercase(s: string, name: string)
    requires Ascii(s) && forall i :: 0 <= i < |name| ==> 'A' <= name[i] <= 'Z'
    ensures Uppercase(s) == name <==> Header.SameLetters(s, name)
  {
    UppercaseAscii(s);
    if Uppercase(s) == name {
      forall i | 0 <= i < |s| ensures Header.SameLetter(s[i], name[i]) {
        assert [Uppercase(s)[i]] == Upper(s[i]);
      }
    }
    if Header.SameLetters(s, name) {
      forall i | 0 <= i < |s| ensures Uppercase(s)[i] == name[i] {
        assert [Uppercase(s)[i]] == Upper(s[i]);
        assert Header.SameLetter(s[i], name[i]);
      }
    }
  }

  /** An ASCII word is read as a method exactly if it is the method's name in some letter case. */
  lemma MethodAnyCase(s: string, m: Method)
    requires Ascii(s)
    ensures MethodFrom(s) == Ok(m) <==> m != ANY && Header.SameLetters(s, Name(m))
  {
    NameIsUppercase(m);
    SameUppercase(s, Name(m));
    MethodNamed(s, m);
  }

  lemma MethodNamed(s: string, m: Method)
    ensures MethodFrom(s) == Ok(m) <==> m != ANY && Uppercase(s) == Name(m)
  {
  }

  lemma NeverAny(line: string)
    ensures Parsed(line).Ok? ==> Parsed(line).value.verb != ANY
  {
  }

  // ---- Collapsing slashes

  /** No backslash, no question mark and no two slashes in a row (or at the front, after a slash). */
  predicate Plain(s: string, slash: bool) {
    s == "" || if s[0] == '/' then !slash && Plain(s[1..], true)
               else s[0] != '\\' && s[0] != '?' && Plain(s[1..], false)
  }

  lemma {:induction false} TargetIsPlain(s: string, slash: bool)
    ensures Plain(Target(s, slash).0, slash)
  {
    if s != "" && s[0] != '?' {
      var isSlash := s[0] == '/' || s[0] == '\\';
      TargetIsPlain(s[1..], isSlash);
      if !(isSlash && slash) {
        assert Target(s, slash).0[1..] == Target(s[1..], isSlash).0;
      }
    }
  }

  /** A plain path, alone or before a query, is read back unchanged. */
  lemma {:induction false} PlainIsKept(path: string, slash: bool, query: string)
    requires Plain(path, slash)
    ensures Target(path, slash) == (path, "")
    ensures Target(path + "?" + query, slash) == (path, query)
  {
    var s := path + "?" + query;
    if path == "" {
      assert s[1..] == query;
    } else {
      PlainIsKept(path[1..], path[0] == '/', query);
      assert path == [path[0]] + path[1..];
      assert s[1..] == path[1..] + "?" + query;
    }
  }

  /** Two slashes of either kind are read as one forward slash, and so is a single one. */
  lemma {:induction false} SlashesAreOne(before: string, c: char, d: char, after: string, slash: bool)
    requires c in {'/', '\\'} && d in {'/', '\\'} && '?' !in before
    ensures Target(before + [c, d] + after, slash) == Target(before + ['/'] + after, slash)
    ensures Target(before + [c] + after, slash) == Target(before + ['/'] + after, slash)
  {
    if before == "" {
      TwoSlashes(c, d, after, slash);
      assert "" + [c, d] == [c, d] && "" + [c] == [c] && "" + ['/'] == ['/'];
    } else {
      var isSlash := before[0] == '/' || before[0] == '\\';
      SlashesAreOne(before[1..], c, d, after, isSlash);
      TargetCons(before, [c, d], after, slash);
      TargetCons(before, [c], after, slash);
      TargetCons(before, ['/'], after, slash);
    }
  }

  lemma TwoSlashes(c: char, d: char, after: string, slash: bool)
    requires c in {'/', '\\'} && d in {'/', '\\'}
    ensures Target([c, d] + after, slash) == Target(['/'] + after, slash) == Target([c] + after, slash)
  {
    assert ([c, d] + after)[1..] == [d] + after && ([d] + after)[1..] == after;
    assert (['/'] + after)[1..] == after && ([c] + after)[1..] == after;
  }

  lemma TargetCons(before: string, mid: string, after: string, slash: bool)
    requires before != "" && before[0] != '?'
    ensures var isSlash := before[0] == '/' || before[0] == '\\';
            var rest := Target(before[1..] + mid + after, isSlash);
            Target(before + mid + after, slash) ==
            if isSlash && slash then rest else ([if isSlash then '/' else before[0]] + rest.0, rest.1)
  {
    assert (before + mid + after)[1..] == before[1..] + mid + after;
  }

  // ---- From a route and its parameters to a request line and back

  /**
    One segment of a route: fixed text, a named parameter and the value a client puts there, `*` and what
    stands there, or `**` and one or more segments.
   */
  datatype Segment =
    | Literal(text: string) | Parameter(name: string, value: string) | Star(text: string) | Rest(texts: seq<string>)

  /** A piece of a path that is read as it stands. */
  predicate ValidText(text: string) {
    text != "" && Free(text, {'/', '\\', '?'}) && NoWhitespace(text)
  }

  predicate ValidSegment(seg: Segment) {
    match seg
    case Literal(text) => ValidText(text) && Path.Printable(Path.Normal(text))
    case Parameter(name, value) => Free(name, {'/'}) && value != "" && Url.Latin1(value)
    case Star(text) => ValidText(text)
    case Rest(texts) => texts != [] && forall t :: t in texts ==> ValidText(t)
  }

  predicate ValidRoute(route: seq<Segment>) {
    forall i :: 0 <= i < |route| ==> ValidSegment(route[i])
  }

  function PartOf(seg: Segment): Path.PathPart {
    match seg
    case Literal(text) => Path.Normal(text)
    case Parameter(name, _) => Path.Param(name)
    case Star(_) => Path.Any
    case Rest(_) => Path.AnyAfter
  }

  function TextsOf(seg: Segment): seq<string> {
    match seg
    case Literal(text) => [text]
    case Parameter(_, value) => [Url.Encoded(value)]
    case Star(text) => [text]
    case Rest(texts) => texts
  }

  function Parts(route: seq<Segment>): seq<Path.PathPart> {
    seq(|route|, i requires 0 <= i < |route| => PartOf(route[i]))
  }

  function PathSegments(route: seq<Segment>): seq<string> {
    if route == [] then [] else TextsOf(route[0]) + PathSegments(route[1..])
  }

  function Pattern(route: seq<Segment>): string {
    Path.PatternText(Parts(route))
  }

  function PathText(route: seq<Segment>): string {
    "/" + Join(PathSegments(route), "/")
  }

  /** The values that a match returns: those before the first `**`. */
  function Values(route: seq<Segment>): Path.Params {
    if route == [] || route[0].Rest? then []
    else if route[0].Parameter? then [(route[0].name, route[0].value)] + Values(route[1..])
    else Values(route[1..])
  }

  function RenderTarget(route: seq<Segment>, pairs: Query.Pairs): string {
    if pairs == [] then PathText(route) else PathText(route) + "?" + Query.Render(pairs)
  }

  function Render(m: Method, route: seq<Segment>, pairs: Query.Pairs): string {
    Name(m) + " " + RenderTarget(route, pairs) + " " + "HTTP/1.1" + "\r\n"
  }

  lemma ValidTexts(seg: Segment)
    requires ValidSegment(seg)
    ensures TextsOf(seg) != [] && forall t :: t in TextsOf(seg) ==> ValidText(t)
  {
    if seg.Parameter? {
      Url.EncodeIsPercentEncoded(seg.value);
    }
  }

  lemma {:induction false} ValidPath(route: seq<Segment>)
    requires ValidRoute(route)
    ensures forall t :: t in PathSegments(route) ==> ValidText(t)
    ensures route != [] ==> PathSegments(route) != []
    ensures Path.Solid(PathSegments(route))
  {
    if route != [] {
      ValidTexts(route[0]);
      ValidPath(route[1..]);
    }
    TextsAreSolid(PathSegments(route));
  }

  lemma TextsAreSolid(texts: seq<string>)
    requires forall t :: t in texts ==> ValidText(t)
    ensures Path.Solid(texts)
  {
    forall t | t in texts ensures Free(t, {'/'}) {
      assert ValidText(t);
    }
    if texts != [] {
      assert texts[0] in texts && texts[|texts| - 1] in texts;
    }
  }

  lemma ValidPattern(route: seq<Segment>)
    requires ValidRoute(route) && route != []
    ensures Path.Tokenized(Pattern(route)).parts == Parts(route)
  {
    forall i | 0 <= i < |route|
      ensures Path.Printable(PartOf(route[i])) && Path.PartText(PartOf(route[i])) != ""
      ensures Free(Path.PartText(PartOf(route[i])), {'/'})
    {
      assert ValidSegment(route[i]);
      Path.PartTextFree(PartOf(route[i]));
    }
    Path.TokenizePattern(Parts(route));
  }

  lemma {:induction false} PlainSegment(s: string, slash: bool, rest: string)
    requires Free(s, {'/', '\\', '?'}) && s != "" && Plain(rest, false)
    ensures Plain(s + rest, slash)
  {
    assert (s + rest)[1..] == s[1..] + rest;
    if |s| > 1 {
      PlainSegment(s[1..], false, rest);
    } else {
      assert s[1..] + rest == rest;
    }
  }

  lemma {:induction false} PlainJoin(texts: seq<string>, slash: bool)
    requires forall t :: t in texts ==> ValidText(t)
    ensures Plain(Join(texts, "/"), slash)
  {
    if texts != [] {
      var first, rest := texts[0], texts[1..];
      assert ValidText(first);
      PlainJoin(rest, true);
      if rest == [] {
        PlainSegment(first, slash, "");
        assert first + "" == first;
      } else {
        var tail := "/" + Join(rest, "/");
        assert tail[1..] == Join(rest, "/");
        PlainSegment(first, slash, tail);
        assert first + "/" + Join(rest, "/") == first + tail;
      }
    }
  }

  lemma {:induction false} NoWhitespaceJoin(parts: seq<string>, sep: string)
    requires NoWhitespace(sep) && forall p :: p in parts ==> NoWhitespace(p)
    ensures NoWhitespace(Join(parts, sep))
  {
    if |parts| > 0 {
      assert parts[0] in parts;
      if |parts| > 1 {
        NoWhitespaceJoin(parts[1..], sep);
      }
    }
  }

  lemma TargetNoWhitespace(route: seq<Segment>, pairs: Query.Pairs)
    requires ValidRoute(route)
    ensures NoWhitespace(RenderTarget(route, pairs))
  {
    ValidPath(route);
    NoWhitespaceJoin(PathSegments(route), "/");
    forall p | p in Query.RenderedParts(pairs) ensures NoWhitespace(p) {
      var i :| 0 <= i < |pairs| && p == Query.RenderPair(pairs[i]);
      Query.RenderedPairPlain(pairs[i]);
    }
    NoWhitespaceJoin(Query.RenderedParts(pairs), "&");
  }

  lemma LastWord(c: string)
    requires c != "" && NoWhitespace(c)
    ensures SplitWhitespace(c + "\r\n") == [c]
  {
    assert c + "\r\n" == c + ['\r'] + "\n";
    SplitWhitespaceCons(c, '\r', "\n");
    assert SplitWhitespace("\n") == [];
  }

  lemma WordsOfLine(a: string, b: string, c: string)
    requires a != "" && b != "" && c != "" && NoWhitespace(a) && NoWhitespace(b) && NoWhitespace(c)
    ensures SplitWhitespace(a + " " + b + " " + c + "\r\n") == [a, b, c]
  {
    var last := c + "\r\n";
    var line := b + [' '] + last;
    LastWord(c);
    SplitWhitespaceCons(b, ' ', last);
    SplitWhitespaceCons(a, ' ', line);
    assert a + " " + b + " " + c + "\r\n" == a + [' '] + line;
    assert [a] + ([b] + [c]) == [a, b, c];
  }

  lemma ParsedWords(line: string, a: string, b: string, c: string, m: Method)
    requires SplitWhitespace(line) == [a, b, c] && MethodFrom(a) == Ok(m)
    ensures Parsed(line) == Ok(RequestLine(m, Target(b, false).0, Query.Parsed(Target(b, false).1), c))
  {
  }

  lemma TargetRendered(route: seq<Segment>, pairs: Query.Pairs)
    requires ValidRoute(route)
    ensures Target(RenderTarget(route, pairs), false) == (PathText(route), Query.Render(pairs))
  {
    ValidPath(route);
    PlainJoin(PathSegments(route), true);
    assert PathText(route)[1..] == Join(PathSegments(route), "/");
    PlainIsKept(PathText(route), false, Query.Render(pairs));
  }

  lemma {:induction false} NoWords(s: string)
    ensures SplitWhitespace(s) == [] <==> forall k :: 0 <= k < |s| ==> IsWhitespace(s[k])
  {
    if s != "" {
      NoWords(s[1..]);
      assert s == [s[0]] + s[1..];
    }
  }

  /** A line of white space has no method. */
  lemma BlankLine(line: string)
    ensures Parsed(line) == Err(NoMethod) <==> forall k :: 0 <= k < |line| ==> IsWhitespace(line[k])
  {
    NoWords(line);
  }

  /** A line that ends after the method or the target has no version, and an unknown method comes first. */
  lemma ShortLine(a: string, b: string)
    requires a != "" && b != "" && NoWhitespace(a) && NoWhitespace(b)
    ensures Parsed(a + "\r\n") == Err(if MethodFrom(a).Ok? then NoVersion else InvalidMethod)
    ensures Parsed(a + " " + b + "\r\n") == Err(if MethodFrom(a).Ok? then NoVersion else InvalidMethod)
  {
    LastWord(a);
    LastWord(b);
    SplitWhitespaceCons(a, ' ', b + "\r\n");
    assert a + " " + b + "\r\n" == a + [' '] + (b + "\r\n");
  }

  lemma UnknownMethod(a: string, b: string, c: string)
    requires a != "" && b != "" && c != "" && NoWhitespace(a) && NoWhitespace(b) && NoWhitespace(c)
    ensures Parsed(a + " " + b + " " + c + "\r\n") == Err(InvalidMethod) <==> MethodFrom(a).Err?
  {
    WordsOfLine(a, b, c);
  }

  lemma NameIsWord(m: Method)
    ensures Name(m) != "" && NoWhitespace(Name(m))
  {
  }

  lemma ParseRender(m: Method, route: seq<Segment>, pairs: Query.Pairs)
    requires m != ANY && ValidRoute(route) && Query.Latin1(pairs)
    ensures Parsed(Render(m, route, pairs)) == Ok(RequestLine(m, PathText(route), pairs, "HTTP/1.1"))
  {
    var target := RenderTarget(route, pairs);
    NameIsWord(m);
    TargetNoWhitespace(route, pairs);
    WordsOfLine(Name(m), target, "HTTP/1.1");
    MethodRoundTrip(m);
    TargetRendered(route, pairs);
    ParsedWords(Render(m, route, pairs), Name(m), target, "HTTP/1.1", m);
    Query.RoundTrip(pairs);
  }

  lemma {:induction false} ValuesMatch(route: seq<Segment>)
    requires ValidRoute(route)
    ensures Path.Matched(Parts(route), PathSegments(route)) == Some(Values(route))
  {
    if route != [] {
      var seg, rest := route[0], route[1..];
      ValidTexts(seg);
      ValuesMatch(rest);
      assert Parts(route)[0] == PartOf(seg) && Parts(route)[1..] == Parts(rest);
      if !seg.Rest? {
        assert PathSegments(route)[0] == TextsOf(seg)[0] && PathSegments(route)[1..] == PathSegments(rest);
      }
      if seg.Parameter? {
        Url.RoundTrip(seg.value);
      }
    }
  }

  /** The pattern of a route matches its path, wildcards and all, with the values in order. */
  lemma MatchRendered(route: seq<Segment>)
    requires ValidRoute(route)
    ensures Path.MatchResult(Path.Tokenized(Pattern(route)), PathText(route)) == Some(Values(route))
  {
    ValidPath(route);
    Path.SegmentsOfJoin(PathSegments(route));
    if route == [] {
      Path.SegmentsOfJoin([]);
      var parts := Path.PartsOf([""]);
      assert parts == [Path.Normal("")];
      assert Path.Matched(parts[1..], [""][1..]) == Some([]);
    } else {
      ValidPattern(route);
      ValuesMatch(route);
    }
  }

  /**
    A client that fills a route's parameters and adds query pairs, all percent-encoded, is understood:
    the parsed request line has its method and pairs, and the route's pattern matches with its values.
   */
  lemma EndToEnd(m: Method, route: seq<Segment>, pairs: Query.Pairs)
    requires m != ANY && ValidRoute(route) && Query.Latin1(pairs)
    ensures var r := Parsed(Render(m, route, pairs));
            && r.Ok? && r.value.verb == m && r.value.query == pairs
            && Path.MatchResult(Path.Tokenized(Pattern(route)), r.value.path) == Some(Values(route))
  {
    ParseRender(m, route, pairs);
    MatchRendered(route);
  }
}
