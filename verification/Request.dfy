/** Reading a request from the bytes of a connection; a byte is the character of its code. */
module Request {
  import opened Wrappers
  import opened Text
  import opened Errors
  import Header
  import RequestLine
  import Path
  import Query
  import Url

  type ReadError = Error<()>

  /** `CapacityPanic` is the panic of `vec![0; n]` for more bytes than `isize::MAX`. */
  datatype Reading<T> = Read(value: T) | Failed(error: ReadError) | CapacityPanic

  const ISIZE_LIMIT: nat := 0x8000_0000_0000_0000

  datatype Cookie = Cookie(name: string, value: string)

  datatype Message = Message(headers: seq<Header.Header>, cookies: seq<Cookie>, body: string)

  datatype Request = Request(line: RequestLine.RequestLine, message: Message)

  /** What `read_until` a line feed returns: up to and including it, or everything. */
  function FirstLine(s: string): (line: string)
    ensures line <= s && (s != "" ==> line != "")
  {
    var i := IndexOf(s, {'\n'});
    if i == |s| then s else s[..i + 1]
  }

  function AfterFirstLine(s: string): (rest: string)
    ensures s == FirstLine(s) + rest
  {
    s[|FirstLine(s)|..]
  }

  function CookiesIn(pieces: seq<string>): seq<Cookie> {
    if pieces == [] then []
    else match SplitOnce(pieces[0], '=')
         case None => CookiesIn(pieces[1..])
         case Some((name, value)) =>
           [Cookie(Query.DecodeOrKeep(Trim(name)), Query.DecodeOrKeep(Trim(value)))] + CookiesIn(pieces[1..])
  }

  /** `Cookie::from_string` */
  function CookiesFrom(value: string): seq<Cookie> {
    CookiesIn(Split(value, {';'}))
  }

  lemma CookiesStep(out: seq<Cookie>, pieces: seq<string>, i: nat)
    requires i < |pieces|
    ensures out + CookiesIn(pieces[i..]) ==
            (match SplitOnce(pieces[i], '=')
             case None => out
             case Some((name, value)) =>
               out + [Cookie(Query.DecodeOrKeep(Trim(name)), Query.DecodeOrKeep(Trim(value)))])
            + CookiesIn(pieces[i + 1..])
  {
    assert pieces[i..][0] == pieces[i] && pieces[i..][1..] == pieces[i + 1..];
  }

  method ParseCookies(value: string) returns (out: seq<Cookie>)
    ensures out == CookiesFrom(value)
  {
    out := [];
    var pieces := Split(value, {';'});
    assert pieces[0..] == pieces;
    for i := 0 to |pieces|
      invariant out + CookiesIn(pieces[i..]) == CookiesIn(pieces)
    {
      CookiesStep(out, pieces, i);
      var pair := SplitOnce(pieces[i], '=');
      if pair.None? {
        continue;
      }
      var name, value := Trim(pair.value.0), Trim(pair.value.1);
      out := out + [Cookie(Query.DecodeOrKeep(name), Query.DecodeOrKeep(value))];
    }
    assert out + [] == out;
  }

  /** What the header loop has read, and the rest of the input. */
  datatype Head = Head(headers: seq<Header.Header>, cookies: seq<Cookie>, rest: string)

  function AddHeader(h: Header.Header, head: Head): Head {
    if h.name == Header.Cookie then head.(cookies := CookiesFrom(h.value) + head.cookies)
    else head.(headers := [h] + head.headers)
  }

  function Added(h: Header.Header, rest: Result<Head, ReadError>): Result<Head, ReadError> {
    match rest
    case Err(e) => Err(e)
    case Ok(head) => Ok(AddHeader(h, head))
  }

  /** The header on a line, which is taken to end in two characters of line break. */
  function HeaderOn(line: string): Option<Header.Header>
    requires |line| > 2
  {
    Header.FromString(line[..|line| - 2])
  }

  function Headers(input: string): Result<Head, ReadError>
    decreases |input|
  {
    var line := FirstLine(input);
    if |line| <= 2 then Ok(Head([], [], AfterFirstLine(input)))
    else
      match HeaderOn(line)
      case None => Err(Parse(InvalidHeader))
      case Some(h) => Added(h, Headers(AfterFirstLine(input)))
  }

  function ContentLength(headers: seq<Header.Header>): nat {
    match Header.Find(headers, Header.ContentLength)
    case None => 0
    case Some(h) =>
      match ParseUnsigned(h.value, U64_LIMIT)
      case None => 0
      case Some(n) => n
  }

  /** The headers up to an empty line, and then as many bytes as they announce. */
  function MessageIn(input: string): Reading<Message> {
    match Headers(input)
    case Err(e) => Failed(e)
    case Ok(Head(headers, cookies, rest)) =>
      var n := ContentLength(headers);
      if n >= ISIZE_LIMIT then CapacityPanic
      else if n > |rest| then Failed(Stream(UnexpectedEof))
      else Read(Message(headers, cookies, rest[..n]))
  }

  function RequestIn(input: string): Reading<Request> {
    match RequestLine.Parsed(FirstLine(input))
    case Err(e) => Failed(Parse(e))
    case Ok(line) =>
      match MessageIn(AfterFirstLine(input))
      case Failed(e) => Failed(e)
      case CapacityPanic => CapacityPanic
      case Read(message) => Read(Request(line, message))
  }

  function Joined(headers: seq<Header.Header>, cookies: seq<Cookie>, rest: Result<Head, ReadError>)
    : Result<Head, ReadError>
  {
    match rest
    case Err(e) => Err(e)
    case Ok(head) => Ok(Head(headers + head.headers, cookies + head.cookies, head.rest))
  }

  lemma JoinedAdded(headers: seq<Header.Header>, cookies: seq<Cookie>, h: Header.Header, rest: Result<Head, ReadError>)
    ensures Joined(headers, cookies, Added(h, rest)) ==
            if h.name == Header.Cookie then Joined(headers, cookies + CookiesFrom(h.value), rest)
            else Joined(headers + [h], cookies, rest)
  {
    if rest.Ok? {
      var more := CookiesFrom(h.value);
      assert headers + ([h] + rest.value.headers) == (headers + [h]) + rest.value.headers;
      assert cookies + (more + rest.value.cookies) == (cookies + more) + rest.value.cookies;
    }
  }

  lemma JoinedStep(headers: seq<Header.Header>, cookies: seq<Cookie>, reader: string)
    requires |FirstLine(reader)| > 2
    ensures var rest := Headers(AfterFirstLine(reader));
            var header := HeaderOn(FirstLine(reader));
            Joined(headers, cookies, Headers(reader)) ==
            if header.None? then Err(Parse(InvalidHeader))
            else if header.value.name == Header.Cookie then
              Joined(headers, cookies + CookiesFrom(header.value.value), rest)
            else Joined(headers + [header.value], cookies, rest)
  {
    if HeaderOn(FirstLine(reader)).Some? {
      JoinedAdded(headers, cookies, HeaderOn(FirstLine(reader)).value, Headers(AfterFirstLine(reader)));
    }
  }

  lemma JoinedEnds(input: string, headers: seq<Header.Header>, cookies: seq<Cookie>, reader: string)
    ensures Joined([], [], Headers(input)) == Headers(input)
    ensures |FirstLine(reader)| <= 2 ==>
            Joined(headers, cookies, Headers(reader)) == Ok(Head(headers, cookies, AfterFirstLine(reader)))
  {
    var r := Headers(input);
    if r.Ok? {
      assert [] + r.value.headers == r.value.headers && [] + r.value.cookies == r.value.cookies;
    }
    assert headers + [] == headers && cookies + [] == cookies;
  }

  method ReadHeaders(input: string) returns (r: Result<Head, ReadError>)
    ensures r == Headers(input)
  {
    var headers: seq<Header.Header>, cookies: seq<Cookie>, reader := [], [], input;
    JoinedEnds(input, [], [], "");
    while true
      invariant Joined(headers, cookies, Headers(reader)) == Headers(input)
      decreases |reader|
    {
      var line := FirstLine(reader);
      if |line| <= 2 {
        break;
      }
      JoinedStep(headers, cookies, reader);
      var header := HeaderOn(line);
      if header.None? {
        return Err(Parse(InvalidHeader));
      }
      reader := AfterFirstLine(reader);
      if header.value.name != Header.Cookie {
        headers := headers + [header.value];
        continue;
      }
      var more := ParseCookies(header.value.value);
      cookies := cookies + more;
    }
    JoinedEnds(input, headers, cookies, reader);
    return Ok(Head(headers, cookies, AfterFirstLine(reader)));
  }

  method FromSocket(input: string) returns (r: Reading<Request>)
    ensures r == RequestIn(input)
  {
    var line := RequestLine.Parse(FirstLine(input));
    if line.Err? {
      return Failed(Parse(line.error));
    }
    var head := ReadHeaders(AfterFirstLine(input));
    if head.Err? {
      return Failed(head.error);
    }
    var Head(headers, cookies, reader) := head.value;
    var length := ContentLength(headers);
    if length >= ISIZE_LIMIT {
      return CapacityPanic;
    }
    var body := "";
    if length > 0 {
      if length > |reader| {
        return Failed(Stream(UnexpectedEof));
      }
      body := reader[..length];
    }
    return Read(Request(line.value, Message(headers, cookies, body)));
  }

  // ---- Reading back what was written

  /** One line for each header, each ended by CR LF. */
  function Block(headers: seq<Header.Header>): string {
    if headers == [] then "" else Header.ToString(headers[0]) + "\r\n" + Block(headers[1..])
  }

  predicate Sendable(headers: seq<Header.Header>) {
    forall i :: 0 <= i < |headers| ==> Header.Writable(headers[i]) && headers[i].name != Header.Cookie
  }

  lemma FirstLineOf(p: string, rest: string)
    requires '\n' !in p
    ensures FirstLine(p + "\r\n" + rest) == p + "\r\n"
    ensures AfterFirstLine(p + "\r\n" + rest) == rest
  {
    var s := (p + ['\r']) + ['\n'] + rest;
    assert p + "\r\n" + rest == s;
    IndexOfAppend(p + ['\r'], '\n', rest, {'\n'});
    assert s[..|p| + 2] == p + "\r\n";
  }

  lemma HeaderLine(h: Header.Header)
    requires Header.Writable(h)
    ensures '\n' !in Header.ToString(h) && |Header.ToString(h)| >= 2
  {
  }

  lemma HeaderLineRead(h: Header.Header, later: string)
    requires Header.Writable(h)
    ensures var s := Header.ToString(h) + "\r\n" + later;
            && |FirstLine(s)| > 2 && HeaderOn(FirstLine(s)) == Some(h) && AfterFirstLine(s) == later
  {
    var line := Header.ToString(h);
    HeaderLine(h);
    FirstLineOf(line, later);
    assert (line + "\r\n")[..|line + "\r\n"| - 2] == line;
    Header.LineRoundTrip(h);
  }

  lemma HeaderThen(h: Header.Header, later: string)
    requires Header.Writable(h)
    ensures Headers(Header.ToString(h) + "\r\n" + later) == Added(h, Headers(later))
  {
    HeaderLineRead(h, later);
  }

  lemma AddedJoined(h: Header.Header, tail: seq<Header.Header>, rest: Result<Head, ReadError>)
    requires h.name != Header.Cookie
    ensures Added(h, Joined(tail, [], rest)) == Joined([h] + tail, [], rest)
  {
    if rest.Ok? {
      assert [h] + (tail + rest.value.headers) == ([h] + tail) + rest.value.headers;
    }
  }

  lemma BlockCons(h: Header.Header, tail: seq<Header.Header>, later: string)
    ensures Block([h] + tail) + later == Header.ToString(h) + "\r\n" + (Block(tail) + later)
  {
    var line, more := Header.ToString(h), Block(tail);
    assert ([h] + tail)[1..] == tail;
    assert (line + "\r\n" + more) + later == line + "\r\n" + (more + later);
  }

  lemma EmptyLine(rest: string)
    ensures Headers("\r\n" + rest) == Ok(Head([], [], rest))
  {
    assert "\r\n" + rest == "" + "\r\n" + rest;
    FirstLineOf("", rest);
  }

  lemma JoinedNothing(r: Result<Head, ReadError>)
    ensures Joined([], [], r) == r
  {
    if r.Ok? {
      assert [] + r.value.headers == r.value.headers && [] + r.value.cookies == r.value.cookies;
    }
  }

  lemma {:induction false} BlockStep(h: Header.Header, tail: seq<Header.Header>, later: string)
    requires Header.Writable(h) && h.name != Header.Cookie
    requires Headers(Block(tail) + later) == Joined(tail, [], Headers(later))
    ensures Headers(Block([h] + tail) + later) == Joined([h] + tail, [], Headers(later))
  {
    BlockCons(h, tail, later);
    HeaderThen(h, Block(tail) + later);
    AddedJoined(h, tail, Headers(later));
  }

  /** A written block adds its headers, in order, to whatever follows it. */
  lemma {:induction false} BlockThen(headers: seq<Header.Header>, later: string)
    requires Sendable(headers)
    ensures Headers(Block(headers) + later) == Joined(headers, [], Headers(later))
  {
    if headers == [] {
      assert Block(headers) + later == later;
      JoinedNothing(Headers(later));
    } else {
      BlockThen(headers[1..], later);
      BlockStep(headers[0], headers[1..], later);
      assert headers == [headers[0]] + headers[1..];
    }
  }

  lemma JoinedEmpty(headers: seq<Header.Header>, rest: string)
    ensures Joined(headers, [], Ok(Head([], [], rest))) == Ok(Head(headers, [], rest))
  {
    var none: seq<Cookie> := [];
    assert headers + [] == headers && none + [] == none;
  }

  lemma HeadersOfBlock(headers: seq<Header.Header>, rest: string)
    requires Sendable(headers)
    ensures Headers(Block(headers) + "\r\n" + rest) == Ok(Head(headers, [], rest))
  {
    var later := "\r\n" + rest;
    EmptyLine(rest);
    JoinedEmpty(headers, rest);
    BlockThen(headers, later);
    Regroup(Block(headers), "\r\n", rest);
  }

  /** A line without a colon among the headers fails the request, wherever it stands. */
  lemma BadLine(headers: seq<Header.Header>, line: string, rest: string)
    requires Sendable(headers) && line != "" && ':' !in line && '\n' !in line
    ensures MessageIn(Block(headers) + (line + "\r\n" + rest)) == Failed(Parse(InvalidHeader))
  {
    BlockThen(headers, line + "\r\n" + rest);
    FirstLineOf(line, rest);
    assert (line + "\r\n")[..|line + "\r\n"| - 2] == line;
  }

  /** The reader takes as much of the rest as the first `Content-Length` says, or it is too much. */
  lemma MessageOfBlock(headers: seq<Header.Header>, rest: string)
    requires Sendable(headers)
    ensures MessageIn(Block(headers) + "\r\n" + rest) ==
            if ContentLength(headers) >= ISIZE_LIMIT then CapacityPanic
            else if ContentLength(headers) > |rest| then Failed(Stream(UnexpectedEof))
            else Read(Message(headers, [], rest[..ContentLength(headers)]))
  {
    HeadersOfBlock(headers, rest);
  }

  lemma NoLineFeed(s: string)
    requires NoWhitespace(s)
    ensures '\n' !in s
  {
  }

  // ---- Cookies

  function EncodedPair(c: Cookie): (string, string) {
    (Url.Encoded(c.name), Url.Encoded(c.value))
  }

  function EncodedPairs(cookies: seq<Cookie>): seq<(string, string)> {
    seq(|cookies|, i requires 0 <= i < |cookies| => EncodedPair(cookies[i]))
  }

  /** The value of a `Cookie` header: percent-encoded pairs. */
  function CookieText(cookies: seq<Cookie>): string {
    if cookies == [] then ""
    else
      var (name, value) := EncodedPair(cookies[0]);
      name + "=" + value + Header.RenderParams(EncodedPairs(cookies[1..]))
  }

  function CookieLine(cookies: seq<Cookie>): string {
    if cookies == [] then "" else "Cookie: " + CookieText(cookies) + "\r\n"
  }

  function LowCookies(cookies: seq<Cookie>): seq<Cookie> {
    seq(|cookies|, i requires 0 <= i < |cookies| =>
      Cookie(Url.LowBytes(cookies[i].name), Url.LowBytes(cookies[i].value)))
  }

  predicate Latin1(cookies: seq<Cookie>) {
    forall i :: 0 <= i < |cookies| ==> Url.Latin1(cookies[i].name) && Url.Latin1(cookies[i].value)
  }

  lemma EncodedIsParam(s: string)
    ensures NoWhitespace(Url.Encoded(s)) && Free(Url.Encoded(s), {';', '='}) && Trimmed(Url.Encoded(s))
  {
    Url.EncodeIsPercentEncoded(s);
    Url.EncodedPlain(s);
  }

  lemma {:induction false} CookieCons(piece: string, rest: seq<string>, key: string, value: string, c: Cookie)
    requires SplitOnce(piece, '=') == Some((key, value))
    requires Trim(key) == Url.Encoded(c.name) && Trim(value) == Url.Encoded(c.value)
    ensures CookiesIn([piece] + rest) == [Cookie(Url.LowBytes(c.name), Url.LowBytes(c.value))] + CookiesIn(rest)
  {
    assert ([piece] + rest)[1..] == rest;
    Url.DecodeEncode(c.name);
    Url.DecodeEncode(c.value);
  }

  lemma EncodedParam(c: Cookie)
    ensures Header.PlainParam(EncodedPair(c))
  {
    EncodedIsParam(c.name);
    EncodedIsParam(c.value);
  }

  lemma LowCookiesCons(cookies: seq<Cookie>)
    requires cookies != []
    ensures EncodedPairs(cookies) == [EncodedPair(cookies[0])] + EncodedPairs(cookies[1..])
    ensures LowCookies(cookies) ==
            [Cookie(Url.LowBytes(cookies[0].name), Url.LowBytes(cookies[0].value))] + LowCookies(cookies[1..])
  {
  }

  lemma OneCookie(c: Cookie, rest: seq<string>)
    ensures CookiesIn([Header.PieceOf(EncodedPair(c))] + rest) ==
            [Cookie(Url.LowBytes(c.name), Url.LowBytes(c.value))] + CookiesIn(rest)
  {
    var pair := EncodedPair(c);
    EncodedParam(c);
    Header.PieceIsRead(pair);
    CookieCons(Header.PieceOf(pair), rest, " " + pair.0, pair.1, c);
  }

  lemma {:induction false} LaterCookies(cookies: seq<Cookie>)
    ensures CookiesIn(Header.PiecesOf(EncodedPairs(cookies))) == LowCookies(cookies)
  {
    if cookies != [] {
      LowCookiesCons(cookies);
      LaterCookies(cookies[1..]);
      OneCookie(cookies[0], Header.PiecesOf(EncodedPairs(cookies[1..])));
      assert EncodedPairs(cookies)[1..] == EncodedPairs(cookies[1..]);
    }
  }

  lemma FirstCookie(c: Cookie, rest: seq<string>)
    ensures var (name, value) := EncodedPair(c);
            Free(name + "=" + value, {';'}) &&
            CookiesIn([name + "=" + value] + rest) ==
            [Cookie(Url.LowBytes(c.name), Url.LowBytes(c.value))] + CookiesIn(rest)
  {
    var (name, value) := EncodedPair(c);
    EncodedParam(c);
    FreeAppend(name, "=", {';'});
    FreeAppend(name + "=", value, {';'});
    TrimTrimmed(name);
    TrimTrimmed(value);
    SplitOnceAt(name, '=', value);
    CookieCons(name + "=" + value, rest, name, value, c);
  }

  lemma PairsArePlain(cookies: seq<Cookie>)
    ensures Header.PlainParams(EncodedPairs(cookies))
  {
    forall i | 0 <= i < |cookies| ensures Header.PlainParam(EncodedPairs(cookies)[i]) {
      EncodedParam(cookies[i]);
    }
  }

  /** The cookies of a header come back in order, each with its name and its value as low bytes. */
  lemma CookiesRead(cookies: seq<Cookie>)
    ensures CookiesFrom(CookieText(cookies)) == LowCookies(cookies)
  {
    if cookies == [] {
      SplitOne("", {';'});
    } else {
      var (name, value) := EncodedPair(cookies[0]);
      var later := EncodedPairs(cookies[1..]);
      FirstCookie(cookies[0], Header.PiecesOf(later));
      PairsArePlain(cookies[1..]);
      Header.SplitParams(name + "=" + value, later);
      LaterCookies(cookies[1..]);
      LowCookiesCons(cookies);
    }
  }

  /** They come back unchanged exactly if they are Latin-1. */
  lemma CookiesRoundTrip(cookies: seq<Cookie>)
    ensures CookiesFrom(CookieText(cookies)) == cookies <==> Latin1(cookies)
  {
    CookiesRead(cookies);
    forall i | 0 <= i < |cookies|
      ensures LowCookies(cookies)[i] == cookies[i] <==> Url.Latin1(cookies[i].name) && Url.Latin1(cookies[i].value)
    {
      Url.LowBytesKeep(cookies[i].name);
      Url.LowBytesKeep(cookies[i].value);
    }
  }

  /** No line feed, and no white space at either end. */
  predicate LineText(s: string) {
    '\n' !in s && (s != "" ==> !IsWhitespace(s[0]) && !IsWhitespace(s[|s| - 1]))
  }

  lemma {:induction false} ParamsAreText(first: string, params: seq<(string, string)>)
    requires LineText(first) && first != ""
    requires forall i :: 0 <= i < |params| ==> NoWhitespace(params[i].0) && NoWhitespace(params[i].1)
    ensures LineText(first + Header.RenderParams(params))
    decreases |params|
  {
    if params == [] {
      assert first + "" == first;
    } else {
      var (key, value) := params[0];
      var longer := first + ("; " + key + "=" + value);
      assert longer[0] == first[0];
      assert longer[|longer| - 1] == if value == "" then '=' else value[|value| - 1];
      NoLineFeed(key);
      NoLineFeed(value);
      ParamsAreText(longer, params[1..]);
      Regroup(first, "; " + key + "=" + value, Header.RenderParams(params[1..]));
    }
  }

  lemma CookieTextIsLine(cookies: seq<Cookie>)
    requires cookies != []
    ensures LineText(CookieText(cookies))
  {
    var (name, value) := EncodedPair(cookies[0]);
    EncodedIsParam(cookies[0].name);
    EncodedIsParam(cookies[0].value);
    NoLineFeed(name);
    NoLineFeed(value);
    var first := name + "=" + value;
    assert first[0] == if name == "" then '=' else name[0];
    assert first[|first| - 1] == if value == "" then '=' else value[|value| - 1];
    forall i | 0 <= i < |cookies[1..]|
      ensures NoWhitespace(EncodedPairs(cookies[1..])[i].0) && NoWhitespace(EncodedPairs(cookies[1..])[i].1)
    {
      EncodedIsParam(cookies[1..][i].name);
      EncodedIsParam(cookies[1..][i].value);
    }
    ParamsAreText(first, EncodedPairs(cookies[1..]));
  }

  lemma AddedCookies(h: Header.Header, rest: Result<Head, ReadError>)
    requires h.name == Header.Cookie
    ensures Added(h, rest) == Joined([], CookiesFrom(h.value), rest)
  {
    if rest.Ok? {
      assert [] + rest.value.headers == rest.value.headers;
    }
  }

  lemma CookieHeader(value: string)
    requires LineText(value)
    ensures var h := Header.Header(Header.Cookie, value);
            Header.Writable(h) && Header.ToString(h) == "Cookie: " + value
  {
    Header.KnownIsWritable(Header.Cookie);
  }

  /** A cookie line adds its cookies to what follows it. */
  lemma CookieThen(cookies: seq<Cookie>, later: string)
    requires Latin1(cookies)
    ensures Headers(CookieLine(cookies) + later) == Joined([], cookies, Headers(later))
  {
    if cookies == [] {
      assert CookieLine(cookies) + later == later;
      JoinedNothing(Headers(later));
    } else {
      var h := Header.Header(Header.Cookie, CookieText(cookies));
      CookieTextIsLine(cookies);
      CookieHeader(CookieText(cookies));
      HeaderThen(h, later);
      CookiesRoundTrip(cookies);
      AddedCookies(h, Headers(later));
    }
  }

  /** A block of headers, a line of cookies, and a body of the announced length. */
  lemma MessageOfWhole(headers: seq<Header.Header>, cookies: seq<Cookie>, body: string)
    requires Sendable(headers) && Latin1(cookies) && ContentLength(headers) == |body|
    ensures MessageIn(Block(headers) + (CookieLine(cookies) + ("\r\n" + body))) ==
            if |body| < ISIZE_LIMIT then Read(Message(headers, cookies, body)) else CapacityPanic
  {
    var later := CookieLine(cookies) + ("\r\n" + body);
    BlockThen(headers, later);
    CookieThen(cookies, "\r\n" + body);
    EmptyLine(body);
    JoinedWhole(headers, cookies, body);
    assert body[..|body|] == body;
  }

  lemma JoinedWhole(headers: seq<Header.Header>, cookies: seq<Cookie>, rest: string)
    ensures Joined(headers, [], Joined([], cookies, Ok(Head([], [], rest)))) == Ok(Head(headers, cookies, rest))
  {
    var none: seq<Cookie>, empty: seq<Header.Header> := [], [];
    assert cookies + none == cookies && none + cookies == cookies;
    assert headers + empty == headers && empty + empty == empty;
  }

  // ---- A whole request

  lemma RequestLineRead(m: Method, route: seq<RequestLine.Segment>, pairs: Query.Pairs, rest: string)
    requires RequestLine.ValidRoute(route)
    ensures var line := RequestLine.Render(m, route, pairs);
            FirstLine(line + rest) == line && AfterFirstLine(line + rest) == rest
  {
    var name, target := RequestLine.Name(m), RequestLine.RenderTarget(route, pairs);
    RequestLine.TargetNoWhitespace(route, pairs);
    NoLineFeed(name);
    NoLineFeed(target);
    FirstLineOf(name + " " + target + " " + "HTTP/1.1", rest);
  }

  lemma RequestOfParts(line: string, rest: string, parsed: RequestLine.RequestLine)
    requires FirstLine(line + rest) == line && AfterFirstLine(line + rest) == rest
    requires RequestLine.Parsed(line) == Ok(parsed)
    ensures RequestIn(line + rest) ==
            match MessageIn(rest) {
              case Read(message) => Read(Request(parsed, message))
              case Failed(e) => Failed(e)
              case CapacityPanic => CapacityPanic
            }
  {
  }

  /** A whole request, as a client that percent-encodes writes it, is read back as sent if its body fits memory. */
  lemma RequestRoundTrip(m: Method, route: seq<RequestLine.Segment>, pairs: Query.Pairs,
                         headers: seq<Header.Header>, cookies: seq<Cookie>, body: string)
    requires m != ANY && RequestLine.ValidRoute(route) && Query.Latin1(pairs)
    requires Sendable(headers) && Latin1(cookies) && ContentLength(headers) == |body|
    ensures var message := Block(headers) + (CookieLine(cookies) + ("\r\n" + body));
            var r := RequestIn(RequestLine.Render(m, route, pairs) + message);
            && (r.Read? <==> |body| < ISIZE_LIMIT)
            && (r.Read? ==>
                  && r.value.message == Message(headers, cookies, body)
                  && r.value.line.verb == m && r.value.line.query == pairs
                  && Path.MatchResult(Path.Tokenized(RequestLine.Pattern(route)), r.value.line.path)
                     == Some(RequestLine.Values(route)))
  {
    var message := Block(headers) + (CookieLine(cookies) + ("\r\n" + body));
    RequestLineRead(m, route, pairs, message);
    RequestLine.EndToEnd(m, route, pairs);
    var line := RequestLine.Render(m, route, pairs);
    RequestOfParts(line, message, RequestLine.Parsed(line).value);
    MessageOfWhole(headers, cookies, body);
  }
}
