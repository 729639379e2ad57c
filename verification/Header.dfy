/** Header names, header lines, and the parameters inside a header value. */
module Header {
  import opened Wrappers
  import opened Text

  datatype HeaderType =
    | Accept | AcceptCharset | AcceptEncoding | AcceptLanguage | Connection | ContentEncoding
    | ContentLength | ContentType | Cookie | Date | Host | Location | Referer | Server | SetCookie
    | TransferEncoding | Upgrade | UserAgent | Via | XForwardedFor | Custom(name: string)

  datatype Header = Header(name: HeaderType, value: string)

  function LowerChar(c: char): char {
    if 'A' <= c <= 'Z' then (c as int + 32) as char else c
  }

  /** `to_ascii_lowercase` */
  function Lower(s: string): string {
    seq(|s|, i requires 0 <= i < |s| => LowerChar(s[i]))
  }

  function KnownType(lower: string): Option<HeaderType> {
    if lower == "accept" then Some(Accept)
    else if lower == "accept-charset" then Some(AcceptCharset)
    else if lower == "accept-encoding" then Some(AcceptEncoding)
    else if lower == "accept-language" then Some(AcceptLanguage)
    else if lower == "connection" then Some(Connection)
    else if lower == "content-encoding" then Some(ContentEncoding)
    else if lower == "content-length" then Some(ContentLength)
    else if lower == "content-type" then Some(ContentType)
    else if lower == "cookie" then Some(Cookie)
    else if lower == "date" then Some(Date)
    else if lower == "host" then Some(Host)
    else if lower == "location" then Some(Location)
    else if lower == "referer" then Some(Referer)
    else if lower == "server" then Some(Server)
    else if lower == "set-cookie" then Some(SetCookie)
    else if lower == "transfer-encoding" then Some(TransferEncoding)
    else if lower == "upgrade" then Some(Upgrade)
    else if lower == "user-agent" then Some(UserAgent)
    else if lower == "via" then Some(Via)
    else if lower == "x-forwarded-for" then Some(XForwardedFor)
    else None
  }

  function TypeFrom(s: string): HeaderType {
    match KnownType(Lower(s))
    case Some(t) => t
    case None => Custom(s)
  }

  function TypeName(t: HeaderType): string {
    match t
    case Accept => "Accept"
    case AcceptCharset => "Accept-Charset"
    case AcceptEncoding => "Accept-Encoding"
    case AcceptLanguage => "Accept-Language"
    case Connection => "Connection"
    case ContentEncoding => "Content-Encoding"
    case ContentLength => "Content-Length"
    case ContentType => "Content-Type"
    case Cookie => "Cookie"
    case Date => "Date"
    case Host => "Host"
    case Location => "Location"
    case Referer => "Referer"
    case Server => "Server"
    case SetCookie => "Set-Cookie"
    case TransferEncoding => "Transfer-Encoding"
    case Upgrade => "Upgrade"
    case UserAgent => "User-Agent"
    case Via => "Via"
    case XForwardedFor => "X-Forwarded-For"
    case Custom(s) => s
  }

  /** A custom name that does not spell a known header. */
  predicate Canonical(t: HeaderType) {
    t.Custom? ==> KnownType(Lower(t.name)).None?
  }

  /** The spelling that a known header name is recognized by. */
  function LowerName(t: HeaderType): string
    requires !t.Custom?
  {
    match t
    case Accept => "accept"
    case AcceptCharset => "accept-charset"
    case AcceptEncoding => "accept-encoding"
    case AcceptLanguage => "accept-language"
    case Connection => "connection"
    case ContentEncoding => "content-encoding"
    case ContentLength => "content-length"
    case ContentType => "content-type"
    case Cookie => "cookie"
    case Date => "date"
    case Host => "host"
    case Location => "location"
    case Referer => "referer"
    case Server => "server"
    case SetCookie => "set-cookie"
    case TransferEncoding => "transfer-encoding"
    case Upgrade => "upgrade"
    case UserAgent => "user-agent"
    case Via => "via"
    case XForwardedFor => "x-forwarded-for"
  }

  lemma RecognizedAcceptToConnection(t: HeaderType)
    requires t.Accept? || t.AcceptCharset? || t.AcceptEncoding? || t.AcceptLanguage? || t.Connection?
    ensures KnownType(LowerName(t)) == Some(t)
  {
  }

  lemma LoweredAcceptToConnection(t: HeaderType)
    requires t.Accept? || t.AcceptCharset? || t.AcceptEncoding? || t.AcceptLanguage? || t.Connection?
    ensures Lower(TypeName(t)) == LowerName(t)
  {
  }

  lemma RecognizedContentEncodingToDate(t: HeaderType)
    requires t.ContentEncoding? || t.ContentLength? || t.ContentType? || t.Cookie? || t.Date?
    ensures KnownType(LowerName(t)) == Some(t)
  {
  }

  lemma LoweredContentEncodingToDate(t: HeaderType)
    requires t.ContentEncoding? || t.ContentLength? || t.ContentType? || t.Cookie? || t.Date?
    ensures Lower(TypeName(t)) == LowerName(t)
  {
  }

  lemma RecognizedHostToSetCookie(t: HeaderType)
    requires t.Host? || t.Location? || t.Referer? || t.Server? || t.SetCookie?
    ensures KnownType(LowerName(t)) == Some(t)
  {
  }

  lemma LoweredHostToSetCookie(t: HeaderType)
    requires t.Host? || t.Location? || t.Referer? || t.Server? || t.SetCookie?
    ensures Lower(TypeName(t)) == LowerName(t)
  {
  }

  lemma RecognizedTransferEncodingToForwarded(t: HeaderType)
    requires t.TransferEncoding? || t.Upgrade? || t.UserAgent? || t.Via? || t.XForwardedFor?
    ensures KnownType(LowerName(t)) == Some(t)
  {
  }

  lemma LoweredTransferEncodingToUpgrade(t: HeaderType)
    requires t.TransferEncoding? || t.Upgrade?
    ensures Lower(TypeName(t)) == LowerName(t)
  {
  }

  lemma LoweredUserAgentToForwarded(t: HeaderType)
    requires t.UserAgent? || t.Via? || t.XForwardedFor?
    ensures Lower(TypeName(t)) == LowerName(t)
  {
  }

  /** The first half of the known types. */
  predicate UpToDate(t: HeaderType) {
    t.Accept? || t.AcceptCharset? || t.AcceptEncoding? || t.AcceptLanguage? || t.Connection?
    || t.ContentEncoding? || t.ContentLength? || t.ContentType? || t.Cookie? || t.Date?
  }

  lemma PlainAcceptToDate(t: HeaderType)
    requires UpToDate(t)
    ensures Free(TypeName(t), {':', '\n'})
  {
  }

  lemma PlainHostToForwarded(t: HeaderType)
    requires !t.Custom? && !UpToDate(t)
    ensures Free(TypeName(t), {':', '\n'})
  {
  }

  lemma RecognizedName(t: HeaderType)
    requires !t.Custom?
    ensures KnownType(LowerName(t)) == Some(t)
  {
    if t.Accept? || t.AcceptCharset? || t.AcceptEncoding? || t.AcceptLanguage? || t.Connection? {
      RecognizedAcceptToConnection(t);
    } else if t.ContentEncoding? || t.ContentLength? || t.ContentType? || t.Cookie? || t.Date? {
      RecognizedContentEncodingToDate(t);
    } else if t.Host? || t.Location? || t.Referer? || t.Server? || t.SetCookie? {
      RecognizedHostToSetCookie(t);
    } else {
      RecognizedTransferEncodingToForwarded(t);
    }
  }

  lemma LoweredName(t: HeaderType)
    requires !t.Custom?
    ensures Lower(TypeName(t)) == LowerName(t)
  {
    if t.Accept? || t.AcceptCharset? || t.AcceptEncoding? || t.AcceptLanguage? || t.Connection? {
      LoweredAcceptToConnection(t);
    } else if t.ContentEncoding? || t.ContentLength? || t.ContentType? || t.Cookie? || t.Date? {
      LoweredContentEncodingToDate(t);
    } else if t.Host? || t.Location? || t.Referer? || t.Server? || t.SetCookie? {
      LoweredHostToSetCookie(t);
    } else if t.TransferEncoding? || t.Upgrade? {
      LoweredTransferEncodingToUpgrade(t);
    } else {
      LoweredUserAgentToForwarded(t);
    }
  }

  lemma KnownRoundTrip(t: HeaderType)
    requires !t.Custom?
    ensures KnownType(Lower(TypeName(t))) == Some(t)
  {
    RecognizedName(t);
    LoweredName(t);
  }

  lemma KnownIsWritable(t: HeaderType)
    requires !t.Custom?
    ensures Trimmed(TypeName(t)) && Free(TypeName(t), {':', '\n'})
  {
    if UpToDate(t) {
      PlainAcceptToDate(t);
    } else {
      PlainHostToForwarded(t);
    }
  }

  /** Printing and parsing a header type gives it back exactly when it is canonical. */
  lemma TypeRoundTrip(t: HeaderType)
    ensures TypeFrom(TypeName(t)) == t <==> Canonical(t)
  {
    if !t.Custom? {
      KnownRoundTrip(t);
    } else {
      KnownIsNotCustom(Lower(t.name));
    }
  }

  lemma KnownIsNotCustom(lower: string)
    ensures KnownType(lower).Some? ==> !KnownType(lower).value.Custom?
  {
  }

  // ---- Letter case

  /** The same character, up to the case of an ASCII letter. */
  predicate SameLetter(c: char, d: char) {
    c == d
    || ('A' <= c <= 'Z' && d as int - 'a' as int == c as int - 'A' as int)
    || ('A' <= d <= 'Z' && c as int - 'a' as int == d as int - 'A' as int)
  }

  predicate SameLetters(s: string, t: string) {
    |s| == |t| && forall i :: 0 <= i < |s| ==> SameLetter(s[i], t[i])
  }

  lemma SameLower(s: string, t: string)
    ensures SameLetters(s, t) <==> Lower(s) == Lower(t)
  {
    if Lower(s) == Lower(t) {
      assert |s| == |Lower(s)| && |t| == |Lower(t)|;
      forall i | 0 <= i < |s| ensures SameLetter(s[i], t[i]) {
        assert Lower(s)[i] == Lower(t)[i];
      }
    }
  }

  lemma KnownIsLower(lower: string)
    ensures KnownType(lower).Some? ==>
              !KnownType(lower).value.Custom? && lower == Lower(TypeName(KnownType(lower).value))
  {
    var t := KnownType(lower);
    KnownIsNotCustom(lower);
    if t.Some? {
      LoweredName(t.value);
      KnownName(lower, t.value);
    }
  }

  lemma KnownToConnection(lower: string, t: HeaderType)
    requires KnownType(lower) == Some(t)
    requires t.Accept? || t.AcceptCharset? || t.AcceptEncoding? || t.AcceptLanguage? || t.Connection?
    ensures lower == LowerName(t)
  {
  }

  lemma KnownToDate(lower: string, t: HeaderType)
    requires KnownType(lower) == Some(t)
    requires t.ContentEncoding? || t.ContentLength? || t.ContentType? || t.Cookie? || t.Date?
    ensures lower == LowerName(t)
  {
  }

  lemma KnownToSetCookie(lower: string, t: HeaderType)
    requires KnownType(lower) == Some(t)
    requires t.Host? || t.Location? || t.Referer? || t.Server? || t.SetCookie?
    ensures lower == LowerName(t)
  {
  }

  lemma KnownToForwarded(lower: string, t: HeaderType)
    requires KnownType(lower) == Some(t)
    requires t.TransferEncoding? || t.Upgrade? || t.UserAgent? || t.Via? || t.XForwardedFor?
    ensures lower == LowerName(t)
  {
  }

  lemma KnownName(lower: string, t: HeaderType)
    requires KnownType(lower) == Some(t) && !t.Custom?
    ensures lower == LowerName(t)
  {
    if t.Accept? || t.AcceptCharset? || t.AcceptEncoding? || t.AcceptLanguage? || t.Connection? {
      KnownToConnection(lower, t);
    } else if t.ContentEncoding? || t.ContentLength? || t.ContentType? || t.Cookie? || t.Date? {
      KnownToDate(lower, t);
    } else if t.Host? || t.Location? || t.Referer? || t.Server? || t.SetCookie? {
      KnownToSetCookie(lower, t);
    } else {
      KnownToForwarded(lower, t);
    }
  }

  /** A name means a known type exactly if it is that type's name in some letter case. */
  lemma TypeAnyCase(s: string, t: HeaderType)
    requires !t.Custom?
    ensures TypeFrom(s) == t <==> SameLetters(s, TypeName(t))
  {
    SameLower(s, TypeName(t));
    KnownIsLower(Lower(s));
    KnownRoundTrip(t);
  }

  /** Any other name is kept as it is written. */
  lemma TypeOtherwise(s: string)
    ensures TypeFrom(s) == Custom(s) <==> forall t: HeaderType :: !t.Custom? ==> !SameLetters(s, TypeName(t))
  {
    if t: HeaderType :| !t.Custom? && SameLetters(s, TypeName(t)) {
      TypeAnyCase(s, t);
    } else if TypeFrom(s) != Custom(s) {
      KnownIsLower(Lower(s));
      TypeAnyCase(s, TypeFrom(s));
    }
  }

  // ---- Header lines

  /** `Header::from_string`; a line without a colon is an invalid header. */
  function FromString(line: string): Option<Header> {
    match SplitOnce(line, ':')
    case None => None
    case Some((name, value)) => Some(Header(TypeFrom(Trim(name)), Trim(value)))
  }

  function ToString(h: Header): string {
    TypeName(h.name) + ": " + h.value
  }

  /** A header that can be written on one line and read back. */
  predicate Writable(h: Header) {
    && Canonical(h.name) && Trimmed(TypeName(h.name)) && Free(TypeName(h.name), {':', '\n'})
    && Trimmed(h.value) && Free(h.value, {'\n'})
  }

  lemma LineRoundTrip(h: Header)
    requires Writable(h)
    ensures FromString(ToString(h)) == Some(h)
  {
    var name := TypeName(h.name);
    assert ToString(h) == name + [':'] + (" " + h.value);
    SplitOnceAt(name, ':', " " + h.value);
    TrimTrimmed(name);
    TrimTrimmed(h.value);
    TypeRoundTrip(h.name);
  }

  /** The first header of a type, as `Headers::get_header` finds it. */
  function Find(headers: seq<Header>, t: HeaderType): (h: Option<Header>)
    ensures h.Some? ==> h.value in headers && h.value.name == t
    ensures h.None? ==> forall i :: 0 <= i < |headers| ==> headers[i].name != t
  {
    if headers == [] then None
    else if headers[0].name == t then Some(headers[0])
    else Find(headers[1..], t)
  }

  predicate Has(headers: seq<Header>, t: HeaderType) {
    Find(headers, t).Some?
  }

  /** Header `k` is the first one of the type. */
  predicate FirstOf(headers: seq<Header>, t: HeaderType, k: nat) {
    k < |headers| && headers[k].name == t && forall j :: 0 <= j < k ==> headers[j].name != t
  }

  lemma {:induction false} FirstFound(headers: seq<Header>, t: HeaderType, k: nat)
    requires FirstOf(headers, t, k)
    ensures Find(headers, t) == Some(headers[k])
  {
    if k > 0 {
      FirstFound(headers[1..], t, k - 1);
    }
  }

  lemma {:induction false} FoundFirst(headers: seq<Header>, t: HeaderType) returns (k: nat)
    requires Has(headers, t)
    ensures FirstOf(headers, t, k) && Find(headers, t) == Some(headers[k])
  {
    if headers[0].name == t {
      k := 0;
    } else {
      var j := FoundFirst(headers[1..], t);
      k := j + 1;
      assert forall i :: 0 < i < k ==> headers[i] == headers[1..][i - 1];
    }
  }

  // ---- Parameters of a header value

  datatype HeaderParams = HeaderParams(value: string, params: seq<(string, string)>)

  /** The parameters written in the pieces after the first one, up to a piece without `=`. */
  function ParamsIn(pieces: seq<string>): (params: seq<(string, string)>)
    ensures |params| <= |pieces| && forall i :: 0 <= i < |params| ==> '=' in pieces[i]
    ensures |params| < |pieces| ==> '=' !in pieces[|params|]
  {
    if pieces == [] then []
    else match SplitOnce(pieces[0], '=')
         case None => []
         case Some((key, value)) => [(Trim(key), Trim(value))] + ParamsIn(pieces[1..])
  }

  function ParamsOf(value: string): HeaderParams {
    var pieces := Split(value, {';'});
    HeaderParams(pieces[0], ParamsIn(pieces[1..]))
  }

  lemma ParamsStep(params: seq<(string, string)>, pieces: seq<string>, i: nat)
    requires i < |pieces|
    ensures params + ParamsIn(pieces[i..]) ==
            match SplitOnce(pieces[i], '=') {
              case None => params
              case Some((key, value)) => (params + [(Trim(key), Trim(value))]) + ParamsIn(pieces[i + 1..])
            }
  {
    assert pieces[i..][0] == pieces[i] && pieces[i..][1..] == pieces[i + 1..];
    assert params + [] == params;
    if SplitOnce(pieces[i], '=').Some? {
      var (key, value) := SplitOnce(pieces[i], '=').value;
      Regroup(params, [(Trim(key), Trim(value))], ParamsIn(pieces[i + 1..]));
    }
  }

  method NewParams(value: string) returns (r: HeaderParams)
    ensures r == ParamsOf(value)
  {
    var params: seq<(string, string)>, parts := [], Split(value, {';'});
    var i := 1;
    while i < |parts|
      invariant 1 <= i <= |parts|
      invariant params + ParamsIn(parts[i..]) == ParamsIn(parts[1..])
    {
      ParamsStep(params, parts, i);
      var split := SplitOnce(parts[i], '=');
      if split.None? {
        return HeaderParams(parts[0], params);
      }
      params, i := params + [(Trim(split.value.0), Trim(split.value.1))], i + 1;
    }
    assert params + [] == params;
    return HeaderParams(parts[0], params);
  }

  function GetParam(params: seq<(string, string)>, key: string): Option<string> {
    if params == [] then None
    else if params[0].0 == key then Some(params[0].1)
    else GetParam(params[1..], key)
  }

  /** The first parameter with the key counts. */
  lemma {:induction false} FirstParam(params: seq<(string, string)>, key: string)
    ensures match GetParam(params, key) {
              case None => forall i :: 0 <= i < |params| ==> params[i].0 != key
              case Some(value) =>
                exists k :: 0 <= k < |params| && params[k] == (key, value) &&
                  forall i :: 0 <= i < k ==> params[i].0 != key
            }
  {
    if params != [] && params[0].0 != key {
      FirstParam(params[1..], key);
      if GetParam(params, key).Some? {
        var value := GetParam(params, key).value;
        var k :| 0 <= k < |params[1..]| && params[1..][k] == (key, value) &&
                 forall i :: 0 <= i < k ==> params[1..][i].0 != key;
        assert params[k + 1] == (key, value);
        assert forall i :: 0 < i <= k ==> params[i] == params[1..][i - 1];
      }
    }
  }

  /** Parameters as they are written after a value. */
  function RenderParams(params: seq<(string, string)>): string {
    if params == [] then ""
    else "; " + params[0].0 + "=" + params[0].1 + RenderParams(params[1..])
  }

  predicate PlainParam(param: (string, string)) {
    && Trimmed(param.0) && Free(param.0, {';', '='})
    && Trimmed(param.1) && Free(param.1, {';'})
  }

  predicate PlainParams(params: seq<(string, string)>) {
    forall i :: 0 <= i < |params| ==> PlainParam(params[i])
  }

  function PieceOf(param: (string, string)): string {
    " " + param.0 + ['='] + param.1
  }

  function PiecesOf(params: seq<(string, string)>): seq<string> {
    if params == [] then [] else [PieceOf(params[0])] + PiecesOf(params[1..])
  }

  lemma PieceIsRead(param: (string, string))
    requires PlainParam(param)
    ensures Free(PieceOf(param), {';'})
    ensures SplitOnce(PieceOf(param), '=') == Some((" " + param.0, param.1))
    ensures Trim(" " + param.0) == param.0 && Trim(param.1) == param.1
  {
    assert '=' !in " " + param.0;
    SplitOnceAt(" " + param.0, '=', param.1);
    TrimTrimmed(param.0);
    TrimTrimmed(param.1);
    FreeAppend(" " + param.0, "=", {';'});
    FreeAppend(" " + param.0 + "=", param.1, {';'});
  }

  lemma ParamsCons(piece: string, rest: seq<string>, key: string, value: string)
    requires SplitOnce(piece, '=') == Some((key, value))
    ensures ParamsIn([piece] + rest) == [(Trim(key), Trim(value))] + ParamsIn(rest)
  {
    assert ([piece] + rest)[1..] == rest;
  }

  lemma {:induction false} PiecesAreRead(params: seq<(string, string)>)
    requires PlainParams(params)
    ensures ParamsIn(PiecesOf(params)) == params
  {
    if params != [] {
      assert PlainParam(params[0]);
      PieceIsRead(params[0]);
      PiecesAreRead(params[1..]);
      ParamsCons(PieceOf(params[0]), PiecesOf(params[1..]), " " + params[0].0, params[0].1);
      assert params == [params[0]] + params[1..];
    }
  }

  lemma RenderedStep(first: string, params: seq<(string, string)>)
    requires params != []
    ensures first + RenderParams(params) == first + [';'] + (PieceOf(params[0]) + RenderParams(params[1..]))
  {
    var key, value, rest := params[0].0, params[0].1, RenderParams(params[1..]);
    assert RenderParams(params) == [';'] + (PieceOf(params[0]) + rest);
  }

  lemma {:induction false} SplitParams(first: string, params: seq<(string, string)>)
    requires Free(first, {';'}) && PlainParams(params)
    ensures Split(first + RenderParams(params), {';'}) == [first] + PiecesOf(params)
    decreases |params|
  {
    if params == [] {
      assert first + "" == first;
      SplitOne(first, {';'});
    } else {
      assert PlainParam(params[0]);
      PieceIsRead(params[0]);
      SplitParams(PieceOf(params[0]), params[1..]);
      RenderedStep(first, params);
      SplitCons(first, ';', PieceOf(params[0]) + RenderParams(params[1..]), {';'});
    }
  }

  /** A value and its parameters are read back as written, in order. */
  lemma ParamsRoundTrip(value: string, params: seq<(string, string)>)
    requires Free(value, {';'}) && PlainParams(params)
    ensures ParamsOf(value + RenderParams(params)) == HeaderParams(value, params)
  {
    SplitParams(value, params);
    PiecesAreRead(params);
    assert ([value] + PiecesOf(params))[1..] == PiecesOf(params);
  }
}
