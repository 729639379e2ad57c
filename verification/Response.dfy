/** Writing a response: completing its headers, its head, and a static or chunked body. */
module Response {
  import opened Wrappers
  import opened Text
  import Header
  import Request
  import Url

  /** One call of the reader behind a streamed body. */
  datatype ReadResult = Read(data: string) | Interrupted | Failed(error: string)

  datatype Body = Static(data: string) | Stream(results: seq<ReadResult>)

  datatype Flag = NoFlag | Close | End

  // ---- Headers

  /** The headers followed by each default header whose type is not there yet. */
  function WithDefaults(headers: seq<Header.Header>, defaults: seq<Header.Header>): seq<Header.Header>
    decreases |defaults|
  {
    if defaults == [] then headers
    else if Header.Has(headers, defaults[0].name) then WithDefaults(headers, defaults[1..])
    else WithDefaults(headers + [defaults[0]], defaults[1..])
  }

  function AddUnless(headers: seq<Header.Header>, h: Header.Header): seq<Header.Header> {
    if Header.Has(headers, h.name) then headers else headers + [h]
  }

  const CLOSE := Header.Header(Header.Connection, "close")

  const CHUNKED := Header.Header(Header.TransferEncoding, "chunked")

  function Completed(headers: seq<Header.Header>, defaults: seq<Header.Header>, body: Body, flag: Flag)
    : seq<Header.Header>
  {
    var h1 := WithDefaults(headers, defaults);
    var h2 := if body.Static? then AddUnless(h1, LengthHeader(body.data)) else h1;
    var h3 := if flag.Close? then AddUnless(h2, CLOSE) else h2;
    if body.Stream? then AddUnless(h3, CHUNKED) else h3
  }

  function LengthHeader(data: string): Header.Header {
    Header.Header(Header.ContentLength, Decimal(|data|))
  }

  /** `headers_to_string`, which cuts the last line break and so panics on an empty list. */
  function HeadersToString(headers: seq<Header.Header>): string
    requires headers != []
  {
    var out := Request.Block(headers);
    out[..|out| - 2]
  }

  function HeadText(code: nat, reason: string, headers: seq<Header.Header>): string
    requires headers != []
  {
    "HTTP/1.1 " + Decimal(code) + " " + reason + "\r\n" + HeadersToString(headers) + "\r\n\r\n"
  }

  // ---- Chunked bodies

  function HexText(n: nat): (s: string)
    ensures s != ""
  {
    if n < 16 then [Url.HexDigit(n)] else HexText(n / 16) + [Url.HexDigit(n % 16)]
  }

  function ChunkOf(data: string): string {
    HexText(|data|) + "\r\n" + data + "\r\n"
  }

  /** The bytes written for a stream, and whether it was read to its end. */
  function Chunks(results: seq<ReadResult>): (string, Result<(), string>) {
    if results == [] then ("0\r\n\r\n", Ok(()))
    else match results[0]
         case Interrupted => Chunks(results[1..])
         case Failed(e) => ("", Err(e))
         case Read(data) =>
           if data == "" then ("0\r\n\r\n", Ok(()))
           else
             var rest := Chunks(results[1..]);
             (ChunkOf(data) + rest.0, rest.1)
  }

  /** The bytes that a stream delivers before it ends or fails. */
  function Delivered(results: seq<ReadResult>): string {
    if results == [] then ""
    else match results[0]
         case Interrupted => Delivered(results[1..])
         case Failed(_) => ""
         case Read(data) => if data == "" then "" else data + Delivered(results[1..])
  }

  method WriteStream(results: seq<ReadResult>) returns (wire: string, r: Result<(), string>)
    ensures (wire, r) == Chunks(results)
  {
    wire := "";
    var i := 0;
    assert results[0..] == results && "" + Chunks(results).0 == Chunks(results).0;
    while i < |results|
      invariant i <= |results|
      invariant Chunks(results) == (wire + Chunks(results[i..]).0, Chunks(results[i..]).1)
    {
      ChunksStep(wire, results, i);
      match results[i] {
        case Interrupted =>
          i := i + 1;
          continue;
        case Failed(e) => return wire, Err(e);
        case Read(data) =>
          if data == "" {
            break;
          }
          var section := HexText(|data|) + "\r\n";
          section := section + data;
          section := section + "\r\n";
          wire := wire + section;
          i := i + 1;
      }
    }
    wire := wire + "0\r\n\r\n";
    r := Ok(());
  }

  lemma ChunksStep(wire: string, results: seq<ReadResult>, i: nat)
    requires i < |results|
    ensures var here, rest := Chunks(results[i..]), Chunks(results[i + 1..]);
            (wire + here.0, here.1) ==
            match results[i] {
              case Interrupted => (wire + rest.0, rest.1)
              case Failed(e) => (wire, Err(e))
              case Read(data) =>
                if data == "" then (wire + "0\r\n\r\n", Ok(())) else ((wire + ChunkOf(data)) + rest.0, rest.1)
            }
  {
    assert results[i..][0] == results[i] && results[i..][1..] == results[i + 1..];
    assert wire + "" == wire;
    if results[i].Read? {
      assert wire + (ChunkOf(results[i].data) + Chunks(results[i + 1..]).0) ==
             (wire + ChunkOf(results[i].data)) + Chunks(results[i + 1..]).0;
    }
  }

  // ---- A response

  class Response {
    const code: nat
    const reason: string
    const body: Body
    const flag: Flag
    var headers: seq<Header.Header>

    constructor (code: nat, reason: string, body: Body, flag: Flag, headers: seq<Header.Header>)
      ensures this.code == code && this.reason == reason && this.body == body && this.flag == flag
      ensures this.headers == headers
    {
      this.code, this.reason, this.body, this.flag, this.headers := code, reason, body, flag, headers;
    }

    /** Completes the headers in place and writes the head and the body. */
    method Write(defaults: seq<Header.Header>) returns (wire: string, r: Result<(), string>)
      modifies this
      ensures headers == Completed(old(headers), defaults, body, flag) && headers != []
      ensures body.Static? ==> wire == HeadText(code, reason, headers) + body.data && r == Ok(())
      ensures body.Stream? ==>
              wire == HeadText(code, reason, headers) + Chunks(body.results).0 && r == Chunks(body.results).1
    {
      AddDefaults(defaults);
      var isStatic := body.Static?;
      if isStatic && !Header.Has(headers, Header.ContentLength) {
        headers := headers + [LengthHeader(body.data)];
      }
      if flag == Close && !Header.Has(headers, Header.Connection) {
        headers := headers + [Header.Header(Header.Connection, "close")];
      }
      if !isStatic && !Header.Has(headers, Header.TransferEncoding) {
        headers := headers + [Header.Header(Header.TransferEncoding, "chunked")];
      }
      wire := HeadText(code, reason, headers);
      match body {
        case Static(data) => wire, r := wire + data, Ok(());
        case Stream(results) =>
          var chunks;
          chunks, r := WriteStream(results);
          wire := wire + chunks;
      }
    }

    method AddDefaults(defaults: seq<Header.Header>)
      modifies this
      ensures headers == WithDefaults(old(headers), defaults)
    {
      for i := 0 to |defaults|
        invariant WithDefaults(headers, defaults[i..]) == WithDefaults(old(headers), defaults)
      {
        assert defaults[i..][1..] == defaults[i + 1..];
        if !Header.Has(headers, defaults[i].name) {
          headers := headers + [defaults[i]];
        }
      }
    }
  }

  // ---- What completion promises

  lemma {:induction false} FindAppended(headers: seq<Header.Header>, h: Header.Header, t: Header.HeaderType)
    ensures Header.Find(headers + [h], t) ==
            if Header.Has(headers, t) then Header.Find(headers, t) else if h.name == t then Some(h) else None
  {
    if headers == [] {
      assert headers + [h] == [h];
    } else {
      assert (headers + [h])[0] == headers[0] && (headers + [h])[1..] == headers[1..] + [h];
      FindAppended(headers[1..], h, t);
    }
  }

  /** The response's own headers come first, and every default header's type is present. */
  lemma {:induction false} DefaultsAdded(headers: seq<Header.Header>, defaults: seq<Header.Header>)
    ensures headers <= WithDefaults(headers, defaults)
    ensures forall h :: h in WithDefaults(headers, defaults) ==> h in headers || h in defaults
    ensures forall t :: Header.Has(headers, t) ==>
              Header.Find(WithDefaults(headers, defaults), t) == Header.Find(headers, t)
    ensures forall i :: 0 <= i < |defaults| ==> Header.Has(WithDefaults(headers, defaults), defaults[i].name)
    decreases |defaults|
  {
    if defaults != [] {
      var next := if Header.Has(headers, defaults[0].name) then headers else headers + [defaults[0]];
      forall t ensures Header.Has(headers, t) ==> Header.Find(next, t) == Header.Find(headers, t) {
        FindAppended(headers, defaults[0], t);
      }
      FindAppended(headers, defaults[0], defaults[0].name);
      DefaultsAdded(next, defaults[1..]);
      assert forall i :: 1 <= i < |defaults| ==> defaults[i] == defaults[1..][i - 1];
    }
  }

  lemma AddedUnless(headers: seq<Header.Header>, h: Header.Header)
    ensures headers <= AddUnless(headers, h) && Header.Has(AddUnless(headers, h), h.name)
    ensures forall k :: k in AddUnless(headers, h) ==> k in headers || k == h
    ensures forall t :: Header.Has(headers, t) ==> Header.Find(AddUnless(headers, h), t) == Header.Find(headers, t)
    ensures !Header.Has(headers, h.name) ==> Header.Find(AddUnless(headers, h), h.name) == Some(h)
  {
    FindAppended(headers, h, h.name);
    forall t ensures Header.Has(headers, t) ==> Header.Find(AddUnless(headers, h), t) == Header.Find(headers, t) {
      FindAppended(headers, h, t);
    }
  }

  /** `more` grown from `headers` by headers of `extra`; no type is lost. */
  ghost predicate Grown(headers: seq<Header.Header>, more: seq<Header.Header>, extra: seq<Header.Header>) {
    && headers <= more
    && (forall h :: h in more ==> h in headers || h in extra)
    && (forall t :: Header.Has(headers, t) ==> Header.Has(more, t))
  }

  lemma GrownTwice(a: seq<Header.Header>, b: seq<Header.Header>, c: seq<Header.Header>,
                   m: seq<Header.Header>, n: seq<Header.Header>)
    requires Grown(a, b, m) && Grown(b, c, n)
    ensures Grown(a, c, m + n)
  {
  }

  lemma AddedIf(headers: seq<Header.Header>, h: Header.Header, needed: bool)
    ensures var more := if needed then AddUnless(headers, h) else headers;
            Grown(headers, more, [h]) && (needed ==> Header.Has(more, h.name))
  {
    AddedUnless(headers, h);
  }

  function LengthOf(body: Body): Header.Header {
    LengthHeader(if body.Static? then body.data else "")
  }

  /**
    The completed list starts with the response's own headers, is never empty, and adds only the
    missing defaults and what the body and the flag call for.
   */
  lemma CompletedFrom(headers: seq<Header.Header>, defaults: seq<Header.Header>, body: Body, flag: Flag)
    ensures var c := Completed(headers, defaults, body, flag);
            && headers <= c && c != []
            && (forall h :: h in c ==> h in headers || h in defaults || h in [LengthOf(body), CLOSE, CHUNKED])
            && (body.Static? ==> Header.Has(c, Header.ContentLength))
            && (flag.Close? ==> Header.Has(c, Header.Connection))
            && (body.Stream? ==> Header.Has(c, Header.TransferEncoding))
  {
    var h1 := WithDefaults(headers, defaults);
    var h2 := if body.Static? then AddUnless(h1, LengthOf(body)) else h1;
    var h3 := if flag.Close? then AddUnless(h2, CLOSE) else h2;
    var h4 := if body.Stream? then AddUnless(h3, CHUNKED) else h3;
    DefaultsAdded(headers, defaults);
    AddedIf(h1, LengthOf(body), body.Static?);
    AddedIf(h2, CLOSE, flag.Close?);
    AddedIf(h3, CHUNKED, body.Stream?);
    GrownTwice(headers, h1, h2, defaults, [LengthOf(body)]);
    GrownTwice(headers, h2, h3, defaults + [LengthOf(body)], [CLOSE]);
    GrownTwice(headers, h3, h4, defaults + [LengthOf(body)] + [CLOSE], [CHUNKED]);
    assert h4 == Completed(headers, defaults, body, flag);
  }

  predicate Preset(headers: seq<Header.Header>, defaults: seq<Header.Header>, t: Header.HeaderType) {
    Header.Has(headers, t) || Header.Has(defaults, t)
  }

  lemma {:induction false} NotPreset(headers: seq<Header.Header>, defaults: seq<Header.Header>, t: Header.HeaderType)
    requires !Preset(headers, defaults, t)
    ensures !Header.Has(WithDefaults(headers, defaults), t)
    decreases |defaults|
  {
    if defaults != [] {
      FindAppended(headers, defaults[0], t);
      NotPreset(if Header.Has(headers, defaults[0].name) then headers else headers + [defaults[0]], defaults[1..], t);
    }
  }

  lemma FoundIfAdded(headers: seq<Header.Header>, h: Header.Header, needed: bool, t: Header.HeaderType)
    ensures var more := if needed then AddUnless(headers, h) else headers;
            Header.Find(more, t) ==
            if !Header.Has(headers, t) && needed && h.name == t then Some(h) else Header.Find(headers, t)
  {
    FindAppended(headers, h, t);
  }

  /** A header that is not preset is written exactly if it is called for, and says what it should. */
  lemma CompletedSays(headers: seq<Header.Header>, defaults: seq<Header.Header>, body: Body, flag: Flag)
    ensures var c := Completed(headers, defaults, body, flag);
            && (!Preset(headers, defaults, Header.ContentLength) ==>
                  Header.Find(c, Header.ContentLength) ==
                  if body.Static? then Some(Header.Header(Header.ContentLength, Decimal(|body.data|))) else None)
            && (!Preset(headers, defaults, Header.Connection) ==>
                  Header.Find(c, Header.Connection) ==
                  if flag.Close? then Some(Header.Header(Header.Connection, "close")) else None)
            && (!Preset(headers, defaults, Header.TransferEncoding) ==>
                  Header.Find(c, Header.TransferEncoding) ==
                  if body.Stream? then Some(Header.Header(Header.TransferEncoding, "chunked")) else None)
  {
    var h1 := WithDefaults(headers, defaults);
    var h2 := if body.Static? then AddUnless(h1, LengthOf(body)) else h1;
    var h3 := if flag.Close? then AddUnless(h2, CLOSE) else h2;
    forall t ensures !Preset(headers, defaults, t) ==> !Header.Has(h1, t) {
      if !Preset(headers, defaults, t) {
        NotPreset(headers, defaults, t);
      }
    }
    forall t
      ensures Header.Find(h2, t) ==
              if !Header.Has(h1, t) && body.Static? && Header.ContentLength == t then Some(LengthOf(body))
              else Header.Find(h1, t)
      ensures Header.Find(h3, t) ==
              if !Header.Has(h2, t) && flag.Close? && Header.Connection == t then Some(CLOSE) else Header.Find(h2, t)
      ensures Header.Find(Completed(headers, defaults, body, flag), t) ==
              if !Header.Has(h3, t) && body.Stream? && Header.TransferEncoding == t then Some(CHUNKED)
              else Header.Find(h3, t)
    {
      FoundIfAdded(h1, LengthOf(body), body.Static?, t);
      FoundIfAdded(h2, CLOSE, flag.Close?, t);
      FoundIfAdded(h3, CHUNKED, body.Stream?, t);
    }
  }

  lemma FixedLines()
    ensures Header.ToString(CLOSE) == "Connection: close"
    ensures Header.ToString(CHUNKED) == "Transfer-Encoding: chunked"
  {
  }

  /** Without a preset length, the completed length of a static body is its size. */
  lemma CompletedLength(headers: seq<Header.Header>, defaults: seq<Header.Header>, data: string, flag: Flag)
    requires !Header.Has(headers, Header.ContentLength) && !Header.Has(defaults, Header.ContentLength)
    requires |data| < U64_LIMIT
    ensures Request.ContentLength(Completed(headers, defaults, Static(data), flag)) == |data|
  {
    var h1 := WithDefaults(headers, defaults);
    DefaultsAdded(headers, defaults);
    assert !Header.Has(h1, Header.ContentLength);
    AddedUnless(h1, LengthHeader(data));
    AddedUnless(AddUnless(h1, LengthHeader(data)), CLOSE);
    ParseDecimal(|data|, U64_LIMIT);
  }

  // ---- Reading a static response back

  lemma {:induction false} BlockEnds(headers: seq<Header.Header>)
    requires headers != []
    ensures var b := Request.Block(headers); |b| >= 2 && b[|b| - 2..] == "\r\n"
  {
    if |headers| > 1 {
      BlockEnds(headers[1..]);
    }
  }

  /** The head is a status line, the header block and an empty line. */
  lemma HeadLayout(code: nat, reason: string, headers: seq<Header.Header>, body: string)
    requires headers != []
    ensures HeadText(code, reason, headers) + body ==
            ("HTTP/1.1 " + Decimal(code) + " " + reason) + "\r\n" + (Request.Block(headers) + "\r\n" + body)
  {
    var b := Request.Block(headers);
    BlockEnds(headers);
    assert b == b[..|b| - 2] + "\r\n";
    assert b[..|b| - 2] + "\r\n\r\n" == b + "\r\n";
  }

  /**
    A static response is read back, headers and body, exactly when the length that the completed
    headers announce is the size of the body, and the reader can allocate it.
   */
  lemma ReadBack(code: nat, reason: string, headers: seq<Header.Header>, data: string)
    requires headers != [] && Request.Sendable(headers) && '\n' !in reason
    ensures Request.MessageIn(Request.AfterFirstLine(HeadText(code, reason, headers) + data))
            == Request.Read(Request.Message(headers, [], data))
            <==> Request.ContentLength(headers) == |data| && |data| < Request.ISIZE_LIMIT
  {
    var status := "HTTP/1.1 " + Decimal(code) + " " + reason;
    HeadLayout(code, reason, headers, data);
    DecimalPlain(code);
    Request.FirstLineOf(status, Request.Block(headers) + "\r\n" + data);
    Request.MessageOfBlock(headers, data);
    assert data[..|data|] == data;
  }

  lemma LengthHeaderWritable(data: string)
    ensures Header.Writable(LengthHeader(data))
  {
    Header.KnownIsWritable(Header.ContentLength);
    var d := Decimal(|data|);
    assert IsDigit(d[0]) && IsDigit(d[|d| - 1]);
    DecimalPlain(|data|);
  }

  lemma AddedSendable(h: Header.Header, body: Body)
    requires h in [LengthOf(body), CLOSE, CHUNKED]
    ensures Header.Writable(h) && h.name != Header.Cookie
  {
    if h == LengthOf(body) {
      LengthHeaderWritable(if body.Static? then body.data else "");
    } else {
      Header.KnownIsWritable(h.name);
    }
  }

  lemma CompletedSendable(headers: seq<Header.Header>, defaults: seq<Header.Header>, body: Body, flag: Flag)
    requires Request.Sendable(headers) && Request.Sendable(defaults)
    ensures Request.Sendable(Completed(headers, defaults, body, flag))
  {
    var c := Completed(headers, defaults, body, flag);
    CompletedFrom(headers, defaults, body, flag);
    forall i | 0 <= i < |c| ensures Header.Writable(c[i]) && c[i].name != Header.Cookie {
      assert c[i] in c;
      if c[i] in [LengthOf(body), CLOSE, CHUNKED] {
        AddedSendable(c[i], body);
      }
    }
  }

  /** Every static response without a preset length reaches a reader complete, if its body fits memory. */
  lemma StaticRoundTrip(code: nat, reason: string, headers: seq<Header.Header>, defaults: seq<Header.Header>,
                        data: string, flag: Flag)
    requires Request.Sendable(headers) && Request.Sendable(defaults) && '\n' !in reason
    requires !Header.Has(headers, Header.ContentLength) && !Header.Has(defaults, Header.ContentLength)
    requires |data| < U64_LIMIT
    ensures var c := Completed(headers, defaults, Static(data), flag);
            var r := Request.MessageIn(Request.AfterFirstLine(HeadText(code, reason, c) + data));
            c != [] && (r == Request.Read(Request.Message(c, [], data)) <==> |data| < Request.ISIZE_LIMIT)
  {
    CompletedFrom(headers, defaults, Static(data), flag);
    CompletedSendable(headers, defaults, Static(data), flag);
    CompletedLength(headers, defaults, data, flag);
    ReadBack(code, reason, Completed(headers, defaults, Static(data), flag), data);
  }

  // ---- Decoding a chunked body (section 7.1 of RFC 9112)

  /** How many hexadecimal digits `s` starts with. */
  function HexRun(s: string): (n: nat)
    ensures n <= |s| && AllHex(s[..n])
  {
    if s == "" || Url.HexValue(s[0]).None? then 0 else 1 + HexRun(s[1..])
  }

  predicate AllHex(s: string) {
    forall k :: 0 <= k < |s| ==> Url.HexValue(s[k]).Some?
  }

  function HexNumber(s: string): nat
    requires AllHex(s)
  {
    if s == "" then 0 else 16 * HexNumber(s[..|s| - 1]) + Url.HexValue(s[|s| - 1]).value
  }

  /** Where the line of a chunk size ends: an extension after `;` is skipped. */
  function SizeLineEnd(s: string): Option<nat> {
    var n := HexRun(s);
    var i := n + IndexOf(s[n..], {'\r'});
    if n == 0 || i + 1 >= |s| || s[i + 1] != '\n' || (i > n && s[n] != ';') then None else Some(i + 2)
  }

  /** The content of a complete chunked body without trailers; nothing if it is cut short or malformed. */
  function Dechunked(s: string): Option<string>
    decreases |s|
  {
    match SizeLineEnd(s)
    case None => None
    case Some(start) =>
      var size := HexNumber(s[..HexRun(s)]);
      var rest := s[start..];
      if size == 0 then if rest == "\r\n" then Some("") else None
      else if |rest| < size + 2 || rest[size..size + 2] != "\r\n" then None
      else match Dechunked(rest[size + 2..])
           case None => None
           case Some(more) => Some(rest[..size] + more)
  }

  lemma {:induction false} HexRoundTrip(n: nat)
    ensures AllHex(HexText(n)) && HexNumber(HexText(n)) == n
  {
    if n >= 16 {
      HexRoundTrip(n / 16);
      assert HexText(n)[..|HexText(n)| - 1] == HexText(n / 16);
    }
  }

  lemma {:induction false} HexRunOf(digits: string, rest: string)
    requires AllHex(digits)
    ensures HexRun(digits + "\r\n" + rest) == |digits|
  {
    var s := digits + "\r\n" + rest;
    if digits != "" {
      assert s[1..] == digits[1..] + "\r\n" + rest;
      HexRunOf(digits[1..], rest);
    }
  }

  /** The size line that the writer prints is understood. */
  lemma SizeLineRead(n: nat, rest: string)
    ensures var s := HexText(n) + "\r\n" + rest;
            && SizeLineEnd(s) == Some(|HexText(n)| + 2)
            && HexRun(s) == |HexText(n)|
            && HexNumber(s[..HexRun(s)]) == n
            && s[|HexText(n)| + 2..] == rest
  {
    var digits := HexText(n);
    var s := digits + "\r\n" + rest;
    HexRoundTrip(n);
    HexRunOf(digits, rest);
    assert s[..|digits|] == digits;
    assert s[|digits|..][0] == '\r';
  }

  lemma ChunkRead(data: string, rest: string)
    requires data != ""
    ensures Dechunked(ChunkOf(data) + rest) ==
            match Dechunked(rest) { case None => None case Some(more) => Some(data + more) }
  {
    var tail := data + "\r\n" + rest;
    assert ChunkOf(data) + rest == HexText(|data|) + "\r\n" + tail;
    SizeLineRead(|data|, tail);
    assert tail[..|data|] == data && tail[|data|..|data| + 2] == "\r\n" && tail[|data| + 2..] == rest;
  }

  /**
    A streamed body decodes to exactly what its reader delivered; if the reader failed, what was
    written does not decode at all.
   */
  lemma {:induction false} ChunkedRoundTrip(results: seq<ReadResult>)
    ensures var (wire, r) := Chunks(results);
            Dechunked(wire) == if r.Ok? then Some(Delivered(results)) else None
  {
    if results == [] || (results[0].Read? && results[0].data == "") {
      SizeLineRead(0, "\r\n");
      assert "0" + "\r\n" + "\r\n" == "0\r\n\r\n";
    } else {
      ChunkedRoundTrip(results[1..]);
      if results[0].Read? {
        ChunkRead(results[0].data, Chunks(results[1..]).0);
      }
    }
  }
}
