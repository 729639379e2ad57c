/**
  The request pipeline: middleware around routing, error responses, and the keep-alive loop.

  A hook or handler is an arbitrary function from what it is given to what it does, panics included.
  Every run returns a trace of what was called.
 */
module Handle {
  import opened Wrappers
  import opened Errors
  import Header
  import Path
  import Request
  import RequestLine
  import Response

  /** A request, with the path parameters that the router fills in. */
  datatype Req = Req(request: Request.Request, params: Path.Params)

  datatype Reply = Reply(code: nat, body: Response.Body, headers: seq<Header.Header>, flag: Response.Flag)

  type Fault = Error<Req>
  type Incoming = Result<Req, Fault>
  type Outgoing = Result<Reply, Fault>

  datatype Verdict = Continue | Abort | Send(reply: Reply)

  /** What a hook leaves behind (it may change its argument even if it panics) and how it ended. */
  datatype PreOutcome = PreDone(req: Incoming, verdict: Verdict) | PrePanic(req: Incoming, message: string)
  datatype PostOutcome = PostDone(res: Outgoing, verdict: Verdict) | PostPanic(message: string)

  datatype Middleware = Middleware(
    pre: Incoming -> PreOutcome, post: (Incoming, Outgoing) -> PostOutcome, endPanics: (Req, Reply) -> bool)

  datatype HandlerOutcome = Returned(reply: Reply) | Panicked(message: string)

  datatype Handler = Stateless(run: Req -> HandlerOutcome) | Stateful(run: Req -> HandlerOutcome)

  datatype Route = Route(verb: Method, path: Path.Path, handler: Handler)

  datatype Server = Server(
    middleware: seq<Middleware>, routes: seq<Route>, hasState: bool,
    errorHandler: (Incoming, string) -> Reply, keepAlive: bool)

  datatype Event = PreRan(i: nat) | HandlerRan(i: nat) | PostRan(i: nat) | ErrorHandlerRan

  /** What is sent: a reply, or the `unreachable!` panic of `error_response`. */
  datatype Outcome = Replied(reply: Reply) | Unreachable

  datatype Answer = Answer(req: Option<Req>, outcome: Outcome, trace: seq<Event>)

  // ---- Error responses

  function TextReply(code: nat, text: string): Reply {
    Reply(code, Response.Static(text), [], Response.NoFlag)
  }

  function ParseErrorText(e: ParseError): string {
    match e
    case NoSeparator => "No separator"
    case NoMethod => "No method"
    case NoPath => "No path"
    case NoVersion => "No HTTP version"
    case NoRequestLine => "No request line"
    case InvalidQuery => "Invalid query"
    case InvalidHeader => "Invalid header"
    case InvalidMethod => "Invalid method"
  }

  /** The reply to an error, and whether the error handler was called for it. */
  function ErrorResponse(e: Fault, server: Server): (Outcome, seq<Event>) {
    match e
    case Absent => (Unreachable, [])
    case Startup(_) => (Unreachable, [])
    case Stream(UnexpectedEof) => (Replied(TextReply(400, "Unexpected EOF")), [])
    case Parse(p) => (Replied(TextReply(400, ParseErrorText(p))), [])
    case Handle(NotFound(verb, path)) =>
      (Replied(TextReply(404, "Cannot " + RequestLine.Name(verb) + " " + path).(
         headers := [Header.Header(Header.ContentType, "text/plain; charset=utf-8")])), [])
    case Handle(Panic(req, message)) => (Replied(server.errorHandler(req, message)), [ErrorHandlerRan])
    case Io(text) => (Replied(TextReply(500, text)), [])
  }

  // ---- The specification: recursion over the middleware, last registered first

  datatype PreEnd = Through | Sent(reply: Reply) | Crashed(message: string)
  datatype PreResult = PreResult(req: Incoming, end: PreEnd, trace: seq<Event>)
  datatype PostResult = PostResult(res: Outgoing, end: PreEnd, trace: seq<Event>)

  /** The pre hooks of the first `n` middleware, from number `n - 1` down. */
  function RunPre(ms: seq<Middleware>, n: nat, req: Incoming): PreResult
    requires n <= |ms|
  {
    if n == 0 then PreResult(req, Through, [])
    else match ms[n - 1].pre(req)
         case PrePanic(r, message) => PreResult(r, Crashed(message), [PreRan(n - 1)])
         case PreDone(r, Send(reply)) => PreResult(r, Sent(reply), [PreRan(n - 1)])
         case PreDone(r, Abort) => PreResult(r, Through, [PreRan(n - 1)])
         case PreDone(r, Continue) =>
           var rest := RunPre(ms, n - 1, r);
           rest.(trace := [PreRan(n - 1)] + rest.trace)
  }

  function RunPost(ms: seq<Middleware>, n: nat, req: Incoming, res: Outgoing): PostResult
    requires n <= |ms|
  {
    if n == 0 then PostResult(res, Through, [])
    else match ms[n - 1].post(req, res)
         case PostPanic(message) => PostResult(res, Crashed(message), [PostRan(n - 1)])
         case PostDone(r, Send(reply)) => PostResult(r, Sent(reply), [PostRan(n - 1)])
         case PostDone(r, Abort) => PostResult(r, Through, [PostRan(n - 1)])
         case PostDone(r, Continue) =>
           var rest := RunPost(ms, n - 1, req, r);
           rest.(trace := [PostRan(n - 1)] + rest.trace)
  }

  function RouteMatch(route: Route, req: Req): Option<Path.Params> {
    if route.verb != ANY && route.verb != req.request.line.verb then None
    else Path.MatchResult(route.path, req.request.line.path)
  }

  /** The last registered route that matches. */
  function LastMatch(routes: seq<Route>, req: Req): (i: Option<nat>)
    ensures i.Some? ==> i.value < |routes| && RouteMatch(routes[i.value], req).Some?
    ensures i.Some? ==> forall k :: i.value < k < |routes| ==> RouteMatch(routes[k], req).None?
    ensures i.None? ==> forall k :: 0 <= k < |routes| ==> RouteMatch(routes[k], req).None?
  {
    if routes == [] then None
    else
      var last := |routes| - 1;
      if RouteMatch(routes[last], req).Some? then Some(last) else LastMatch(routes[..last], req)
  }

  function CallHandler(handler: Handler, server: Server, req: Req): HandlerOutcome {
    match handler
    case Stateless(run) => run(req)
    case Stateful(run) => if server.hasState then run(req) else Panicked("State not initialized")
  }

  /** The request with its parameters filled in, the result, and the handler that ran. */
  function RunRoute(server: Server, req: Req): (Req, Outgoing, seq<Event>) {
    match LastMatch(server.routes, req)
    case None => (req, Err(Handle(NotFound(req.request.line.verb, req.request.line.path))), [])
    case Some(i) =>
      var matched := req.(params := RouteMatch(server.routes[i], req).value);
      match CallHandler(server.routes[i].handler, server, matched)
      case Returned(reply) => (matched, Ok(reply), [HandlerRan(i)])
      case Panicked(message) => (matched, Err(Handle(Panic(Ok(matched), message))), [HandlerRan(i)])
  }

  function Kept(req: Incoming): Option<Req> {
    match req
    case Ok(r) => Some(r)
    case Err(_) => None
  }

  /** A hook panicked: the error handler answers, and the request is kept. */
  function CrashAnswer(server: Server, req: Incoming, message: string, trace: seq<Event>): Answer {
    Answer(Kept(req), Replied(server.errorHandler(req, message)), trace + [ErrorHandlerRan])
  }

  /** Routing, unless a pre hook has sent a reply already or there is no request to route. */
  function Routed(server: Server, pre: PreResult): (Incoming, Outgoing, seq<Event>) {
    match pre.end
    case Sent(reply) => (pre.req, Ok(reply), [])
    case _ =>
      match pre.req
      case Err(_) => (pre.req, Err(Absent), [])
      case Ok(r) => var (r', res, trace) := RunRoute(server, r); (Ok(r'), res, trace)
  }

  /** The answer once the post hooks are done. */
  function Finish(server: Server, req: Incoming, post: PostResult, trace: seq<Event>): Answer {
    match post.end
    case Crashed(message) => CrashAnswer(server, req, message, trace)
    case Sent(reply) => Answer(Kept(req), Replied(reply), trace)
    case Through =>
      match post.res
      case Ok(reply) => Answer(Kept(req), Replied(reply), trace)
      case Err(e) =>
        var (outcome, more) := ErrorResponse(if req.Err? then req.error else e, server);
        Answer(None, outcome, trace + more)
  }

  function ResponseTo(server: Server, incoming: Incoming): Answer {
    var n := |server.middleware|;
    var pre := RunPre(server.middleware, n, incoming);
    if pre.end.Crashed? then CrashAnswer(server, pre.req, pre.end.message, pre.trace)
    else
      var (req, res, routed) := Routed(server, pre);
      var post := RunPost(server.middleware, n, req, res);
      Finish(server, req, post, pre.trace + routed + post.trace)
  }

  // ---- The loops

  method HandleRoute(server: Server, req: Req) returns (out: Req, res: Outgoing, trace: seq<Event>)
    ensures (out, res, trace) == RunRoute(server, req)
  {
    var i: nat := |server.routes|;
    assert server.routes[..i] == server.routes;
    while i > 0
      invariant i <= |server.routes|
      invariant LastMatch(server.routes, req) == LastMatch(server.routes[..i], req)
    {
      assert server.routes[..i][i - 1] == server.routes[i - 1];
      i := i - 1;
      assert server.routes[..i + 1][..i] == server.routes[..i];
      var params := RouteMatch(server.routes[i], req);
      if params.Some? {
        var matched := req.(params := params.value);
        var result := CallHandler(server.routes[i].handler, server, matched);
        trace := [HandlerRan(i)];
        match result {
          case Returned(reply) => return matched, Ok(reply), trace;
          case Panicked(message) => return matched, Err(Handle(Panic(Ok(matched), message))), trace;
        }
      }
    }
    assert server.routes[..0] == [];
    return req, Err(Handle(NotFound(req.request.line.verb, req.request.line.path))), [];
  }

  function PreAfter(trace: seq<Event>, r: PreResult): PreResult {
    r.(trace := trace + r.trace)
  }

  function PostAfter(trace: seq<Event>, r: PostResult): PostResult {
    r.(trace := trace + r.trace)
  }

  lemma PreStep(trace: seq<Event>, ms: seq<Middleware>, n: nat, req: Incoming)
    requires 0 < n <= |ms|
    ensures var after := trace + [PreRan(n - 1)];
            PreAfter(trace, RunPre(ms, n, req)) ==
            match ms[n - 1].pre(req) {
              case PrePanic(r, message) => PreResult(r, Crashed(message), after)
              case PreDone(r, Send(reply)) => PreResult(r, Sent(reply), after)
              case PreDone(r, Abort) => PreResult(r, Through, after)
              case PreDone(r, Continue) => PreAfter(after, RunPre(ms, n - 1, r))
            }
  {
    match ms[n - 1].pre(req) {
      case PreDone(r, Continue) =>
        var rest := RunPre(ms, n - 1, r).trace;
        assert trace + ([PreRan(n - 1)] + rest) == (trace + [PreRan(n - 1)]) + rest;
      case _ =>
    }
  }

  lemma PostStep(trace: seq<Event>, ms: seq<Middleware>, n: nat, req: Incoming, res: Outgoing)
    requires 0 < n <= |ms|
    ensures var after := trace + [PostRan(n - 1)];
            PostAfter(trace, RunPost(ms, n, req, res)) ==
            match ms[n - 1].post(req, res) {
              case PostPanic(message) => PostResult(res, Crashed(message), after)
              case PostDone(r, Send(reply)) => PostResult(r, Sent(reply), after)
              case PostDone(r, Abort) => PostResult(r, Through, after)
              case PostDone(r, Continue) => PostAfter(after, RunPost(ms, n - 1, req, r))
            }
  {
    match ms[n - 1].post(req, res) {
      case PostDone(r, Continue) =>
        var rest := RunPost(ms, n - 1, req, r).trace;
        assert trace + ([PostRan(n - 1)] + rest) == (trace + [PostRan(n - 1)]) + rest;
      case _ =>
    }
  }

  method PreHooks(ms: seq<Middleware>, incoming: Incoming) returns (r: PreResult)
    ensures r == RunPre(ms, |ms|, incoming)
  {
    var req, trace := incoming, [];
    var i: nat := |ms|;
    while i > 0
      invariant i <= |ms|
      invariant RunPre(ms, |ms|, incoming) == PreAfter(trace, RunPre(ms, i, req))
    {
      PreStep(trace, ms, i, req);
      i := i - 1;
      trace := trace + [PreRan(i)];
      match ms[i].pre(req) {
        case PrePanic(r, message) => return PreResult(r, Crashed(message), trace);
        case PreDone(r, Send(reply)) => return PreResult(r, Sent(reply), trace);
        case PreDone(r, Abort) => return PreResult(r, Through, trace);
        case PreDone(r, Continue) => req := r;
      }
    }
    assert trace + [] == trace;
    return PreResult(req, Through, trace);
  }

  method PostHooks(ms: seq<Middleware>, req: Incoming, initial: Outgoing) returns (r: PostResult)
    ensures r == RunPost(ms, |ms|, req, initial)
  {
    var res, trace := initial, [];
    var i: nat := |ms|;
    while i > 0
      invariant i <= |ms|
      invariant RunPost(ms, |ms|, req, initial) == PostAfter(trace, RunPost(ms, i, req, res))
    {
      PostStep(trace, ms, i, req, res);
      i := i - 1;
      trace := trace + [PostRan(i)];
      match ms[i].post(req, res) {
        case PostPanic(message) => return PostResult(res, Crashed(message), trace);
        case PostDone(r, Send(reply)) => return PostResult(r, Sent(reply), trace);
        case PostDone(r, Abort) => return PostResult(r, Through, trace);
        case PostDone(r, Continue) => res := r;
      }
    }
    assert trace + [] == trace;
    return PostResult(res, Through, trace);
  }

  method GetResponse(server: Server, incoming: Incoming) returns (a: Answer)
    ensures a == ResponseTo(server, incoming)
  {
    var pre := PreHooks(server.middleware, incoming);
    if pre.end.Crashed? {
      return CrashAnswer(server, pre.req, pre.end.message, pre.trace);
    }
    var req, res: Outgoing, routed: seq<Event> := pre.req, Err(Absent), [];
    if pre.end.Sent? {
      res := Ok(pre.end.reply);
    }
    if res.Err? && req.Ok? {
      var r;
      r, res, routed := HandleRoute(server, req.value);
      req := Ok(r);
    }
    var post := PostHooks(server.middleware, req, res);
    return Finish(server, req, post, pre.trace + routed + post.trace);
  }

  // ---- Who runs, and in which order

  predicate IsHandler(e: Event) { e.HandlerRan? }

  predicate IsPost(e: Event) { e.PostRan? }

  function Filter(trace: seq<Event>, p: Event -> bool): seq<Event> {
    if trace == [] then [] else (if p(trace[0]) then [trace[0]] else []) + Filter(trace[1..], p)
  }

  lemma FilterCons(e: Event, rest: seq<Event>, p: Event -> bool)
    ensures Filter([e] + rest, p) == (if p(e) then [e] else []) + Filter(rest, p)
  {
    assert ([e] + rest)[1..] == rest;
  }

  lemma {:induction false} FilterAppend(a: seq<Event>, b: seq<Event>, p: Event -> bool)
    ensures Filter(a + b, p) == Filter(a, p) + Filter(b, p)
  {
    if a == [] {
      assert a + b == b;
    } else {
      assert a == [a[0]] + a[1..] && a + b == [a[0]] + (a[1..] + b);
      FilterCons(a[0], a[1..], p);
      FilterCons(a[0], a[1..] + b, p);
      FilterAppend(a[1..], b, p);
    }
  }

  lemma {:induction false} FilterAll(a: seq<Event>, p: Event -> bool)
    ensures (forall e :: e in a ==> p(e)) ==> Filter(a, p) == a
    ensures (forall e :: e in a ==> !p(e)) ==> Filter(a, p) == []
  {
    if a != [] {
      assert a == [a[0]] + a[1..];
      FilterAll(a[1..], p);
    }
  }

  /** Hooks `n - 1`, `n - 2`, ..., `k` of them. */
  function PreDown(n: nat, k: nat): seq<Event>
    requires k <= n
  {
    seq(k, j requires 0 <= j < k => PreRan(n - 1 - j))
  }

  function PostDown(n: nat, k: nat): seq<Event>
    requires k <= n
  {
    seq(k, j requires 0 <= j < k => PostRan(n - 1 - j))
  }

  lemma {:induction false} PreOrder(ms: seq<Middleware>, n: nat, req: Incoming)
    requires n <= |ms|
    ensures var t := RunPre(ms, n, req).trace;
            |t| <= n && (n > 0 ==> |t| > 0) && t == PreDown(n, |t|)
  {
    if n > 0 && ms[n - 1].pre(req).PreDone? && ms[n - 1].pre(req).verdict.Continue? {
      PreOrder(ms, n - 1, ms[n - 1].pre(req).req);
    }
  }

  lemma {:induction false} PostOrder(ms: seq<Middleware>, n: nat, req: Incoming, res: Outgoing)
    requires n <= |ms|
    ensures var t := RunPost(ms, n, req, res).trace;
            |t| <= n && (n > 0 ==> |t| > 0) && t == PostDown(n, |t|)
  {
    if n > 0 && ms[n - 1].post(req, res).PostDone? && ms[n - 1].post(req, res).verdict.Continue? {
      PostOrder(ms, n - 1, req, ms[n - 1].post(req, res).res);
    }
  }

  /** What follows the hooks in a trace: at most a call of the error handler. */
  lemma FinishTrace(server: Server, req: Incoming, post: PostResult, trace: seq<Event>)
    ensures var t := Finish(server, req, post, trace).trace; t == trace || t == trace + [ErrorHandlerRan]
  {
    assert trace + [] == trace;
  }

  lemma FourParts(a: seq<Event>, b: seq<Event>, c: seq<Event>, d: seq<Event>)
    ensures ((a + b) + c) + d == a + (b + (c + d))
    ensures d == [] ==> ((a + b) + c) + d == (a + b) + c
  {
  }

  /** The answer's trace: pre hooks, at most one handler, post hooks, at most the error handler. */
  lemma TraceShape(server: Server, incoming: Incoming) returns (routed: seq<Event>, posts: seq<Event>, tail: seq<Event>)
    ensures var pre := RunPre(server.middleware, |server.middleware|, incoming);
            && ResponseTo(server, incoming).trace == pre.trace + (routed + (posts + tail))
            && (tail == [] || tail == [ErrorHandlerRan])
            && (if pre.end.Crashed? then routed == posts == []
                else routed == Routed(server, pre).2 &&
                     posts == RunPost(server.middleware, |server.middleware|,
                                      Routed(server, pre).0, Routed(server, pre).1).trace)
  {
    var n := |server.middleware|;
    var pre := RunPre(server.middleware, n, incoming);
    if pre.end.Crashed? {
      routed, posts, tail := [], [], [ErrorHandlerRan];
    } else {
      var (req, res, r) := Routed(server, pre);
      var post := RunPost(server.middleware, n, req, res);
      var whole := pre.trace + r + post.trace;
      routed, posts := r, post.trace;
      FinishTrace(server, req, post, whole);
      tail := if Finish(server, req, post, whole).trace == whole then [] else [ErrorHandlerRan];
      FourParts(pre.trace, routed, posts, tail);
    }
  }

  lemma FilterShape(a: seq<Event>, b: seq<Event>, c: seq<Event>, d: seq<Event>, p: Event -> bool)
    ensures Filter(a + (b + (c + d)), p) == Filter(a, p) + (Filter(b, p) + (Filter(c, p) + Filter(d, p)))
  {
    FilterAppend(a, b + (c + d), p);
    FilterAppend(b, c + d, p);
    FilterAppend(c, d, p);
  }

  lemma PreOnly(ms: seq<Middleware>, n: nat, req: Incoming)
    requires n <= |ms|
    ensures var t := RunPre(ms, n, req).trace; Filter(t, IsHandler) == [] && Filter(t, IsPost) == []
  {
    PreOrder(ms, n, req);
    FilterAll(RunPre(ms, n, req).trace, IsHandler);
    FilterAll(RunPre(ms, n, req).trace, IsPost);
  }

  lemma PostOnly(ms: seq<Middleware>, n: nat, req: Incoming, res: Outgoing)
    requires n <= |ms|
    ensures var t := RunPost(ms, n, req, res).trace; Filter(t, IsHandler) == [] && Filter(t, IsPost) == t
  {
    PostOrder(ms, n, req, res);
    FilterAll(RunPost(ms, n, req, res).trace, IsHandler);
    FilterAll(RunPost(ms, n, req, res).trace, IsPost);
  }

  lemma RoutedOnly(server: Server, pre: PreResult)
    ensures var t := Routed(server, pre).2; Filter(t, IsHandler) == t && Filter(t, IsPost) == []
  {
    FilterAll(Routed(server, pre).2, IsHandler);
    FilterAll(Routed(server, pre).2, IsPost);
  }

  lemma TailOnly(tail: seq<Event>)
    requires tail == [] || tail == [ErrorHandlerRan]
    ensures Filter(tail, IsHandler) == [] && Filter(tail, IsPost) == []
  {
    FilterAll(tail, IsHandler);
    FilterAll(tail, IsPost);
  }

  /** The handlers of a trace are what routing ran. */
  lemma TraceHandlers(server: Server, incoming: Incoming)
    ensures var pre := RunPre(server.middleware, |server.middleware|, incoming);
            Filter(ResponseTo(server, incoming).trace, IsHandler) ==
            if pre.end.Crashed? then [] else Routed(server, pre).2
  {
    var n := |server.middleware|;
    var pre := RunPre(server.middleware, n, incoming);
    var routed, posts, tail := TraceShape(server, incoming);
    FilterShape(pre.trace, routed, posts, tail, IsHandler);
    PreOnly(server.middleware, n, incoming);
    TailOnly(tail);
    if !pre.end.Crashed? {
      RoutedOnly(server, pre);
      PostOnly(server.middleware, n, Routed(server, pre).0, Routed(server, pre).1);
    }
    assert [] + (routed + ([] + [])) == routed;
  }

  /** The post hooks of a trace are those that the post phase ran. */
  lemma TracePosts(server: Server, incoming: Incoming)
    ensures var n := |server.middleware|;
            var pre := RunPre(server.middleware, n, incoming);
            Filter(ResponseTo(server, incoming).trace, IsPost) ==
            if pre.end.Crashed? then []
            else RunPost(server.middleware, n, Routed(server, pre).0, Routed(server, pre).1).trace
  {
    var n := |server.middleware|;
    var pre := RunPre(server.middleware, n, incoming);
    var routed, posts, tail := TraceShape(server, incoming);
    FilterShape(pre.trace, routed, posts, tail, IsPost);
    PreOnly(server.middleware, n, incoming);
    TailOnly(tail);
    if !pre.end.Crashed? {
      RoutedOnly(server, pre);
      PostOnly(server.middleware, n, Routed(server, pre).0, Routed(server, pre).1);
    }
    assert [] + ([] + (posts + [])) == posts;
  }

  /**
    Exactly one handler runs, the last registered match for the request that the pre hooks leave,
    when no pre hook has sent a reply or panicked and there is a request and a match; otherwise none.
    An `Abort` among the pre hooks therefore does not skip routing.
   */
  lemma HandlersRun(server: Server, incoming: Incoming)
    ensures var pre := RunPre(server.middleware, |server.middleware|, incoming);
            Filter(ResponseTo(server, incoming).trace, IsHandler) ==
            if pre.end.Through? && pre.req.Ok? && LastMatch(server.routes, pre.req.value).Some?
            then [HandlerRan(LastMatch(server.routes, pre.req.value).value)] else []
  {
    TraceHandlers(server, incoming);
  }

  /**
    Post hooks run, from the last registered down, for every answer except after a panic in a pre
    hook: a reply sent by a pre hook does not skip them.
   */
  lemma PostHooksRun(server: Server, incoming: Incoming)
    ensures var n := |server.middleware|;
            var pre := RunPre(server.middleware, n, incoming);
            var posts := Filter(ResponseTo(server, incoming).trace, IsPost);
            && |posts| <= n && posts == PostDown(n, |posts|)
            && (n > 0 ==> (posts == [] <==> pre.end.Crashed?))
  {
    TracePosts(server, incoming);
    var pre := RunPre(server.middleware, |server.middleware|, incoming);
    if !pre.end.Crashed? {
      PostOrder(server.middleware, |server.middleware|, Routed(server, pre).0, Routed(server, pre).1);
    }
  }

  // ---- Which handler

  lemma {:induction false} InFilter(trace: seq<Event>, e: Event, p: Event -> bool)
    ensures e in trace && p(e) <==> e in Filter(trace, p)
  {
    if trace != [] {
      InFilter(trace[1..], e, p);
      assert trace == [trace[0]] + trace[1..];
    }
  }

  /** The route is for this method, or for any, and its pattern fits the path. */
  predicate Serves(route: Route, line: RequestLine.RequestLine) {
    (route.verb == ANY || route.verb == line.verb) && Path.Fits(route.path.parts, Path.Segments(line.path))
  }

  lemma RouteMatchServes(route: Route, req: Req)
    ensures RouteMatch(route, req).Some? <==> Serves(route, req.request.line)
    ensures RouteMatch(route, req).Some? ==>
              RouteMatch(route, req).value == Path.Filled(route.path.parts, Path.Segments(req.request.line.path))
  {
    Path.MatchedWhen(route.path.parts, Path.Segments(req.request.line.path));
    Path.MatchedFills(route.path.parts, Path.Segments(req.request.line.path));
  }

  /** What the handler of a route makes of a request. */
  function Handled(server: Server, route: Route, req: Req): Outgoing {
    if route.handler.Stateful? && !server.hasState then Err(Handle(Panic(Ok(req), "State not initialized")))
    else
      match route.handler.run(req)
      case Returned(reply) => Ok(reply)
      case Panicked(message) => Err(Handle(Panic(Ok(req), message)))
  }

  /**
    A handler that runs is that of a route for the method and the path of the request, and of the last such
    route; it is given the parameters in the path, and what it returns is the result.
   */
  lemma {:induction false} HandlerServes(server: Server, incoming: Incoming, i: nat)
    requires HandlerRan(i) in ResponseTo(server, incoming).trace
    ensures var pre := RunPre(server.middleware, |server.middleware|, incoming);
            && pre.req.Ok? && i < |server.routes|
            && var line, route := pre.req.value.request.line, server.routes[i];
               var given := pre.req.value.(params := Path.Filled(route.path.parts, Path.Segments(line.path)));
               && Serves(route, line)
               && (forall k :: i < k < |server.routes| ==> !Serves(server.routes[k], line))
               && Routed(server, pre).0 == Ok(given)
               && Routed(server, pre).1 == Handled(server, route, given)
  {
    HandlersRun(server, incoming);
    InFilter(ResponseTo(server, incoming).trace, HandlerRan(i), IsHandler);
    var pre := RunPre(server.middleware, |server.middleware|, incoming);
    var req := pre.req.value;
    forall k | 0 <= k < |server.routes|
      ensures RouteMatch(server.routes[k], req).Some? <==> Serves(server.routes[k], req.request.line)
    {
      RouteMatchServes(server.routes[k], req);
    }
    RouteMatchServes(server.routes[i], pre.req.value);
  }

  /** If routing runs no handler, no route is for the method and the path, and the result says so. */
  lemma {:induction false} NoneServes(server: Server, incoming: Incoming)
    requires var pre := RunPre(server.middleware, |server.middleware|, incoming); pre.end.Through? && pre.req.Ok?
    requires forall i :: HandlerRan(i) !in ResponseTo(server, incoming).trace
    ensures var pre := RunPre(server.middleware, |server.middleware|, incoming);
            var line := pre.req.value.request.line;
            && (forall k :: 0 <= k < |server.routes| ==> !Serves(server.routes[k], line))
            && Routed(server, pre).1 == Err(Handle(NotFound(line.verb, line.path)))
  {
    HandlersRun(server, incoming);
    var pre := RunPre(server.middleware, |server.middleware|, incoming);
    var last := LastMatch(server.routes, pre.req.value);
    if last.Some? {
      InFilter(ResponseTo(server, incoming).trace, HandlerRan(last.value), IsHandler);
    }
    forall k | 0 <= k < |server.routes| ensures !Serves(server.routes[k], pre.req.value.request.line) {
      RouteMatchServes(server.routes[k], pre.req.value);
    }
  }

  // ---- What a hook's verdict does

  /** Pre hook `i` is called, with `q`. */
  predicate PreCalled(ms: seq<Middleware>, n: nat, req: Incoming, i: nat, q: Incoming): (called: bool)
    requires n <= |ms|
    ensures called ==> i < n
  {
    n > 0 &&
    if i == n - 1 then q == req
    else match ms[n - 1].pre(req)
         case PreDone(r, Continue) => PreCalled(ms, n - 1, r, i, q)
         case _ => false
  }

  /** Post hook `i` is called, with the result `q`. */
  predicate PostCalled(ms: seq<Middleware>, n: nat, req: Incoming, res: Outgoing, i: nat, q: Outgoing): (called: bool)
    requires n <= |ms|
    ensures called ==> i < n
  {
    n > 0 &&
    if i == n - 1 then q == res
    else match ms[n - 1].post(req, res)
         case PostDone(r, Continue) => PostCalled(ms, n - 1, req, r, i, q)
         case _ => false
  }

  lemma DownStep(n: nat, k: nat)
    requires 0 < k <= n
    ensures PreDown(n, k) == [PreRan(n - 1)] + PreDown(n - 1, k - 1)
    ensures PostDown(n, k) == [PostRan(n - 1)] + PostDown(n - 1, k - 1)
  {
  }

  /** The pre phase ends with the first hook that does not continue. */
  lemma {:induction false} PreEnds(ms: seq<Middleware>, n: nat, req: Incoming, i: nat, q: Incoming)
    requires n <= |ms| && PreCalled(ms, n, req, i, q)
    ensures match ms[i].pre(q) {
              case PrePanic(r, message) => RunPre(ms, n, req) == PreResult(r, Crashed(message), PreDown(n, n - i))
              case PreDone(r, Send(reply)) => RunPre(ms, n, req) == PreResult(r, Sent(reply), PreDown(n, n - i))
              case PreDone(r, Abort) => RunPre(ms, n, req) == PreResult(r, Through, PreDown(n, n - i))
              case PreDone(r, Continue) =>
                if i == 0 then RunPre(ms, n, req) == PreResult(r, Through, PreDown(n, n))
                else PreCalled(ms, n, req, i - 1, r)
            }
  {
    if i == n - 1 {
      assert PreDown(n, 1) == [PreRan(n - 1)] && PreDown(n - 1, 0) == [];
    } else {
      PreEnds(ms, n - 1, ms[n - 1].pre(req).req, i, q);
      DownStep(n, n - i);
    }
  }

  /** So does the post phase. */
  lemma {:induction false} PostEnds(ms: seq<Middleware>, n: nat, req: Incoming, res: Outgoing, i: nat, q: Outgoing)
    requires n <= |ms| && PostCalled(ms, n, req, res, i, q)
    ensures match ms[i].post(req, q) {
              case PostPanic(message) =>
                RunPost(ms, n, req, res).end == Crashed(message) && RunPost(ms, n, req, res).trace == PostDown(n, n - i)
              case PostDone(r, Send(reply)) =>
                RunPost(ms, n, req, res) == PostResult(r, Sent(reply), PostDown(n, n - i))
              case PostDone(r, Abort) => RunPost(ms, n, req, res) == PostResult(r, Through, PostDown(n, n - i))
              case PostDone(r, Continue) =>
                if i == 0 then RunPost(ms, n, req, res) == PostResult(r, Through, PostDown(n, n))
                else PostCalled(ms, n, req, res, i - 1, r)
            }
  {
    if i == n - 1 {
      assert PostDown(n, 1) == [PostRan(n - 1)] && PostDown(n - 1, 0) == [];
    } else {
      PostEnds(ms, n - 1, req, ms[n - 1].post(req, res).res, i, q);
      DownStep(n, n - i);
    }
  }

  /**
    A pre hook that is called and panics is the last hook that runs; the error handler answers for it,
    with the panic's message, and the request is kept as the hook left it.
   */
  lemma {:induction false} PrePanicIsAnswered(server: Server, incoming: Incoming, i: nat, q: Incoming)
    requires PreCalled(server.middleware, |server.middleware|, incoming, i, q)
    requires server.middleware[i].pre(q).PrePanic?
    ensures var PrePanic(req, message) := server.middleware[i].pre(q);
            ResponseTo(server, incoming) ==
            Answer(Kept(req), Replied(server.errorHandler(req, message)),
                   PreDown(|server.middleware|, |server.middleware| - i) + [ErrorHandlerRan])
  {
    PreEnds(server.middleware, |server.middleware|, incoming, i, q);
  }

  /** So is a post hook, after all that ran before it. */
  lemma PostPanicIsAnswered(server: Server, incoming: Incoming, i: nat, q: Outgoing)
    requires !RunPre(server.middleware, |server.middleware|, incoming).end.Crashed?
    requires var (req, res, _) := Routed(server, RunPre(server.middleware, |server.middleware|, incoming));
             PostCalled(server.middleware, |server.middleware|, req, res, i, q) &&
             server.middleware[i].post(req, q).PostPanic?
    ensures var n := |server.middleware|;
            var pre := RunPre(server.middleware, n, incoming);
            var (req, res, routed) := Routed(server, pre);
            ResponseTo(server, incoming) ==
            Answer(Kept(req), Replied(server.errorHandler(req, server.middleware[i].post(req, q).message)),
                   pre.trace + routed + PostDown(n, n - i) + [ErrorHandlerRan])
  {
    var (req, res, routed) := Routed(server, RunPre(server.middleware, |server.middleware|, incoming));
    PostEnds(server.middleware, |server.middleware|, req, res, i, q);
  }

  /** The reply that a called post hook sends is the answer, whatever the result was, and no further hook runs. */
  lemma PostReplyIsAnswer(server: Server, incoming: Incoming, i: nat, q: Outgoing)
    requires !RunPre(server.middleware, |server.middleware|, incoming).end.Crashed?
    requires var (req, res, _) := Routed(server, RunPre(server.middleware, |server.middleware|, incoming));
             PostCalled(server.middleware, |server.middleware|, req, res, i, q) &&
             server.middleware[i].post(req, q).PostDone? && server.middleware[i].post(req, q).verdict.Send?
    ensures var n := |server.middleware|;
            var pre := RunPre(server.middleware, n, incoming);
            var (req, res, routed) := Routed(server, pre);
            ResponseTo(server, incoming) ==
            Answer(Kept(req), Replied(server.middleware[i].post(req, q).verdict.reply),
                   pre.trace + routed + PostDown(n, n - i))
  {
    var (req, res, routed) := Routed(server, RunPre(server.middleware, |server.middleware|, incoming));
    PostEnds(server.middleware, |server.middleware|, req, res, i, q);
  }

  /** Otherwise the result that the post hooks leave is the answer. */
  lemma {:induction false} ResultIsAnswer(server: Server, incoming: Incoming)
    requires !RunPre(server.middleware, |server.middleware|, incoming).end.Crashed?
    ensures var n := |server.middleware|;
            var (req, res, _) := Routed(server, RunPre(server.middleware, n, incoming));
            var post := RunPost(server.middleware, n, req, res);
            post.end.Through? && post.res.Ok? ==>
              ResponseTo(server, incoming).outcome == Replied(post.res.value) &&
              ResponseTo(server, incoming).req == Kept(req)
  {
    var (req, res, routed) := Routed(server, RunPre(server.middleware, |server.middleware|, incoming));
  }

  // ---- `unreachable!` is not reached

  predicate Benign(e: Fault) {
    !e.Absent? && !e.Startup?
  }

  predicate GoodRequest(req: Incoming) {
    req.Err? ==> Benign(req.error)
  }

  predicate GoodResult(res: Outgoing) {
    res.Err? ==> Benign(res.error)
  }

  /** The hook is given a good request and leaves an absent or a startup error in its place. */
  predicate PreStores(m: Middleware, q: Incoming) {
    GoodRequest(q) && m.pre(q).PreDone? && !GoodRequest(m.pre(q).req)
  }

  /** For a request, the hook changes a good result to an absent or a startup error, and sends no other. */
  predicate PostStores(m: Middleware, req: Incoming, q: Outgoing) {
    req.Ok? && GoodResult(q) &&
    match m.post(req, q)
    case PostDone(res, verdict) => !verdict.Send? && !GoodResult(res)
    case PostPanic(_) => false
  }

  /** The error that is left when both phases are through: the request's, or else the result's. */
  function ErrorLeft(server: Server, incoming: Incoming): Option<Fault> {
    var n := |server.middleware|;
    var pre := RunPre(server.middleware, n, incoming);
    if pre.end.Crashed? then None
    else
      var (req, res, _) := Routed(server, pre);
      var post := RunPost(server.middleware, n, req, res);
      if !post.end.Through? || post.res.Ok? then None
      else Some(if req.Err? then req.error else post.res.error)
  }

  /** It is reached exactly if the hooks leave an absent or a startup error. */
  lemma StoredErrorPanics(server: Server, incoming: Incoming)
    ensures ResponseTo(server, incoming).outcome.Unreachable? <==>
            ErrorLeft(server, incoming).Some? && !Benign(ErrorLeft(server, incoming).value)
  {
    var pre := RunPre(server.middleware, |server.middleware|, incoming);
    if !pre.end.Crashed? {
      FinishPanics(server, Routed(server, pre).0,
                   RunPost(server.middleware, |server.middleware|, Routed(server, pre).0, Routed(server, pre).1),
                   pre.trace + Routed(server, pre).2);
    }
  }

  lemma FinishPanics(server: Server, req: Incoming, post: PostResult, trace: seq<Event>)
    ensures Finish(server, req, post, trace).outcome.Unreachable? <==>
            post.end.Through? && post.res.Err? && !Benign(if req.Err? then req.error else post.res.error)
  {
  }

  lemma {:induction false} PreBlame(ms: seq<Middleware>, n: nat, req: Incoming) returns (i: nat, q: Incoming)
    requires n <= |ms| && GoodRequest(req)
    requires !RunPre(ms, n, req).end.Crashed? && !GoodRequest(RunPre(ms, n, req).req)
    ensures PreCalled(ms, n, req, i, q) && PreStores(ms[i], q)
  {
    if GoodRequest(ms[n - 1].pre(req).req) {
      i, q := PreBlame(ms, n - 1, ms[n - 1].pre(req).req);
    } else {
      i, q := n - 1, req;
    }
  }

  lemma {:induction false} PostBlame(ms: seq<Middleware>, n: nat, req: Incoming, res: Outgoing)
    returns (i: nat, q: Outgoing)
    requires n <= |ms| && req.Ok? && GoodResult(res)
    requires var post := RunPost(ms, n, req, res); post.end.Through? && !GoodResult(post.res)
    ensures PostCalled(ms, n, req, res, i, q) && PostStores(ms[i], req, q)
  {
    var r := ms[n - 1].post(req, res).res;
    if GoodResult(r) {
      i, q := PostBlame(ms, n - 1, req, r);
    } else {
      i, q := n - 1, res;
    }
  }

  ghost predicate SomePreStored(ms: seq<Middleware>, n: nat, req: Incoming)
    requires n <= |ms|
  {
    exists i: nat, q: Incoming :: PreCalled(ms, n, req, i, q) && PreStores(ms[i], q)
  }

  ghost predicate SomePostStored(ms: seq<Middleware>, n: nat, req: Incoming, res: Outgoing)
    requires n <= |ms|
  {
    exists i: nat, q: Outgoing :: PostCalled(ms, n, req, res, i, q) && PostStores(ms[i], req, q)
  }

  /** From a good request it is always a hook that was called and stored the error itself. */
  lemma {:induction false} SomeHookStored(server: Server, incoming: Incoming)
    requires GoodRequest(incoming) && ResponseTo(server, incoming).outcome.Unreachable?
    ensures var ms, n := server.middleware, |server.middleware|;
            var routed := Routed(server, RunPre(ms, n, incoming));
            SomePreStored(ms, n, incoming) || SomePostStored(ms, n, routed.0, routed.1)
  {
    StoredErrorPanics(server, incoming);
    var ms, n := server.middleware, |server.middleware|;
    var pre := RunPre(ms, n, incoming);
    if !GoodRequest(pre.req) {
      var i, q := PreBlame(ms, n, incoming);
    } else {
      var routed := Routed(server, pre);
      assert routed.0.Err? ==> routed.0 == pre.req;
      var i, q := PostBlame(ms, n, routed.0, routed.1);
    }
  }

  /** No hook of the middleware stores such an error. */
  ghost predicate Harmless(m: Middleware) {
    (forall q :: !PreStores(m, q)) && (forall req, q :: !PostStores(m, req, q))
  }

  /** With harmless middleware and a request or a reading error, there is always a reply. */
  lemma AlwaysReplies(server: Server, incoming: Incoming)
    requires forall i :: 0 <= i < |server.middleware| ==> Harmless(server.middleware[i])
    requires GoodRequest(incoming)
    ensures ResponseTo(server, incoming).outcome.Replied?
  {
    if ResponseTo(server, incoming).outcome.Unreachable? {
      SomeHookStored(server, incoming);
    }
  }

  /** Middleware `i` of the server is `m`, and the others are harmless. */
  ghost predicate InCompany(server: Server, i: nat, m: Middleware) {
    && i < |server.middleware| && server.middleware[i] == m
    && forall j :: 0 <= j < |server.middleware| && j != i ==> Harmless(server.middleware[j])
  }

  ghost predicate SafeInCompany(m: Middleware) {
    forall server: Server, i: nat, incoming: Incoming :: InCompany(server, i, m) && GoodRequest(incoming) ==>
      ResponseTo(server, incoming).outcome.Replied?
  }

  function Bare(middleware: seq<Middleware>): Server {
    Server(middleware, [], false, (req: Incoming, message: string) => TextReply(500, message), true)
  }

  /** It hands on the request `q` and then replaces every result by a benign error. */
  function PreCompanion(q: Incoming): Middleware {
    Middleware((req: Incoming) => PreDone(q, Continue),
               (req: Incoming, res: Outgoing) => PostDone(Err(Io("")), Abort), (req: Req, reply: Reply) => false)
  }

  /** It lets no other pre hook see the request `q`, and replaces every result by `res`. */
  function PostCompanion(q: Incoming, res: Outgoing): Middleware {
    Middleware((req: Incoming) => PreDone(q, Abort),
               (req: Incoming, r: Outgoing) => PostDone(res, Continue), (req: Req, reply: Reply) => false)
  }

  lemma PreStoresPanics(m: Middleware, q: Incoming)
    requires PreStores(m, q)
    ensures InCompany(Bare([m, PreCompanion(q)]), 0, m)
    ensures ResponseTo(Bare([m, PreCompanion(q)]), q).outcome.Unreachable?
  {
    var c := PreCompanion(q);
    var server := Bare([m, c]);
    var ms := server.middleware;
    assert ms[1] == c && ms[0] == m;
    assert RunPre(ms, 0, m.pre(q).req) == PreResult(m.pre(q).req, Through, []);
    var last := RunPre(ms, 1, q);
    assert last.req == m.pre(q).req && !last.end.Crashed?;
    assert ms[1].pre(q) == PreDone(q, Continue);
    var pre := RunPre(ms, 2, q);
    assert pre == last.(trace := [PreRan(1)] + last.trace);
    assert !pre.end.Crashed? && Routed(server, pre).0 == m.pre(q).req;
    var post := RunPost(ms, 2, Routed(server, pre).0, Routed(server, pre).1);
    assert post.res == Err(Io("")) && post.end.Through?;
    StoredErrorPanics(server, q);
  }

  lemma PostStoresPanics(m: Middleware, req: Req, res: Outgoing)
    requires PostStores(m, Ok(req), res)
    ensures InCompany(Bare([m, PostCompanion(Ok(req), res)]), 0, m)
    ensures ResponseTo(Bare([m, PostCompanion(Ok(req), res)]), Ok(req)).outcome.Unreachable?
  {
    var c := PostCompanion(Ok(req), res);
    var server := Bare([m, c]);
    var ms := server.middleware;
    assert ms[1] == c && ms[0] == m;
    var pre := RunPre(ms, 2, Ok(req));
    assert pre.req == Ok(req) && pre.end.Through?;
    assert Routed(server, pre).0 == Ok(req);
    var r := m.post(Ok(req), res).res;
    assert RunPost(ms, 0, Ok(req), r).res == r;
    assert RunPost(ms, 1, Ok(req), res).res == r && RunPost(ms, 1, Ok(req), res).end.Through?;
    assert RunPost(ms, 2, Ok(req), Routed(server, pre).1).res == r;
  }

  /** Exactly the harmless middleware can never make a server of otherwise harmless middleware panic. */
  lemma HarmlessIsSafe(m: Middleware)
    ensures Harmless(m) <==> SafeInCompany(m)
  {
    if Harmless(m) {
      forall server: Server, i: nat, incoming: Incoming | InCompany(server, i, m) && GoodRequest(incoming)
        ensures ResponseTo(server, incoming).outcome.Replied?
      {
        AlwaysReplies(server, incoming);
      }
    } else if q :| PreStores(m, q) {
      PreStoresPanics(m, q);
    } else {
      var req, q :| PostStores(m, req, q);
      assert req == Ok(req.value);
      PostStoresPanics(m, req.value, q);
      assert GoodRequest(req) && InCompany(Bare([m, PostCompanion(req, q)]), 0, m);
    }
  }

  /** A post hook can do it alone: a good request passes, and the hook stores such an error as the result. */
  lemma PostHookStores(server: Server, req: Req, e: Fault)
    requires !Benign(e) && |server.middleware| == 1
    requires server.middleware[0].pre(Ok(req)) == PreDone(Ok(req), Continue)
    requires forall q, res :: server.middleware[0].post(q, res) == PostDone(Err(e), Continue)
    ensures ResponseTo(server, Ok(req)).outcome.Unreachable?
  {
    var ms := server.middleware;
    var pre := RunPre(ms, 1, Ok(req));
    assert RunPre(ms, 0, Ok(req)) == PreResult(Ok(req), Through, []);
    assert pre.req == Ok(req) && pre.end == Through;
    var (r, res, _) := Routed(server, pre);
    assert RunPost(ms, 0, r, Err(e)) == PostResult(Err(e), Through, []);
    assert RunPost(ms, 1, r, res).res == Err(e);
    StoredErrorPanics(server, Ok(req));
  }

  lemma {:induction false} PostPasses(ms: seq<Middleware>, n: nat, req: Incoming, res: Outgoing)
    requires n <= |ms|
    requires forall i, q, r :: 0 <= i < |ms| ==> ms[i].post(q, r) == PostDone(r, Continue)
    ensures RunPost(ms, n, req, res).res == res && RunPost(ms, n, req, res).end.Through?
  {
    if n > 0 {
      PostPasses(ms, n - 1, req, res);
    }
  }

  /**
    A reply sent by a pre hook is the answer if the post hooks let it pass, and it keeps the request:
    unlike an error, it is followed by the end hooks.
   */
  lemma {:induction false} SentReplyKeepsRequest(server: Server, incoming: Incoming)
    requires forall i, req, res :: 0 <= i < |server.middleware| ==>
               server.middleware[i].post(req, res) == PostDone(res, Continue)
    ensures var pre := RunPre(server.middleware, |server.middleware|, incoming);
            pre.end.Sent? ==>
              && ResponseTo(server, incoming).outcome == Replied(pre.end.reply)
              && ResponseTo(server, incoming).req == Kept(pre.req)
  {
    var n := |server.middleware|;
    var pre := RunPre(server.middleware, n, incoming);
    PostPasses(server.middleware, n, Routed(server, pre).0, Routed(server, pre).1);
  }

  // ---- The connection loop

  /** What a connection sees: replies, the end hooks after them, and how it stops. */
  datatype Wire = Wrote(reply: Reply) | EndRan(i: nat) | Closed | Ended | Crash

  /** `to_lowercase`, as far as comparing with an ASCII word can tell: U+212A is the Kelvin sign. */
  function LowerAll(s: string): string {
    seq(|s|, i requires 0 <= i < |s| => if s[i] == '\U{212A}' then 'k' else Header.LowerChar(s[i]))
  }

  predicate WantsKeepAlive(incoming: Incoming) {
    incoming.Ok? &&
    match Header.Find(incoming.value.request.message.headers, Header.Connection)
    case None => false
    case Some(h) => LowerAll(h.value) == "keep-alive"
  }

  function EndDown(n: nat): seq<Wire> {
    if n == 0 then [] else [EndRan(n - 1)] + EndDown(n - 1)
  }

  /** One round of the loop, and whether the connection goes on. */
  function Round(server: Server, incoming: Incoming): (seq<Wire>, bool) {
    var a := ResponseTo(server, incoming);
    match a.outcome
    case Unreachable => ([Crash], false)
    case Replied(reply) =>
      if reply.flag.End? then ([Ended], false)
      else
        var sent := [Wrote(reply)] + (if a.req.Some? then EndDown(|server.middleware|) else []);
        if !WantsKeepAlive(incoming) || reply.flag.Close? || !server.keepAlive then (sent + [Closed], false)
        else (sent, true)
  }

  /** The requests that arrive on one connection, as far as they are read. */
  function Served(server: Server, incoming: seq<Incoming>): seq<Wire> {
    if incoming == [] then []
    else
      var (wire, more) := Round(server, incoming[0]);
      if more then wire + Served(server, incoming[1..]) else wire
  }

  method EndHooks(ms: seq<Middleware>, req: Req, reply: Reply) returns (wire: seq<Wire>)
    ensures wire == EndDown(|ms|)
  {
    wire := [];
    var i: nat := |ms|;
    while i > 0
      invariant i <= |ms|
      invariant wire + EndDown(i) == EndDown(|ms|)
    {
      i := i - 1;
      wire := wire + [EndRan(i)];
      // A panic is caught, and the remaining hooks still run.
      if ms[i].endPanics(req, reply) {
        continue;
      }
    }
  }

  method HandleOne(server: Server, incoming: Incoming) returns (wire: seq<Wire>, more: bool)
    ensures (wire, more) == Round(server, incoming)
  {
    var keepAlive := WantsKeepAlive(incoming);
    var a := GetResponse(server, incoming);
    if a.outcome.Unreachable? {
      return [Crash], false;
    }
    var reply := a.outcome.reply;
    if reply.flag == Response.End {
      return [Ended], false;
    }
    wire := [Wrote(reply)];
    assert wire + [] == wire;
    if a.req.Some? {
      var ends := EndHooks(server.middleware, a.req.value, reply);
      wire := wire + ends;
    }
    if !keepAlive || reply.flag == Response.Close || !server.keepAlive {
      return wire + [Closed], false;
    }
    more := true;
  }

  method HandleConnection(server: Server, incoming: seq<Incoming>) returns (wire: seq<Wire>)
    ensures wire == Served(server, incoming)
  {
    wire := [];
    var k := 0;
    assert incoming[0..] == incoming && [] + Served(server, incoming) == Served(server, incoming);
    while k < |incoming|
      invariant k <= |incoming|
      invariant wire + Served(server, incoming[k..]) == Served(server, incoming)
    {
      ServedStep(server, incoming, k, wire);
      var sent, more := HandleOne(server, incoming[k]);
      wire, k := wire + sent, k + 1;
      if !more {
        return;
      }
    }
  }

  lemma ServedStep(server: Server, incoming: seq<Incoming>, k: nat, wire: seq<Wire>)
    requires k < |incoming|
    ensures var (sent, more) := Round(server, incoming[k]);
            wire + Served(server, incoming[k..]) ==
            if more then (wire + sent) + Served(server, incoming[k + 1..]) else wire + sent
  {
    assert incoming[k..][0] == incoming[k] && incoming[k..][1..] == incoming[k + 1..];
  }

  /** The client and the server keep the connection alive, and there is a reply that does not stop it. */
  predicate KeepsOpen(server: Server, incoming: Incoming) {
    var outcome := ResponseTo(server, incoming).outcome;
    WantsKeepAlive(incoming) && server.keepAlive && outcome.Replied? && outcome.reply.flag.NoFlag?
  }

  predicate IsStop(w: Wire) {
    w.Closed? || w.Ended? || w.Crash?
  }

  predicate NoStop(wire: seq<Wire>) {
    forall w :: w in wire ==> !IsStop(w)
  }

  /** Exactly one stop, as the last thing. */
  predicate Stopped(wire: seq<Wire>) {
    wire != [] && IsStop(wire[|wire| - 1]) && NoStop(wire[..|wire| - 1])
  }

  lemma {:induction false} EndsDoNotStop(n: nat)
    ensures NoStop(EndDown(n))
  {
    if n > 0 {
      EndsDoNotStop(n - 1);
    }
  }

  lemma StopsLater(first: seq<Wire>, later: seq<Wire>)
    requires NoStop(first)
    ensures NoStop(later) ==> NoStop(first + later)
    ensures Stopped(later) ==> Stopped(first + later)
  {
    if later != [] {
      assert (first + later)[..|first + later| - 1] == first + later[..|later| - 1];
    }
  }

  /** A round that keeps the connection open sends no stop; any other sends one, last. */
  lemma RoundStops(server: Server, incoming: Incoming)
    ensures var (wire, more) := Round(server, incoming);
            && (more <==> KeepsOpen(server, incoming))
            && (if more then NoStop(wire) else Stopped(wire))
  {
    var a := ResponseTo(server, incoming);
    EndsDoNotStop(|server.middleware|);
    if a.outcome.Replied? {
      var ends := if a.req.Some? then EndDown(|server.middleware|) else [];
      StopsLater([Wrote(a.outcome.reply)], ends);
      StopsLater([Wrote(a.outcome.reply)] + ends, [Closed]);
    }
  }

  lemma {:induction false} EndDownIs(n: nat)
    ensures EndDown(n) == seq(n, i requires 0 <= i < n => EndRan(n - 1 - i))
  {
    if n > 0 {
      EndDownIs(n - 1);
    }
  }

  /**
    A round writes its reply; then all end hooks run, from the last registered down, if the request was
    kept; and then the connection is closed unless both sides keep it open.
   */
  lemma RoundSends(server: Server, incoming: Incoming)
    requires var a := ResponseTo(server, incoming); a.outcome.Replied? && !a.outcome.reply.flag.End?
    ensures var a, n := ResponseTo(server, incoming), |server.middleware|;
            Round(server, incoming).0 ==
            [Wrote(a.outcome.reply)]
            + (if a.req.Some? then seq(n, i requires 0 <= i < n => EndRan(n - 1 - i)) else [])
            + (if KeepsOpen(server, incoming) then [] else [Closed])
  {
    EndDownIs(|server.middleware|);
  }

  /** A reply that ends the connection is not written, and no hook runs after it or after the panic. */
  lemma RoundIsSilent(server: Server, incoming: Incoming)
    ensures var outcome := ResponseTo(server, incoming).outcome;
            && (outcome.Unreachable? <==> Round(server, incoming) == ([Crash], false))
            && (outcome.Replied? && outcome.reply.flag.End? <==> Round(server, incoming) == ([Ended], false))
  {
    var a := ResponseTo(server, incoming);
    if a.outcome.Replied? && !a.outcome.reply.flag.End? {
      assert Round(server, incoming).0[0] == Wrote(a.outcome.reply);
    }
  }

  /** The words `keep-alive` in any letter case, the Kelvin sign for the first letter included. */
  predicate SaysKeepAlive(value: string) {
    var word := "keep-alive";
    |value| == |word| &&
    forall i :: 0 <= i < |word| ==> Header.SameLetter(value[i], word[i]) || (i == 0 && value[i] == '\U{212A}')
  }

  lemma LowerSays(value: string)
    ensures LowerAll(value) == "keep-alive" <==> SaysKeepAlive(value)
  {
    var lower, word := LowerAll(value), "keep-alive";
    if lower == word {
      assert |value| == |lower|;
      forall i | 0 <= i < |word|
        ensures Header.SameLetter(value[i], word[i]) || (i == 0 && value[i] == '\U{212A}')
      {
        assert lower[i] == word[i];
      }
    }
  }

  /** A client keeps a connection alive only by saying so, in the first `Connection` header of its request. */
  lemma KeepAliveWhen(incoming: Incoming)
    ensures WantsKeepAlive(incoming) <==>
            incoming.Ok? &&
            var headers := incoming.value.request.message.headers;
            exists k: nat :: Header.FirstOf(headers, Header.Connection, k) && SaysKeepAlive(headers[k].value)
  {
    if incoming.Ok? {
      var headers := incoming.value.request.message.headers;
      if Header.Has(headers, Header.Connection) {
        var k := Header.FoundFirst(headers, Header.Connection);
        LowerSays(headers[k].value);
      }
      forall k: nat | Header.FirstOf(headers, Header.Connection, k)
        ensures Header.Find(headers, Header.Connection) == Some(headers[k])
      {
        Header.FirstFound(headers, Header.Connection, k);
        LowerSays(headers[k].value);
      }
    }
  }

  /** What the rounds of some requests send, one after the other. */
  function Rounds(server: Server, incoming: seq<Incoming>): seq<Wire> {
    if incoming == [] then [] else Round(server, incoming[0]).0 + Rounds(server, incoming[1..])
  }

  /** The number of requests that are answered: up to the first that does not keep the connection open. */
  function Answered(server: Server, incoming: seq<Incoming>): (k: nat)
    ensures k <= |incoming|
    ensures forall i :: 0 <= i < k - 1 ==> KeepsOpen(server, incoming[i])
    ensures k < |incoming| ==> k > 0 && !KeepsOpen(server, incoming[k - 1])
  {
    if incoming == [] then 0
    else if KeepsOpen(server, incoming[0]) then 1 + Answered(server, incoming[1..])
    else 1
  }

  lemma {:induction false} ServedIsRounds(server: Server, incoming: seq<Incoming>)
    ensures Served(server, incoming) == Rounds(server, incoming[..Answered(server, incoming)])
    decreases |incoming|
  {
    if incoming != [] {
      var k, rest := Answered(server, incoming), incoming[1..];
      RoundStops(server, incoming[0]);
      assert incoming[..k][0] == incoming[0] && incoming[..k][1..] == rest[..k - 1];
      if KeepsOpen(server, incoming[0]) {
        ServedIsRounds(server, rest);
      } else {
        assert Round(server, incoming[0]).0 + [] == Round(server, incoming[0]).0;
      }
    }
  }

  predicate AllKeepOpen(server: Server, incoming: seq<Incoming>) {
    incoming == [] || (KeepsOpen(server, incoming[0]) && AllKeepOpen(server, incoming[1..]))
  }

  lemma {:induction false} ServedStops(server: Server, incoming: seq<Incoming>)
    ensures var wire := Served(server, incoming); if AllKeepOpen(server, incoming) then NoStop(wire) else Stopped(wire)
    decreases |incoming|
  {
    if incoming != [] {
      RoundStops(server, incoming[0]);
      if KeepsOpen(server, incoming[0]) {
        ServedStops(server, incoming[1..]);
        StopsLater(Round(server, incoming[0]).0, Served(server, incoming[1..]));
      }
    }
  }

  /**
    A connection answers its requests in order up to the first that does not keep it open. It is stopped
    at most once, as the last thing that happens, and not while every request keeps it open.
   */
  lemma ConnectionStops(server: Server, incoming: seq<Incoming>)
    ensures Served(server, incoming) == Rounds(server, incoming[..Answered(server, incoming)])
    ensures var wire := Served(server, incoming); if AllKeepOpen(server, incoming) then NoStop(wire) else Stopped(wire)
  {
    ServedIsRounds(server, incoming);
    ServedStops(server, incoming);
  }

  /** A middleware whose hooks let everything pass. */
  ghost predicate Transparent(m: Middleware) {
    && (forall req :: m.pre(req) == PreDone(req, Continue))
    && (forall req, res :: m.post(req, res) == PostDone(res, Continue))
  }

  lemma {:induction false} TransparentRuns(ms: seq<Middleware>, n: nat, req: Incoming, res: Outgoing)
    requires n <= |ms| && forall i :: 0 <= i < |ms| ==> Transparent(ms[i])
    ensures RunPre(ms, n, req).req == req && RunPre(ms, n, req).end.Through?
    ensures RunPost(ms, n, req, res).res == res && RunPost(ms, n, req, res).end.Through?
  {
    if n > 0 {
      assert Transparent(ms[n - 1]);
      TransparentRuns(ms, n - 1, req, res);
    }
  }

  /**
    An error is answered without the request, so no end hook runs after it: behind transparent
    middleware that is so exactly for a request that was not read, has no route, or whose handler
    panicked.
   */
  lemma ErrorsSkipEndHooks(server: Server, incoming: Incoming)
    requires forall i :: 0 <= i < |server.middleware| ==> Transparent(server.middleware[i])
    ensures ResponseTo(server, incoming).req.None? <==>
            incoming.Err? || RunRoute(server, incoming.value).1.Err?
    ensures incoming.Ok? && LastMatch(server.routes, incoming.value).None? && server.middleware != [] ==>
            var a := ResponseTo(server, incoming);
            && a.req.None? && a.outcome.Replied? && a.outcome.reply.code == 404
            && (forall w :: w in Round(server, incoming).0 ==> !w.EndRan?)
  {
    var n := |server.middleware|;
    TransparentRuns(server.middleware, n, incoming, Err(Absent));
    var pre := RunPre(server.middleware, n, incoming);
    TransparentRuns(server.middleware, n, Routed(server, pre).0, Routed(server, pre).1);
  }

  /** What is sent to the client for a request that was not read, behind transparent middleware. */
  lemma ReadErrorReplies(server: Server, e: Fault)
    requires forall i :: 0 <= i < |server.middleware| ==> Transparent(server.middleware[i])
    ensures var outcome := ResponseTo(server, Err(e)).outcome;
            && (e == Stream(UnexpectedEof) ==> outcome == Replied(TextReply(400, "Unexpected EOF")))
            && (e == Parse(NoMethod) ==> outcome == Replied(TextReply(400, "No method")))
            && (e == Parse(NoVersion) ==> outcome == Replied(TextReply(400, "No HTTP version")))
            && (e == Parse(InvalidMethod) ==> outcome == Replied(TextReply(400, "Invalid method")))
            && (e == Parse(InvalidHeader) ==> outcome == Replied(TextReply(400, "Invalid header")))
            && (forall text :: e == Io(text) ==> outcome == Replied(TextReply(500, text)))
  {
    var n := |server.middleware|;
    TransparentRuns(server.middleware, n, Err(e), Err(Absent));
    var pre := RunPre(server.middleware, n, Err(e));
    TransparentRuns(server.middleware, n, Routed(server, pre).0, Routed(server, pre).1);
  }

  lemma Transparently(server: Server, req: Req)
    requires forall i :: 0 <= i < |server.middleware| ==> Transparent(server.middleware[i])
    ensures var (r, res, _) := RunRoute(server, req);
            ResponseTo(server, Ok(req)).outcome ==
            match res {
              case Ok(reply) => Replied(reply)
              case Err(e) => ErrorResponse(e, server).0
            }
  {
    var n := |server.middleware|;
    TransparentRuns(server.middleware, n, Ok(req), Err(Absent));
    var pre := RunPre(server.middleware, n, Ok(req));
    TransparentRuns(server.middleware, n, Routed(server, pre).0, Routed(server, pre).1);
  }

  /**
    Behind transparent middleware a request is answered with what the last route that serves it returns,
    or with the error handler's reply if that panics.
   */
  lemma RouteReplies(server: Server, req: Req, i: nat)
    requires forall k :: 0 <= k < |server.middleware| ==> Transparent(server.middleware[k])
    requires i < |server.routes| && Serves(server.routes[i], req.request.line)
    requires forall k :: i < k < |server.routes| ==> !Serves(server.routes[k], req.request.line)
    ensures var route := server.routes[i];
            var given := req.(params := Path.Filled(route.path.parts, Path.Segments(req.request.line.path)));
            ResponseTo(server, Ok(req)).outcome ==
            if route.handler.Stateful? && !server.hasState
            then Replied(server.errorHandler(Ok(given), "State not initialized"))
            else
              match route.handler.run(given) {
                case Returned(reply) => Replied(reply)
                case Panicked(message) => Replied(server.errorHandler(Ok(given), message))
              }
  {
    Transparently(server, req);
    forall k | 0 <= k < |server.routes|
      ensures RouteMatch(server.routes[k], req).Some? <==> Serves(server.routes[k], req.request.line)
    {
      RouteMatchServes(server.routes[k], req);
    }
    RouteMatchServes(server.routes[i], req);
    assert LastMatch(server.routes, req) == Some(i);
  }

  /** If no route serves it, the answer is 404 and names the method and the path. */
  lemma NoRouteReplies(server: Server, req: Req)
    requires forall k :: 0 <= k < |server.middleware| ==> Transparent(server.middleware[k])
    requires forall k :: 0 <= k < |server.routes| ==> !Serves(server.routes[k], req.request.line)
    ensures var text := "Cannot " + RequestLine.Name(req.request.line.verb) + " " + req.request.line.path;
            var headers := [Header.Header(Header.ContentType, "text/plain; charset=utf-8")];
            ResponseTo(server, Ok(req)).outcome == Replied(Reply(404, Response.Static(text), headers, Response.NoFlag))
  {
    Transparently(server, req);
    forall k | 0 <= k < |server.routes| ensures RouteMatch(server.routes[k], req).None? {
      RouteMatchServes(server.routes[k], req);
    }
  }
}
