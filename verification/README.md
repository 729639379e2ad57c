# afire, verified in Dafny

afire is a small synchronous HTTP server. This project models the parts of it that do more than call the
operating system and proves what they promise: the protocols between its threads (the worker pool, the rate
limiter, the event stream), the pipeline from a request through hooks and routes to a reply, the text codecs
and the router, the wire formats (response head, chunked body, multipart forms, server-sent events, WebSocket
frames, base64, SHA-1), and three small algorithms with real content (the calendar of the `Date` header, the
resolution of `..`, and the persistence of the quote book example).

Every loop and every object that changes in place is a method with a loop or a class with fields, proved equal
to a specification function; the properties are then lemmas about those functions, over all inputs, all runs or
all interleavings. `dafny verify dfyconfig.toml` checks everything.

| file | models |
|---|---|
| `ThreadPool.dfy` | the pool: one channel behind a lock, workers, kills and joins as one step relation, and as a class |
| `RateLimit.dfy` | the limiter in sequence (a class) and with its steps interleaved across workers |
| `Handle.dfy`, `Errors.dfy` | hooks, routing, error replies and the connection loop |
| `RequestLine.dfy`, `Request.dfy`, `Header.dfy`, `Path.dfy`, `Query.dfy`, `Url.dfy` | parsing a request and matching its path |
| `Response.dfy` | completing and writing a response; a chunked decoder |
| `Multipart.dfy` | splitting at a boundary and parsing the parts |
| `SseFormat.dfy`, `SseStream.dfy` | the text of events with a reference client, and the close protocol |
| `WebSocket.dfy`, `Octets.dfy` | frames and big-endian numbers |
| `Base64.dfy`, `Sha1.dfy` | the two encodings, against RFC 4648 and FIPS 180-4 |
| `QuoteStore.dfy`, `Date.dfy`, `SafePath.dfy` | the quote book, the `Date` header and `..` |
| `Text.dfy`, `Wrappers.dfy` | the string operations of the standard library that the server relies on |

## What is not as intended

The code is modelled as written. Where it departs from its intent, the property is stated with the exact
condition under which it holds, for all inputs:

- base64 decoding puts `+` and `/` in the mirrored position of their group. `decode(encode(b)) == Some(b)`
  exactly when every such character stands opposite an equal one (`Base64.RoundTrip`); without any it holds
  (`Base64.PlainRoundTrip`), and `+AAA` is a counterexample (`Base64.PlusIsMisread`).
- A WebSocket length from 126 to 65535 is written in eight bytes and read from two, as zero
  (`WebSocket.BandReadsNothing`, `WebSocket.RoundTrip`). The reader does follow the RFC (`WebSocket.ReadsTheRfc`).
- `url::encode` keeps only the low byte of a character, so the round trip holds exactly for Latin-1
  (`Url.RoundTrip`). `url::decode` accepts more than the triplets of RFC 3986: a string is made of those exactly
  if it decodes and no triplet starts with a sign (`Url.DecodesTriplets`), as `%+F` does (`Url.SignIsAccepted`).
- Splitting at a boundary that overlaps itself panics. A boundary is safe for all data exactly when it has no
  border (`Multipart.SafeBoundaries`). The data of a part keeps the line break before the next boundary
  and its filename keeps its quotes (`Multipart.FormRoundTrip`).
- The calendar has a leap year every four years and cuts the day number to 16 bits: the `Date` header is right
  exactly before 2100-03-01 (`Date.ImpDate`).
- SHA-1 fails for the 72 greatest message lengths that the standard allows, because the padded length overflows
  64 bits: it panics exactly from 2^61 - 72 bytes on (`Sha1.Hash`).
- A second `close` of an event stream never returns (`SseStream.OnlyTheFirstReturns`).
- The rate limit is a limit for every stretch as long as the timeout exactly if it is zero or the timeout is at
  most one second (`RateLimit.WindowLimit`); for every longer timeout some stretch admits twice the limit
  (`RateLimit.TwiceTheLimit`), and none more (`RateLimit.SlidingWindow`).
- Among the requests admitted since the latest clear, those that have not ended in an error number at most
  `limit + workers - 1` in every interleaving, a bound that is reached (`RateLimit.ConcurrentBound`,
  `RateLimit.BoundIsReached`). They keep the limit itself exactly if it is zero or there is one worker
  (`RateLimit.ConcurrentLimit`).
- A request that ends in an error is never counted: the number admitted since a clear is at most
  `limit + workers - 1` plus those that have failed since (`RateLimit.ConcurrentTotal`), and without that term it
  has no bound (`RateLimit.ErrorsAreNotCounted`).
- `unreachable!` in `error_response` is reached exactly if the hooks of both phases leave an absent or a startup
  error, the request's or else the result's (`Handle.StoredErrorPanics`). From a good request that is always
  the work of a hook that ran (`Handle.SomeHookStored`), and a post hook can do it alone
  (`Handle.PostHookStores`). A middleware is safe among harmless others exactly if its own hooks never store
  such an error (`Handle.HarmlessIsSafe`).
- A `Content-Length` of 2^63 or more panics while the body is allocated, outside any `catch_unwind`
  (`Request.FromSocket`, `Request.MessageOfBlock`).
- A form of the quote book is decoded twice: it is stored as filled in exactly if it is Latin-1 without `+` and `%`
  (`QuoteStore.DecodedTwice`).

## Model

| member | source | states |
|---|---|---|
| ThreadPool.StepInv | lib/thread_pool.rs:55-96 | every atomic step keeps the invariant: one lock holder, jobs started in submission order, every job queued, running or finished as often as submitted, no job behind a kill, as many kills outstanding as live workers |
| ThreadPool.RecordsFromStart | lib/thread_pool.rs:55-59 | what the channel is given in a run is the list of jobs of its execute actions, none dropped, added or moved |
| ThreadPool.Safety | lib/thread_pool.rs:37-96 | in every interleaving the jobs started are the first of those the run executed, in order; each of them is queued, running or finished exactly once, at most one worker receives, and no worker panics on the channel |
| ThreadPool.SendNeverFails | lib/thread_pool.rs:56-59 | whenever the owner sends, a worker still holds the receiver, so `send().unwrap()` cannot panic |
| ThreadPool.NextTurn | lib/thread_pool.rs:64-73 | once all kills are sent, some worker can take a step as long as a given worker has not stopped |
| ThreadPool.NextAction | lib/thread_pool.rs:83-95 | a drop never deadlocks: until it is over some thread has an enabled step |
| ThreadPool.StepDecreases | lib/thread_pool.rs:62-96 | from the start of a drop every step of every thread lowers the measure |
| ThreadPool.DropTerminates | lib/thread_pool.rs:83-96 | no run after the start of a drop is longer than the measure of its first state |
| ThreadPool.Drained | lib/thread_pool.rs:83-96 | a run that cannot go on has dropped the pool with an empty queue and all workers stopped, and has started exactly the jobs it executed, in order, and finished each of them |
| ThreadPool.ThreadPool.constructor | lib/thread_pool.rs:37-53 | the new pool is the initial state and meets the invariant |
| ThreadPool.ThreadPool.Execute | lib/thread_pool.rs:56-59 | the job goes to the end of the queue, and no other field changes |
| ThreadPool.ThreadPool.Turn | lib/thread_pool.rs:67-73 | one turn of a worker's loop is exactly one step of the relation |
| ThreadPool.ThreadPool.SendKills | lib/thread_pool.rs:86-88 | one kill per worker is sent while workers run in any order |
| ThreadPool.ThreadPool.JoinWorker | lib/thread_pool.rs:90-94 | joining a worker returns under every schedule |
| ThreadPool.ThreadPool.Drop | lib/thread_pool.rs:83-96 | under every schedule the drop returns with all workers stopped, the queue empty, and every job executed before it started in order and finished exactly once |
| RateLimit.RateLimiter.AddRequest | lib/extensions/ratelimit.rs:143-147 | one address is counted once more, the others keep their counts |
| RateLimit.RateLimiter.CheckReset | lib/extensions/ratelimit.rs:150-156 | the table is cleared and the time stored exactly when the last reset is a timeout or more ago, field by field |
| RateLimit.RateLimiter.Pre | lib/extensions/ratelimit.rs:158-173 | a request is stopped exactly when its address has reached the limit and the handler answers; nothing changes |
| RateLimit.RateLimiter.EndHook | lib/extensions/ratelimit.rs:175-178 | the request is counted after the table has been cleared if it was due |
| RateLimit.ClearsApart | lib/extensions/ratelimit.rs:150-156 | over every sequential run with a nondecreasing clock the clears are at least the timeout apart |
| RateLimit.BeforeClear | lib/extensions/ratelimit.rs:143-178 | until the next clear an address is admitted at most as often as its count leaves room |
| RateLimit.SlidingWindow | lib/extensions/ratelimit.rs:143-178 | any half-open interval as long as the timeout admits at most twice the limit per address |
| RateLimit.ClearedWhenDue | lib/extensions/ratelimit.rs:150-156 | in every sequential run a visit clears the table exactly if its end is a timeout or more after the latest clear before it, or after the initial time |
| RateLimit.KeepsTally | lib/extensions/ratelimit.rs:143-178 | the count of an address is the number of its visits since the latest clear |
| RateLimit.AdmittedBelowLimit | lib/extensions/ratelimit.rs:158-173 | an address is admitted exactly if it has made fewer visits than the limit since the latest clear |
| RateLimit.WindowLimit | lib/extensions/ratelimit.rs:143-178 | a fresh limiter admits at most the limit in every stretch of the timeout, in every ordered run, exactly if the limit is zero or the timeout at most one |
| RateLimit.TwiceTheLimit | lib/extensions/ratelimit.rs:143-178 | for every limit and every timeout of two or more, two bursts around a clear admit twice the limit in one stretch |
| RateLimit.StepBounded | lib/extensions/ratelimit.rs:143-178 | each interleaved step keeps the count of unfinished and counted requests within the bound |
| RateLimit.EndStepsAreEnd | lib/extensions/ratelimit.rs:175-178 | the interleaved steps of an end hook, undisturbed, do what the end hook does in sequence |
| RateLimit.ConcurrentBound | lib/extensions/ratelimit.rs:143-178 | in every interleaving at most limit + workers - 1 of the requests of an address admitted since the latest clear have not ended in an error, even if several workers clear the same window |
| RateLimit.BoundIsReached | lib/extensions/ratelimit.rs:143-178 | for every positive limit and number of workers and every timeout some interleaving reaches that bound |
| RateLimit.ConcurrentLimit | lib/extensions/ratelimit.rs:143-178 | the plain limit holds for those requests in every interleaving exactly if it is zero or there is one worker |
| RateLimit.ConcurrentTotal | lib/internal/handle.rs:37-79 | all requests of an address admitted since the clear are at most limit + workers - 1 plus those among them that have failed since |
| RateLimit.ErrorsAreNotCounted | lib/internal/handle.rs:129-138 | for every positive limit and every n some interleaving without a clear admits n requests, since an error reply skips the end hook |
| Handle.HandleRoute | lib/internal/handle.rs:147-178 | the loop over the routes finds the last registered match, stores its parameters and turns a panic into an error |
| Handle.PreHooks | lib/internal/handle.rs:97-108 | the loop of pre hooks equals the recursive specification of Continue, Abort, Send and panic |
| Handle.PostHooks | lib/internal/handle.rs:117-127 | the loop of post hooks equals its recursive specification |
| Handle.GetResponse | lib/internal/handle.rs:84-142 | the whole pipeline equals its recursive specification, reply, kept request and trace |
| Handle.PreOrder | lib/internal/handle.rs:98-108 | pre hooks run from the last registered down, without gaps |
| Handle.PostOrder | lib/internal/handle.rs:118-127 | post hooks run from the last registered down, without gaps |
| Handle.HandlersRun | lib/internal/handle.rs:110-115 | exactly one handler runs unless a pre hook sent a reply or panicked or there is no request or no match; Abort does not skip routing |
| Handle.HandlerServes | lib/route.rs:61-66 | a handler that runs belongs to the last route whose method is the request's or the wildcard and whose pattern fits the path; it is given the path's parameters, and what it returns is the result |
| Handle.NoneServes | lib/internal/handle.rs:147-178 | if routing runs no handler, every route differs in method or path, and the result is a not-found error with both |
| Handle.PreEnds | lib/internal/handle.rs:97-108 | what each verdict of a pre hook does: continue calls the next hook down, abort and send end the phase with the request as left, a panic ends the answer |
| Handle.PostEnds | lib/internal/handle.rs:117-127 | what each verdict of a post hook does, in the same way |
| Handle.PostHooksRun | lib/internal/handle.rs:97-127 | a reply sent by a pre hook does not skip the post hooks; a panic in a pre hook skips them all |
| Handle.PrePanicIsAnswered | lib/internal/handle.rs:92-108 | any pre hook that is called and panics is the last hook in the trace, the error handler answers with its message, and the request is kept as the hook left it |
| Handle.PostPanicIsAnswered | lib/internal/handle.rs:118-127 | so is any post hook, after the whole trace before it |
| Handle.PostReplyIsAnswer | lib/internal/handle.rs:117-127 | the reply a called post hook sends is the answer, whatever the result was, and no further hook runs |
| Handle.ResultIsAnswer | lib/internal/handle.rs:129-142 | otherwise a good result that the post hooks leave is the answer, with the request kept |
| Handle.AlwaysReplies | lib/internal/handle.rs:182-214 | if no hook stores an absent or startup error, a good request or a reading error always gets a reply and `unreachable!` is never reached |
| Handle.HarmlessIsSafe | lib/internal/handle.rs:84-142 | a middleware can never make a server of otherwise harmless middleware reach it exactly if its pre hook never replaces a good request, and its post hook never a good result of a request, by such an error |
| Handle.StoredErrorPanics | lib/internal/handle.rs:84-142 | for any hooks, it is reached exactly if no phase ends early and the error left, the request's or else the result's, is absent or a startup error |
| Handle.SomeHookStored | lib/internal/handle.rs:98-127 | from a good request it is reached only if some hook that was called with a good request or result stored such an error itself |
| Handle.PostHookStores | lib/internal/handle.rs:118-138 | a lone post hook that stores such an error as the result reaches it, whatever the routes |
| Handle.SentReplyKeepsRequest | lib/internal/handle.rs:98-115 | if every post hook leaves the result alone, the reply a pre hook sends is the answer, with the request kept for the end hooks |
| Handle.EndHooks | lib/internal/handle.rs:64-70 | all end hooks run in reverse order although some panic |
| Handle.HandleOne | lib/internal/handle.rs:38-78 | one round of the connection loop equals its specification |
| Handle.RoundSends | lib/internal/handle.rs:59-79 | a round writes the reply, then runs all end hooks from the last registered down if the request was kept, then closes unless both sides keep the connection open |
| Handle.RoundIsSilent | lib/internal/handle.rs:52-57 | a reply with the end flag is not written and no hook runs after it |
| Handle.KeepAliveWhen | lib/request.rs:58-63 | a client keeps the connection alive exactly if its first `Connection` header says so, in any letter case; without one it does not |
| Handle.HandleConnection | lib/internal/handle.rs:37-79 | the loop writes exactly the replies and end hooks of the rounds up to the first that stops |
| Handle.ConnectionStops | lib/internal/handle.rs:37-79 | a connection answers its requests in order up to the first that the client, the server or the reply does not keep open; it is stopped at most once, last, and only then |
| Handle.ErrorsSkipEndHooks | lib/internal/handle.rs:129-138 | behind middleware that lets everything pass, the request is dropped exactly if it was not read, has no route or its handler panicked; a missing route is answered 404 and no end hook runs |
| Handle.ReadErrorReplies | lib/internal/handle.rs:182-214 | behind transparent middleware the reply to each reading error: status and text |
| Handle.RouteReplies | lib/internal/handle.rs:147-178 | there a request is answered by the last route for its method and path, or by the error handler if that panics or has no state |
| Handle.NoRouteReplies | lib/internal/handle.rs:204-207 | and with 404, naming method and path, if there is no such route |
| RequestLine.ReadTarget | lib/request.rs:197-219 | the loop collapses runs of slashes and backslashes and cuts off the query |
| RequestLine.Parse | lib/request.rs:182-228 | method, path, query and version, or the error of the first missing or wrong part |
| RequestLine.MethodRoundTrip | lib/http/method.rs:83-117 | a method parses back from its name, except the wildcard |
| RequestLine.MethodAnyCase | lib/http/method.rs:83-95 | an ASCII word is a method exactly if it is its name in some letter case |
| RequestLine.NeverAny | lib/http/method.rs:83-95 | no parsed request has the wildcard method |
| RequestLine.TargetIsPlain | lib/request.rs:200-219 | a parsed path has no backslash, no question mark and no two slashes in a row |
| RequestLine.PlainIsKept | lib/request.rs:200-219 | such a path is parsed unchanged, with the raw query after the first question mark |
| RequestLine.SlashesAreOne | lib/request.rs:200-213 | before the query, two slashes of either kind are read as one forward slash, and so is one; with the row above this determines the path read from any target |
| RequestLine.BlankLine | lib/request.rs:183-187 | a line has no method exactly if it is white space |
| RequestLine.ShortLine | lib/request.rs:183-228 | a line that ends after the method or the target has no version, but an unknown method is reported first |
| RequestLine.ParseRender | lib/request.rs:182-228 | a rendered request line parses to its method, path, query pairs and version |
| RequestLine.MatchRendered | lib/internal/path.rs:35-98 | the pattern of any route of literals, parameters, `*` and `**` matches its rendered path, with the parameter values before the first `**` in order |
| RequestLine.EndToEnd | lib/request.rs:182-228 | rendering such a route with percent-encoded parameters and query, parsing and matching gives back the method, the parameters in order and the pairs |
| Path.NormalizePath | lib/internal/path.rs:104-114 | the two loops remove exactly the trailing and leading slashes |
| Path.New | lib/internal/path.rs:35-48 | one part per segment of the normalized path |
| Path.PartRoundTrip | lib/internal/path.rs:85-98 | each of the four kinds of part is read from the segment it prints as, and only from that |
| Path.TokenizePattern | lib/internal/path.rs:35-48 | printing a list of parts and tokenizing it gives the list back |
| Path.MatchPath | lib/internal/path.rs:51-80 | the shortcut, the zipped loop and the length check equal a recursive segment matcher |
| Path.MatchIgnoresSlashes | lib/internal/path.rs:35-80 | extra leading and trailing slashes on pattern or path change nothing |
| Path.MatchedNames | lib/internal/path.rs:61-73 | the names returned are those of the parameters before the first catch-all, in order |
| Path.MatchedWhen | lib/internal/path.rs:60-79 | when a path matches: literals agree, and the lengths agree unless there is a catch-all |
| Path.MatchedFills | lib/internal/path.rs:60-79 | and what it returns: each parameter before the first catch-all with its segment, decoded if it can be |
| Path.ParameterValue | lib/internal/path.rs:66-73 | a parameter whose segment cannot be decoded keeps it as it stands |
| Path.CatchAll | lib/internal/path.rs:51-54 | `**` matches every path, with no parameters |
| Path.StarAtEnd | lib/internal/path.rs:60-79 | a pattern `p/*` matches exactly the paths of one more segment than one that `p` matches |
| Path.CatchAllAtEnd | lib/internal/path.rs:60-79 | a pattern `p/**` matches exactly the paths of one or more segments more |
| Url.Encode | lib/internal/encoding/url.rs:30-46 | the loop equals the encoding function |
| Url.Decode | lib/internal/encoding/url.rs:7-25 | the loop equals the decoding function, failures included |
| Url.DecodeEncode | lib/internal/encoding/url.rs:7-46 | decoding an encoded string gives the low byte of every character |
| Url.RoundTrip | lib/internal/encoding/url.rs:7-46 | it gives the string back exactly for Latin-1 |
| Url.DecodeKeeps | lib/internal/encoding/url.rs:11-22 | decoding changes nothing exactly without plus and percent signs |
| Url.EncodeIsPercentEncoded | lib/internal/encoding/url.rs:27-46 | only unreserved characters and triplets with uppercase digits (RFC 3986, section 2.1) are produced |
| Url.DecodesTriplets | lib/internal/encoding/url.rs:11-22 | a string is made of triplets of RFC 3986 exactly if it decodes and none of its triplets has a sign; it decodes exactly if each percent sign is followed by a digit or plus sign and a digit |
| Url.DecodeTriplet | lib/internal/encoding/url.rs:14-19 | a triplet stands for the byte its digits write, in either letter case |
| Url.DecodeForm | lib/internal/encoding/url.rs:11-13 | a text whose spaces are sent as plus signs is decoded to its low bytes |
| Url.SignIsAccepted | lib/internal/encoding/url.rs:18 | `%+F` decodes although it is no triplet |
| Query.FromBody | lib/http/query.rs:115-136 | the loop keeps the pieces with an equals sign, both halves decoded |
| Query.ParseConcat | lib/http/query.rs:115-136 | the pieces between `&` are read one by one, in order |
| Query.ParsePiece | lib/http/query.rs:118-133 | a piece without an equals sign is dropped; the first one ends the key, and a half that cannot be decoded is kept as it is |
| Query.ParseRender | lib/http/query.rs:115-136 | rendered pairs come back in order, low byte by low byte |
| Query.RoundTrip | lib/http/query.rs:115-136 | and unchanged exactly for Latin-1 |
| Header.TypeRoundTrip | lib/http/header.rs:374-431 | a header type parses back from its name exactly if it is canonical |
| Header.TypeAnyCase | lib/http/header.rs:374-398 | a name means a known type exactly if it is that type's name in some letter case |
| Header.TypeOtherwise | lib/http/header.rs:396 | any other name is kept as written |
| Header.LineRoundTrip | lib/http/header.rs:73-92 | a writable header parses back from its line |
| Header.NewParams | lib/http/header.rs:101-126 | the loop keeps trimmed pairs up to the first piece without an equals sign |
| Header.ParamsRoundTrip | lib/http/header.rs:101-126 | a value and its parameters are read back as written, in order |
| Header.FirstParam | lib/http/header.rs:136-142 | the first parameter with a key counts |
| Header.Find | lib/http/header.rs:243-246 | a header of the type if there is one, none otherwise |
| Header.FirstFound | lib/http/header.rs:243-246 | and it is the first one of the type |
| Request.ReadHeaders | lib/request.rs:115-134 | the loop separates headers and cookies up to the empty line, or fails at the first bad header |
| Request.ParseCookies | lib/http/cookie.rs:63-77 | the loop keeps the pieces with an equals sign, both halves trimmed and decoded |
| Request.CookiesRoundTrip | lib/http/cookie.rs:63-77 | percent-encoded cookies come back in order, each name and value in its place, unchanged exactly if they are Latin-1 |
| Request.CookieThen | lib/request.rs:128-133 | a cookie line adds its cookies, and no header, to what follows it |
| Request.BadLine | lib/request.rs:117-127 | a line without a colon anywhere among the headers fails the request |
| Request.FromSocket | lib/request.rs:102-162 | the request with a body of the announced length, the first error, or the panic of a length of 2^63 or more |
| Request.HeadersOfBlock | lib/request.rs:117-134 | a written header block is read back as the same list, leaving the rest of the input |
| Request.MessageOfBlock | lib/request.rs:115-147 | and the body is what the first `Content-Length` announces, an unexpected end, or that panic |
| Request.RequestRoundTrip | lib/request.rs:102-162 | a whole rendered request is read back, line, parameters, query, headers, cookies and body, exactly if its body is below 2^63 bytes |
| Response.Response.Write | lib/response.rs:281-326 | the headers are completed in place, never empty, and the wire is head and body |
| Response.Response.AddDefaults | lib/response.rs:288-292 | a default header is added exactly if its type is missing |
| Response.WriteStream | lib/response.rs:357-384 | the read loop writes one chunk per read, skips interruptions and ends with the empty chunk or an error |
| Response.DefaultsAdded | lib/response.rs:286-292 | the own headers come first and keep precedence, every default type is present, nothing else is added |
| Response.CompletedFrom | lib/response.rs:286-309 | completion keeps the own headers, is never empty (so `headers_to_string` is safe) and adds only defaults and what body and flag require |
| Response.CompletedSays | lib/response.rs:295-309 | a length, `close` or `chunked` that is not preset is there exactly if it is called for, with that value |
| Response.FixedLines | lib/response.rs:301-309 | how the two fixed headers read on the wire |
| Response.CompletedLength | lib/response.rs:296-299 | without a preset length the completed length is the size of the body |
| Response.ReadBack | lib/response.rs:312-325 | the request reader gets head and body back exactly if the announced length is that of the body and below 2^63 |
| Response.StaticRoundTrip | lib/response.rs:281-326 | every static response without a preset length reaches a reader with exactly the completed headers and body, exactly if the body is below 2^63 bytes |
| Response.ChunkedRoundTrip | lib/response.rs:357-384 | decoding the chunks by section 7.1 of RFC 9112 gives the concatenated reads, whatever bytes they hold |
| Response.HexRoundTrip | lib/response.rs:371 | the hexadecimal size is inverted by hexadecimal parsing |
| Multipart.FindBoundaries | lib/http/multipart.rs:160-165 | all occurrences, overlapping ones too, in order |
| Multipart.CutOut | lib/http/multipart.rs:167-176 | the pieces between the occurrences, or a panic for a backwards slice |
| Multipart.SplitBoundary | lib/http/multipart.rs:159-177 | both together equal the specification |
| Multipart.NoOverlap | lib/http/multipart.rs:160-165 | occurrences of a word without border do not overlap |
| Multipart.PanicsOnOverlap | lib/http/multipart.rs:170-173 | splitting panics exactly if two occurrences overlap |
| Multipart.SafeBoundaries | lib/http/multipart.rs:159-177 | a boundary never panics, for any data, exactly if it has no border |
| Multipart.JoinAfterSplit | lib/http/multipart.rs:159-177 | joining the pieces restores the data, and no piece contains the boundary |
| Multipart.JoinIsInjective | lib/http/multipart.rs:159-177 | boundary-free pieces are determined by their join |
| Multipart.SplitAfterJoin | lib/http/multipart.rs:159-177 | splitting a join of boundary-free pieces returns exactly those pieces |
| Multipart.ReadHeaders | lib/http/multipart.rs:125-136 | the nonempty lines as headers, or an error at the first bad one |
| Multipart.HeadersAreLines | lib/http/multipart.rs:125-136 | the headers are the nonempty lines one for one, and it fails exactly if one of them has no colon |
| Multipart.ParseEntry | lib/http/multipart.rs:111-156 | the entry split at the first blank line, or the error |
| Multipart.FormRoundTrip | lib/http/multipart.rs:73-156 | a rendered form parses to the same names in order, each with its filename, still in quotes, if it has one, and with its data and the line break left attached |
| Multipart.FewBoundaries | lib/http/multipart.rs:90-94 | a form is too short exactly if its boundary does not occur twice |
| SseFormat.ToString | lib/http/server_sent_events.rs:161-177 | the buffer loop equals the text of the event |
| SseFormat.CleanArrives | lib/http/server_sent_events.rs:116-119 | a client of section 9.2.6 of the HTML standard, started anywhere between events, receives clean events and retries one by one |
| SseFormat.InterpretIsClean | lib/http/server_sent_events.rs:161-177 | no text whatever lets a client see a line end in a type or a carriage return in data |
| SseFormat.RoundTrip | lib/http/server_sent_events.rs:161-177 | interpreting the written stream gives every id, type and data and the last retry exactly if all events are clean |
| SseStream.StepInv | lib/http/server_sent_events.rs:90-127 | every step of senders, closers and worker keeps: nothing lost or reordered, and the wire holds what was taken before the first close |
| SseStream.NothingDropped | lib/http/server_sent_events.rs:65-94 | what the channel has accepted in a run is exactly what the run sent and posted before its receiver was dropped, in order |
| SseStream.FirstPostIsFirst | lib/http/server_sent_events.rs:90-94 | what the channel holds before its first close is what the run sent before its first call of close |
| SseStream.CloseFlushes | lib/http/server_sent_events.rs:90-127 | in every interleaving a close that has returned is the first that the run called, and the wire holds exactly the events the run sent before that call, in order |
| SseStream.CloseDelivers | lib/http/server_sent_events.rs:90-127 | a client of that wire has received every event sent before that call, if they are clean |
| SseStream.OnlyTheFirstReturns | lib/http/server_sent_events.rs:90-94 | a close other than the first that the run called never returns, however the run goes on |
| SseStream.FirstCloseProgress | lib/http/server_sent_events.rs:90-127 | until the first close returns its caller or the worker can step, those steps lower a measure, and no other thread raises it |
| SseStream.EventStream.SendMessage | lib/http/server_sent_events.rs:65-67 | while the receiver is there the message goes to the end of the queue, and nothing else changes |
| SseStream.EventStream.TakeMessage | lib/http/server_sent_events.rs:111-126 | one turn of the worker's loop takes the first message and writes its event, or arrives at its barrier |
| SseStream.EventStream.Perform | lib/http/server_sent_events.rs:65-127 | each operation is one step and keeps the invariant |
| SseStream.EventStream.Close | lib/http/server_sent_events.rs:90-94 | under every schedule the first close returns, and then the wire holds all that had been sent before the call |
| WebSocket.XorMask | lib/http/web_socket.rs:326-335 | the loop masks byte by byte with the repeated key |
| WebSocket.MaskingTwice | lib/http/web_socket.rs:326-335 | masking twice gives the data back (RFC 6455, section 5.3) |
| WebSocket.ToBytes | lib/http/web_socket.rs:233-258 | the bytes written for a frame, the wide length included |
| WebSocket.FromSlice | lib/http/web_socket.rs:159-211 | the frame read, nothing, or a panic for an index past the end |
| WebSocket.ReadsTheRfc | lib/http/web_socket.rs:159-211 | the reader undoes the layout of section 5.2 of RFC 6455 for every well-formed masked frame with a payload |
| WebSocket.CutFramesPanic | lib/http/web_socket.rs:159-211 | and panics on every proper prefix of such a frame |
| WebSocket.RfcHello | lib/http/web_socket.rs:233-258 | the examples of section 5.7 of RFC 6455, plain and masked |
| WebSocket.WritesTheRfc | lib/http/web_socket.rs:237-247 | the writer produces that layout exactly outside 126..65535 |
| WebSocket.BandReadsNothing | lib/http/web_socket.rs:239-242 | a frame with a length in that band is always read as nothing |
| WebSocket.RoundTrip | lib/http/web_socket.rs:158-258 | reading what was written gives the frame back exactly if it is well formed, masked, not empty and outside the band |
| Base64.Encode | lib/internal/encoding/base64.rs:10-39 | the loop equals the encoding of groups of three bytes |
| Base64.DecodeGroup | lib/internal/encoding/base64.rs:51-69 | the accumulator loop over one group: bytes, an invalid character, or the panic of a leading pad |
| Base64.GroupEnds | lib/internal/encoding/base64.rs:51-69 | how a group ends: three bytes if it holds only letters, even if it is short; one byte less than the letters before a pad; a panic for a leading pad; an error for anything else |
| Base64.Decode | lib/internal/encoding/base64.rs:42-73 | the loop over groups, stopping at the first bad one |
| Base64.RoundTrip | lib/internal/encoding/base64.rs:10-73 | decoding an encoding gives the input back exactly if every special character is mirrored |
| Base64.PlainRoundTrip | lib/internal/encoding/base64.rs:10-73 | in particular for every encoding without `+` and `/` |
| Base64.EncodeInjective | lib/internal/encoding/base64.rs:10-39 | a decoder by RFC 4648 undoes the encoder, so it is injective; the length is 4 * ceil(n / 3) |
| Base64.RfcVectors | lib/internal/encoding/base64.rs:10-39 | three of the test vectors of section 10 of RFC 4648 |
| Base64.PlusIsMisread | lib/internal/encoding/base64.rs:59 | three bytes whose encoding decodes to other bytes |
| Sha1.Hash | lib/internal/encoding/sha1.rs:8-78 | the digest of FIPS 180-4 for every message up to 2^61 - 73 bytes, and a panic for every longer one |
| Sha1.Pad | lib/internal/encoding/sha1.rs:15-19 | the buffer holds the padded message of section 5.1.1 |
| Sha1.Expand | lib/internal/encoding/sha1.rs:22-34 | the array holds the message schedule |
| Sha1.Compress | lib/internal/encoding/sha1.rs:36-61 | the 80 rounds on five variables equal the rounds of section 6.1.2 |
| Sha1.HashChunks | lib/internal/encoding/sha1.rs:9-68 | the five words after all blocks are the hash value of the standard |
| Sha1.PaddedLengthIsLeast | lib/internal/encoding/sha1.rs:15 | the computed length is the least whole number of blocks with room for nine bytes, and too short exactly past the limit |
| Sha1.PaddingIsInjective | lib/internal/encoding/sha1.rs:15-19 | no two messages shorter than 2^61 bytes are padded alike |
| Sha1.WordRoundTrip | lib/internal/encoding/sha1.rs:70-75 | the four bytes written for a word read back as that word |
| Sha1.BytesRoundTrip | lib/internal/encoding/sha1.rs:23-30 | and four bytes read as a word are written back as they were |
| Sha1.ChForm | lib/internal/encoding/sha1.rs:44 | the `or` form of Ch equals the standard's exclusive `or` |
| Sha1.MajForm | lib/internal/encoding/sha1.rs:46 | the `or` form of Maj equals the standard's exclusive `or` |
| Sha1.Constants | lib/internal/encoding/sha1.rs:43-49 | the four constants are the square roots of 2, 3, 5 and 10 to thirty binary places |
| QuoteStore.LoadQuote | examples/application_quote_book.rs:176-183 | the quote on a line, a skipped line, or the panic of an undecodable text |
| QuoteStore.ReadSaved | examples/application_quote_book.rs:167-183 | a saved quote is read back with the low bytes of its texts |
| QuoteStore.ReadFields | examples/application_quote_book.rs:176-183 | any line of three fields: a panic if a text cannot be decoded, else skipped if the date is bad, else the quote |
| QuoteStore.ReadShort | examples/application_quote_book.rs:176-183 | and any shorter line |
| QuoteStore.LoadSave | examples/application_quote_book.rs:132-164 | in whatever order the map was saved, loading never panics and gives every entry back, up to low bytes |
| QuoteStore.SameAfterLoad | examples/application_quote_book.rs:132-164 | and the same map exactly if all texts are Latin-1 |
| QuoteStore.AddMatches | examples/application_quote_book.rs:62-64 | the next number is a new key, so no insertion overwrites |
| QuoteStore.RunKeepsQuotes | examples/application_quote_book.rs:62-68 | after any run of insertions and restarts the keys are the decimals 0..n-1 and quote i is the i-th inserted |
| QuoteStore.NeverMissing | examples/application_quote_book.rs:76-89 | the `unwrap` of line 89 never fails; every number below n is found and none from n on |
| QuoteStore.DecodedTwice | examples/application_quote_book.rs:51-55 | any form is stored as filled in exactly if its texts are Latin-1 without plus and percent signs |
| QuoteStore.App.Save | examples/application_quote_book.rs:154-163 | the file lists every entry once more in some order of the map |
| QuoteStore.App.Load | examples/application_quote_book.rs:132-152 | the map is what the lines of the file say, up to the first panic |
| QuoteStore.App.New | examples/application_quote_book.rs:50-68 | the quote gets the next number and nothing is overwritten; a bad form changes nothing |
| QuoteStore.App.Restart | examples/application_quote_book.rs:36-37 | loading the own file never panics and keeps every quote |
| Date.Calendar | lib/extensions/date.rs:52-64 | for any day count the month loop ends at the date whose closed-form number it is |
| Date.FourYearDayInjective | lib/extensions/date.rs:36-64 | no two dates share a number, so the loop inverts the closed form |
| Date.DaysInMonth | lib/extensions/date.rs:36-44 | the month lengths under the four-year rule |
| Date.MonthLengths | lib/extensions/date.rs:36-44 | the twelve lengths |
| Date.Agreement | lib/extensions/date.rs:40 | a date of the code's calendar is the Gregorian date of the same day exactly before 2100-03-01 |
| Date.ImfInjective | lib/extensions/date.rs:66-75 | an IMF-fixdate text determines its fields |
| Date.ImpDate | lib/extensions/date.rs:48-76 | the printed text is the IMF-fixdate (RFC 9110, section 5.6.7) of the clock exactly before 2100-03-01 |
| Date.OneText | lib/extensions/date.rs:48-76 | an instant has only one such text |
| Date.RfcExample | lib/extensions/date.rs:10-13 | the example of section 5.6.7 of RFC 9110 is the one text of its instant |
| SafePath.SafePath | lib/extensions/serve_static.rs:349-365 | the stack loop equals its specification, and a path without `..` is unchanged |
| SafePath.Cancels | lib/extensions/serve_static.rs:355-362 | a segment and the `..` after it cancel wherever they stand, and a leading `..` does nothing |
| SafePath.ResolvedIsCancelled | lib/extensions/serve_static.rs:354-364 | the stack computes repeated cancellation of the first `..` |
| SafePath.SafeSegments | lib/extensions/serve_static.rs:349-365 | the segments of a resolved path are those left, none of them `..` |
| SafePath.NoDotsLeft | lib/extensions/serve_static.rs:349-365 | no path whatever is left with a `..` segment; without two adjacent dots it is kept, and otherwise only forward slashes are left |
| SafePath.Idempotent | lib/extensions/serve_static.rs:349-365 | resolving twice is resolving once |

## Left out

- Sockets, files and listeners: inputs are character or byte sequences, a stream body is a sequence of read results, output is appended; writes to a socket succeed.
- UTF-8: text is a sequence of characters and a byte is its code, so lossy conversion and lengths in bytes of non-ASCII text are not modelled.
- Pipelined requests: each request is read from an input of its own, as the program builds a new reader per request.
- Panicking pool jobs: a job is assumed to return; a panic would kill its worker and make the join panic.
- Memory orderings: atomics and locks are sequentially consistent.
- The clock: times are parameters, nondecreasing where a property says so; `last_reset + req_timeout` is not cut to 64 bits.
- RateLimit.SlidingWindow: assumes that the limit handler returns a response and that every request reaches the limiter's pre and end hooks; the same holds for `WindowLimit`.
- RateLimit.ConcurrentBound: counts as admitted only what the limiter's own pre hook lets pass, and of that only the requests that have not ended in an error; it assumes that the limit handler returns a response.
- Allocation below 2^63 bytes always succeeds.
- Hidden state of hooks: a hook is an arbitrary function of its arguments; the error handler and handlers are functions too, and the error handler does not panic.
- Handle.HandleConnection: the requests of a connection are a finite list, and the run ends with the list.
- Trailers of a chunked body: the reference decoder takes none.
- Unicode case folding: only as far as a comparison with ASCII names can tell.
- Date.ImpDate: a build with overflow checks panics on day numbers from 65532 on (after the cut to 16 bits); the model wraps.
- WebSocket threads and handshake, which are unfinished in the source.
- `HashMap` iteration: any order is allowed, without saying which.
- `Query` display, status, method and MIME tables, builders, accessors, logger, tracing, `RealIp`, `RequestId`, `Head`, `Trace` and `parse_ip` are not modelled.
