/** The quote book: numbered quotes in a map, saved to a file after every insertion and loaded at the start. */
module QuoteStore {
  import opened Text
  import opened Wrappers
  import Query
  import Url

  datatype Quote = Quote(name: string, value: string, date: U64)

  type Quotes = map<string, Quote>

  // ---- One quote

  function QuoteText(q: Quote): string {
    Url.Encoded(q.name) + ":" + Url.Encoded(q.value) + ":" + Decimal(q.date)
  }

  method SaveQuote(q: Quote) returns (s: string)
    ensures s == QuoteText(q)
  {
    var name := Url.Encode(q.name);
    var value := Url.Encode(q.value);
    return name + ":" + value + ":" + Decimal(q.date);
  }

  /** `Panics` is `unwrap` on a text that cannot be decoded. */
  datatype Entry = Panics | Skipped | Got(quote: Quote)

  function ReadQuote(line: string): Entry {
    var parts := Split(line, {':'});
    match Url.Decoded(parts[0])
    case None => Panics
    case Some(name) =>
      if |parts| < 2 then Skipped
      else
        match Url.Decoded(parts[1])
        case None => Panics
        case Some(value) =>
          if |parts| < 3 then Skipped
          else
            match ParseUnsigned(parts[2], U64_LIMIT)
            case None => Skipped
            case Some(date) => Got(Quote(name, value, ParsedDate(parts[2])))
  }

  function ParsedDate(s: string): U64
    requires ParseUnsigned(s, U64_LIMIT).Some?
  {
    ParseUnsigned(s, U64_LIMIT).value
  }

  method LoadQuote(line: string) returns (e: Entry)
    ensures e == ReadQuote(line)
  {
    var parts := Split(line, {':'});
    var name := Url.Decode(parts[0]);
    if name.None? {
      return Panics;
    }
    if |parts| < 2 {
      return Skipped;
    }
    var value := Url.Decode(parts[1]);
    if value.None? {
      return Panics;
    }
    if |parts| < 3 {
      return Skipped;
    }
    var date := ParseUnsigned(parts[2], U64_LIMIT);
    if date.None? {
      return Skipped;
    }
    return Got(Quote(name.value, value.value, date.value));
  }

  /** What the texts become when only the low byte of each character survives. */
  function Low(q: Quote): Quote {
    q.(name := Url.LowBytes(q.name), value := Url.LowBytes(q.value))
  }

  lemma ThreeParts(a: string, b: string, c: string)
    requires ':' !in a && ':' !in b && ':' !in c
    ensures Split(a + ":" + b + ":" + c, {':'}) == [a, b, c]
  {
    assert a + ":" + b + ":" + c == a + [':'] + (b + [':'] + c);
    SplitCons(a, ':', b + [':'] + c, {':'});
    SplitCons(b, ':', c, {':'});
    SplitOne(c, {':'});
    assert [a] + ([b] + [c]) == [a, b, c];
  }

  lemma QuoteParts(q: Quote)
    ensures Split(QuoteText(q), {':'}) == [Url.Encoded(q.name), Url.Encoded(q.value), Decimal(q.date)]
  {
    Url.EncodedPlain(q.name);
    Url.EncodedPlain(q.value);
    DecimalPlain(q.date);
    ThreeParts(Url.Encoded(q.name), Url.Encoded(q.value), Decimal(q.date));
  }

  lemma ReadSaved(q: Quote)
    ensures ReadQuote(QuoteText(q)) == Got(Low(q))
  {
    QuoteParts(q);
    Url.DecodeEncode(q.name);
    Url.DecodeEncode(q.value);
    ParseDecimal(q.date, U64_LIMIT);
  }

  /** A line of three fields panics if a text cannot be decoded, and is skipped if only the date is bad. */
  lemma ReadFields(a: string, b: string, c: string)
    requires ':' !in a && ':' !in b && ':' !in c
    ensures ReadQuote(a + ":" + b + ":" + c) ==
            if Url.Decoded(a).None? || Url.Decoded(b).None? then Panics
            else if ParseUnsigned(c, U64_LIMIT).None? then Skipped
            else Got(Quote(Url.Decoded(a).value, Url.Decoded(b).value, ParsedDate(c)))
  {
    ThreeParts(a, b, c);
  }

  /** So is a shorter line. */
  lemma ReadShort(a: string, b: string)
    requires ':' !in a && ':' !in b
    ensures ReadQuote(a) == if Url.Decoded(a).None? then Panics else Skipped
    ensures ReadQuote(a + ":" + b) == if Url.Decoded(a).None? || Url.Decoded(b).None? then Panics else Skipped
  {
    SplitOne(a, {':'});
    SplitOne(b, {':'});
    SplitCons(a, ':', b, {':'});
  }

  // ---- The file

  function LineText(key: string, q: Quote): string {
    key + ":" + QuoteText(q)
  }

  /** The file for one order of iteration over the map. */
  function FileText(order: seq<string>, m: Quotes): string
    requires forall k :: k in order ==> k in m
  {
    if order == [] then "" else LineText(order[0], m[order[0]]) + "\n" + FileText(order[1..], m)
  }

  /** The order lists every key, and nothing else. */
  predicate IsOrder(order: seq<string>, m: Quotes) {
    (forall k :: k in order ==> k in m) && (forall k :: k in m ==> k in order)
  }

  /** `ok` is false where an `unwrap` panics; the map then holds the lines before. */
  datatype Loaded = Loaded(quotes: Quotes, ok: bool)

  function LoadedFrom(lines: seq<string>, acc: Quotes): Loaded
    decreases |lines|
  {
    if lines == [] then Loaded(acc, true)
    else
      match SplitOnce(lines[0], ':')
      case None => Loaded(acc, false)
      case Some((key, rest)) =>
        match ReadQuote(rest)
        case Panics => Loaded(acc, false)
        case Skipped => LoadedFrom(lines[1..], acc)
        case Got(q) => LoadedFrom(lines[1..], acc[key := q])
  }

  function LoadedText(text: string): Loaded {
    LoadedFrom(Lines(text), map[])
  }

  function LowMap(m: Quotes): (r: Quotes)
    ensures r.Keys == m.Keys && |r| == |m|
  {
    var r := map k | k in m :: Low(m[k]);
    assert r.Keys == m.Keys && |r| == |r.Keys| && |m| == |m.Keys|;
    r
  }

  /** A key that survives the file: the numbers the store hands out are of this kind. */
  predicate PlainKey(k: string) {
    Free(k, {':', '\n'})
  }

  lemma QuoteTextPlain(q: Quote)
    ensures Free(QuoteText(q), {'\n'}) && QuoteText(q) != "" && QuoteText(q)[|QuoteText(q)| - 1] != '\r'
  {
    var name, value, date := Url.Encoded(q.name), Url.Encoded(q.value), Decimal(q.date);
    Url.EncodedPlain(q.name);
    Url.EncodedPlain(q.value);
    DecimalPlain(q.date);
    FreeAppend(name, ":", {'\n'});
    FreeAppend(name + ":", value, {'\n'});
    FreeAppend(name + ":" + value, ":", {'\n'});
    FreeAppend(name + ":" + value + ":", date, {'\n'});
    assert QuoteText(q)[|QuoteText(q)| - 1] == date[|date| - 1];
  }

  lemma LineIsPlain(key: string, q: Quote)
    requires PlainKey(key)
    ensures var line := LineText(key, q);
            '\n' !in line && StripCr(line) == line && SplitOnce(line, ':') == Some((key, QuoteText(q)))
  {
    var text := QuoteText(q);
    QuoteTextPlain(q);
    FreeAppend(key, ":", {'\n'});
    FreeAppend(key + ":", text, {'\n'});
    assert (key + ":" + text)[|key + ":" + text| - 1] == text[|text| - 1];
    SplitOnceAt(key, ':', text);
  }

  lemma LoadLine(key: string, q: Quote, rest: string, acc: Quotes)
    requires PlainKey(key)
    ensures LoadedFrom(Lines(LineText(key, q) + "\n" + rest), acc) == LoadedFrom(Lines(rest), acc[key := Low(q)])
  {
    LineIsPlain(key, q);
    LinesCons(LineText(key, q), rest);
    ReadSaved(q);
  }

  /** The entries of `order` go over those of `acc`. */
  function Overlay(acc: Quotes, order: seq<string>, m: Quotes): Quotes
    requires forall k :: k in order ==> k in m
  {
    map k | k in acc.Keys + (set x | x in order) :: if k in order then Low(m[k]) else acc[k]
  }

  lemma OverlayStep(order: seq<string>, m: Quotes, acc: Quotes)
    requires order != [] && forall k :: k in order ==> k in m
    ensures Overlay(acc[order[0] := Low(m[order[0]])], order[1..], m) == Overlay(acc, order, m)
  {
    var k, rest := order[0], order[1..];
    assert order == [k] + rest;
    var x, y := Overlay(acc[k := Low(m[k])], rest, m), Overlay(acc, order, m);
    assert x.Keys == y.Keys;
    assert forall j :: j in x ==> x[j] == y[j];
  }

  lemma OverlayAll(order: seq<string>, m: Quotes)
    requires IsOrder(order, m)
    ensures Overlay(map[], order, m) == LowMap(m)
  {
    var all := Overlay(map[], order, m);
    assert all.Keys == m.Keys;
    assert forall k :: k in m ==> all[k] == Low(m[k]);
  }

  lemma {:induction false} LoadOrder(order: seq<string>, m: Quotes, acc: Quotes)
    requires forall k :: k in order ==> k in m && PlainKey(k)
    ensures LoadedFrom(Lines(FileText(order, m)), acc) == Loaded(Overlay(acc, order, m), true)
    decreases |order|
  {
    if order == [] {
      assert Overlay(acc, order, m) == acc;
    } else {
      var k := order[0];
      LoadLine(k, m[k], FileText(order[1..], m), acc);
      LoadOrder(order[1..], m, acc[k := Low(m[k])]);
      OverlayStep(order, m, acc);
    }
  }

  /** Whatever the order in which the map was saved, loading gives it back, up to the low bytes. */
  lemma LoadSave(order: seq<string>, m: Quotes)
    requires IsOrder(order, m) && forall k :: k in m ==> PlainKey(k)
    ensures LoadedText(FileText(order, m)) == Loaded(LowMap(m), true)
  {
    LoadOrder(order, m, map[]);
    OverlayAll(order, m);
  }

  predicate Latin1(q: Quote) {
    Url.Latin1(q.name) && Url.Latin1(q.value)
  }

  /** So the same map is restored for exactly the Latin-1 texts. */
  lemma SameAfterLoad(order: seq<string>, m: Quotes)
    requires IsOrder(order, m) && forall k :: k in m ==> PlainKey(k)
    ensures LoadedText(FileText(order, m)) == Loaded(m, true) <==> forall k :: k in m ==> Latin1(m[k])
  {
    LoadSave(order, m);
    forall k | k in m ensures LowMap(m)[k] == m[k] <==> Latin1(m[k]) {
      Url.LowBytesKeep(m[k].name);
      Url.LowBytesKeep(m[k].value);
    }
    if forall k :: k in m ==> Latin1(m[k]) {
      assert LowMap(m) == m;
    }
  }

  // ---- Numbered quotes

  function Ids(n: nat): set<string> {
    set i: nat | i < n :: Decimal(i)
  }

  /** The key of the next quote is new, and it is the next number. */
  lemma NextId(n: nat)
    ensures Decimal(n) !in Ids(n)
    ensures Ids(n + 1) == Ids(n) + {Decimal(n)}
  {
    if i: nat :| i < n && Decimal(i) == Decimal(n) {
      DecimalInjective(i, n);
    }
  }

  lemma IdsArePlain(n: nat)
    ensures forall k :: k in Ids(n) ==> PlainKey(k)
  {
  }

  /** The map holds quote number `i` of the history under the decimal of `i`, or what a file keeps of it. */
  predicate Matches(m: Quotes, history: seq<Quote>) {
    && m.Keys == Ids(|history|) && |m| == |history|
    && forall i: nat :: i < |history| ==> Decimal(i) in m && Kept(m[Decimal(i)], history[i])
  }

  predicate Kept(q: Quote, original: Quote) {
    q == original || q == Low(original)
  }

  function Added(m: Quotes, q: Quote): Quotes {
    m[Decimal(|m|) := q]
  }

  lemma AddKept(m: Quotes, history: seq<Quote>, q: Quote, i: nat)
    requires Matches(m, history) && i <= |history|
    ensures Decimal(i) in Added(m, q) && Kept(Added(m, q)[Decimal(i)], (history + [q])[i])
  {
    NextId(|m|);
    if i < |history| {
      assert Decimal(i) in m && Decimal(i) in Ids(|history|);
    }
  }

  lemma AddKeys(m: Quotes, history: seq<Quote>, q: Quote)
    requires Matches(m, history)
    ensures Decimal(|m|) !in m && Added(m, q).Keys == Ids(|history + [q]|) && |Added(m, q)| == |history + [q]|
  {
    NextId(|m|);
    assert Added(m, q).Keys == m.Keys + {Decimal(|m|)};
  }

  lemma AddMatches(m: Quotes, history: seq<Quote>, q: Quote)
    requires Matches(m, history)
    ensures Decimal(|m|) !in m && Matches(Added(m, q), history + [q])
  {
    AddKeys(m, history, q);
    forall i: nat | i < |history + [q]|
      ensures Decimal(i) in Added(m, q) && Kept(Added(m, q)[Decimal(i)], (history + [q])[i])
    {
      AddKept(m, history, q, i);
    }
  }

  lemma LowTwice(q: Quote)
    ensures Low(Low(q)) == Low(q)
  {
    LowBytesTwice(q.name);
    LowBytesTwice(q.value);
  }

  lemma LowBytesTwice(s: string)
    ensures Url.LowBytes(Url.LowBytes(s)) == Url.LowBytes(s)
  {
  }

  lemma LowMatches(m: Quotes, history: seq<Quote>)
    requires Matches(m, history)
    ensures Matches(LowMap(m), history) && LowMap(LowMap(m)) == LowMap(m)
  {
    forall k | k in m ensures Low(Low(m[k])) == Low(m[k]) {
      LowTwice(m[k]);
    }
    forall i: nat | i < |history| ensures Kept(LowMap(m)[Decimal(i)], history[i]) {
      LowTwice(history[i]);
    }
  }

  lemma MatchesPlain(m: Quotes, history: seq<Quote>)
    requires Matches(m, history)
    ensures forall k :: k in m ==> PlainKey(k)
  {
    IdsArePlain(|history|);
  }

  /** If every text of the history is Latin-1, the map holds the history itself. */
  lemma Latin1Exact(m: Quotes, history: seq<Quote>)
    requires Matches(m, history) && forall q :: q in history ==> Latin1(q)
    ensures forall i: nat :: i < |history| ==> m[Decimal(i)] == history[i]
  {
    forall i: nat | i < |history| ensures m[Decimal(i)] == history[i] {
      assert Latin1(history[i]);
      Url.LowBytesKeep(history[i].name);
      Url.LowBytesKeep(history[i].value);
    }
  }

  lemma Latin1Same(m: Quotes, n: Quotes, history: seq<Quote>)
    requires Matches(m, history) && Matches(n, history)
    ensures (forall q :: q in history ==> Latin1(q)) ==> m == n
  {
    if forall q :: q in history ==> Latin1(q) {
      Latin1Exact(m, history);
      Latin1Exact(n, history);
      assert m.Keys == n.Keys == Ids(|history|);
    }
  }

  // ---- Requests

  function Get(pairs: Query.Pairs, key: string): Option<string> {
    if pairs == [] then None
    else if pairs[0].0 == key then Some(pairs[0].1)
    else Get(pairs[1..], key)
  }

  /** A field of the form; it is decoded once with the form and once more by the route. */
  function Field(body: string, key: string): Option<string> {
    match Get(Query.Parsed(body), key)
    case None => None
    case Some(v) => Url.Decoded(v)
  }

  /** The quote in a form body, or `None` where an `expect` panics. */
  function Submitted(body: string, now: U64): Option<Quote> {
    match (Field(body, "author"), Field(body, "quote"))
    case (Some(name), Some(value)) => Some(Quote(name, value, now))
    case _ => None
  }

  method ParseForm(body: string, now: U64) returns (q: Option<Quote>)
    ensures q == Submitted(body, now)
  {
    var form := Query.FromBody(body);
    var author, quote := Get(form, "author"), Get(form, "quote");
    if author.None? || quote.None? {
      return None;
    }
    var name := Url.Decode(author.value);
    var value := Url.Decode(quote.value);
    if name.None? || value.None? {
      return None;
    }
    return Some(Quote(name.value, value.value, now));
  }

  /** A text that was encoded once and is decoded twice comes back only if neither step has anything to change. */
  lemma DecodedAgain(s: string)
    ensures Url.Decoded(Url.LowBytes(s)) == Some(s) <==> Url.Latin1(s) && Free(s, {'+', '%'})
  {
    var low := Url.LowBytes(s);
    Url.LowBytesKeep(s);
    Url.DecodeKeeps(low);
    if Url.Decoded(low) == Some(s) && low != s {
      Url.DecodedIsLatin1(low);
    }
  }

  /** Decoding twice: a form is stored as it was filled in exactly when it is Latin-1 without plus and percent signs. */
  lemma DecodedTwice(author: string, quote: string, now: U64)
    ensures Submitted(Query.Render([("author", author), ("quote", quote)]), now) == Some(Quote(author, quote, now)) <==>
            Url.Latin1(author) && Url.Latin1(quote) && Free(author, {'+', '%'}) && Free(quote, {'+', '%'})
  {
    SubmittedFields(author, quote);
    DecodedAgain(author);
    DecodedAgain(quote);
  }

  lemma GetEither(author: string, quote: string)
    ensures Get([("author", author), ("quote", quote)], "author") == Some(author)
    ensures Get([("author", author), ("quote", quote)], "quote") == Some(quote)
  {
    var pairs := [("author", author), ("quote", quote)];
    assert pairs[1..][0] == ("quote", quote) && "author" != "quote";
  }

  lemma FormRead(author: string, quote: string)
    ensures Query.Parsed(Query.Render([("author", author), ("quote", quote)])) ==
            [("author", Url.LowBytes(author)), ("quote", Url.LowBytes(quote))]
  {
    Query.ParseRender([("author", author), ("quote", quote)]);
    Url.LowBytesKeep("author");
    Url.LowBytesKeep("quote");
  }

  lemma SubmittedFields(author: string, quote: string)
    ensures var body := Query.Render([("author", author), ("quote", quote)]);
            && Field(body, "author") == Url.Decoded(Url.LowBytes(author))
            && Field(body, "quote") == Url.Decoded(Url.LowBytes(quote))
  {
    FormRead(author, quote);
    GetEither(Url.LowBytes(author), Url.LowBytes(quote));
  }

  /** `BadId` is the failing `expect`, and `Missing` the failing `unwrap` of line 89. */
  datatype Page = Blank | BadId | NotFound | Missing | Found(quote: Quote)

  function Lookup(m: Quotes, id: string): Page {
    if id == "undefined" then Blank
    else
      match ParseUnsigned(id, U64_LIMIT)
      case None => BadId
      case Some(n) =>
        if n >= |m| then NotFound
        else if Decimal(n) !in m then Missing
        else Found(m[Decimal(n)])
  }

  /** The `unwrap` never fails: every number below the size is found, and none from there on. */
  lemma NeverMissing(m: Quotes, history: seq<Quote>, id: string)
    requires Matches(m, history)
    ensures !Lookup(m, id).Missing?
    ensures Lookup(m, id).Blank? <==> id == "undefined"
    ensures forall n: nat :: |history| <= n < U64_LIMIT ==> Lookup(m, Decimal(n)).NotFound?
    ensures forall n: nat :: n < |history| && n < U64_LIMIT ==>
              Lookup(m, Decimal(n)).Found? && Kept(Lookup(m, Decimal(n)).quote, history[n])
  {
    if id != "undefined" && ParseUnsigned(id, U64_LIMIT).Some? {
      var n := ParseUnsigned(id, U64_LIMIT).value;
      assert n < |history| ==> Decimal(n) in m;
    }
    forall n: nat | n < U64_LIMIT
      ensures if n < |history| then Lookup(m, Decimal(n)).Found? && Kept(Lookup(m, Decimal(n)).quote, history[n])
              else Lookup(m, Decimal(n)).NotFound?
    {
      ParseDecimal(n, U64_LIMIT);
      assert IsDigit(Decimal(n)[0]) && !IsDigit("undefined"[0]);
    }
  }

  // ---- Runs of insertions and restarts

  datatype Store = Store(quotes: Quotes, file: Option<string>)

  /** A quote is inserted and the map saved in some order, or the program starts again from its file. */
  datatype Op = Insert(quote: Quote, order: seq<string>) | Restart

  predicate Enabled(s: Store, op: Op) {
    op.Insert? ==> IsOrder(op.order, Added(s.quotes, op.quote))
  }

  function Step(s: Store, op: Op): Store
    requires Enabled(s, op)
  {
    match op
    case Insert(q, order) => Store(Added(s.quotes, q), Some(FileText(order, Added(s.quotes, q))))
    case Restart => s.(quotes := if s.file.Some? then LoadedText(s.file.value).quotes else map[])
  }

  predicate Inv(s: Store, history: seq<Quote>) {
    && Matches(s.quotes, history)
    && (match s.file
        case None => history == []
        case Some(text) => LoadedText(text) == Loaded(LowMap(s.quotes), true))
  }

  function Recorded(history: seq<Quote>, op: Op): seq<Quote> {
    if op.Insert? then history + [op.quote] else history
  }

  /** The history followed by the quotes a run inserts. */
  function Inserted(history: seq<Quote>, ops: seq<Op>): seq<Quote>
    decreases |ops|
  {
    if ops == [] then history else Inserted(Recorded(history, ops[0]), ops[1..])
  }

  lemma InsertInv(s: Store, history: seq<Quote>, q: Quote, order: seq<string>)
    requires Inv(s, history) && Enabled(s, Insert(q, order))
    ensures Inv(Step(s, Insert(q, order)), history + [q])
  {
    AddMatches(s.quotes, history, q);
    MatchesPlain(Added(s.quotes, q), history + [q]);
    LoadSave(order, Added(s.quotes, q));
  }

  lemma RestartInv(s: Store, history: seq<Quote>)
    requires Inv(s, history)
    ensures Inv(Step(s, Restart), history)
  {
    if s.file.Some? {
      LowMatches(s.quotes, history);
    }
  }

  lemma StepInv(s: Store, history: seq<Quote>, op: Op)
    requires Inv(s, history) && Enabled(s, op)
    ensures Inv(Step(s, op), Recorded(history, op))
  {
    match op {
      case Insert(q, order) => InsertInv(s, history, q, order);
      case Restart => RestartInv(s, history);
    }
  }

  lemma RestartKeeps(s: Store, history: seq<Quote>)
    requires Inv(s, history)
    ensures var t := Step(s, Restart);
            && Inv(t, history) && t.quotes == LowMap(s.quotes)
            && ((forall q :: q in history ==> Latin1(q)) ==> t.quotes == s.quotes)
  {
    RestartInv(s, history);
    if s.file.None? {
      assert Ids(0) == {} && s.quotes == map[] && LowMap(s.quotes) == map[];
    }
    Latin1Same(s.quotes, Step(s, Restart).quotes, history);
  }

  predicate Runs(s: Store, ops: seq<Op>)
    decreases |ops|
  {
    ops == [] || (Enabled(s, ops[0]) && Runs(Step(s, ops[0]), ops[1..]))
  }

  function After(s: Store, ops: seq<Op>): Store
    requires Runs(s, ops)
    decreases |ops|
  {
    if ops == [] then s else After(Step(s, ops[0]), ops[1..])
  }

  lemma {:induction false} RunInv(s: Store, history: seq<Quote>, ops: seq<Op>)
    requires Inv(s, history) && Runs(s, ops)
    ensures Inv(After(s, ops), Inserted(history, ops))
    decreases |ops|
  {
    if ops != [] {
      StepInv(s, history, ops[0]);
      RunInv(Step(s, ops[0]), Recorded(history, ops[0]), ops[1..]);
    }
  }

  /**
    After any run from the empty store the keys are the decimals below the number of insertions, and quote
    number `i` is the `i`-th one inserted, as long as every text is Latin-1, and what a file keeps of it otherwise.
   */
  lemma RunKeepsQuotes(ops: seq<Op>)
    requires Runs(Store(map[], None), ops)
    ensures var m, h := After(Store(map[], None), ops).quotes, Inserted([], ops);
            && Matches(m, h)
            && ((forall q :: q in h ==> Latin1(q)) ==> forall i: nat :: i < |h| ==> m[Decimal(i)] == h[i])
  {
    assert Ids(0) == {};
    RunInv(Store(map[], None), [], ops);
    var m, h := After(Store(map[], None), ops).quotes, Inserted([], ops);
    if forall q :: q in h ==> Latin1(q) {
      Latin1Exact(m, h);
    }
  }

  // ---- The application

  lemma {:induction false} FileTextAppend(order: seq<string>, k: string, m: Quotes)
    requires k in m && forall j :: j in order ==> j in m
    ensures FileText(order + [k], m) == FileText(order, m) + (LineText(k, m[k]) + "\n")
  {
    if order == [] {
      assert [k][1..] == [] && LineText(k, m[k]) + "\n" + "" == LineText(k, m[k]) + "\n";
    } else {
      assert (order + [k])[1..] == order[1..] + [k];
      FileTextAppend(order[1..], k, m);
    }
  }

  class App {
    var quotes: Quotes
    var file: Option<string>
    ghost var history: seq<Quote>

    ghost predicate Valid()
      reads this
    {
      Inv(Store(quotes, file), history)
    }

    constructor ()
      ensures Valid() && quotes == map[] && file == None && history == []
    {
      quotes, file, history := map[], None, [];
      assert Ids(0) == {};
    }

    /** The text of the file, for whichever order the map is iterated in. */
    method Rendered() returns (out: string, ghost order: seq<string>)
      ensures IsOrder(order, quotes) && out == FileText(order, quotes)
    {
      var keys := quotes.Keys;
      out, order := "", [];
      while keys != {}
        invariant keys <= quotes.Keys
        invariant forall k :: k in order <==> k in quotes.Keys - keys
        invariant out == FileText(order, quotes)
        decreases |keys|
      {
        var k :| k in keys;
        var line := SaveQuote(quotes[k]);
        FileTextAppend(order, k, quotes);
        out, keys, order := out + (k + ":" + line + "\n"), keys - {k}, order + [k];
      }
    }

    method Save() returns (ghost order: seq<string>)
      modifies this`file
      ensures IsOrder(order, quotes) && file == Some(FileText(order, quotes))
    {
      var out;
      out, order := Rendered();
      file := Some(out);
    }

    /** `false` where an `unwrap` panics. */
    method Load() returns (ok: bool)
      modifies this`quotes
      ensures match file {
                case None => ok && quotes == old(quotes)
                case Some(text) => Loaded(quotes, ok) == LoadedText(text)
              }
    {
      if file.None? {
        return true;
      }
      quotes := map[];
      var lines := Lines(file.value);
      assert lines[0..] == lines;
      for i := 0 to |lines|
        invariant LoadedFrom(lines[i..], quotes) == LoadedText(file.value)
      {
        assert lines[i..][0] == lines[i] && lines[i..][1..] == lines[i + 1..];
        var pair := SplitOnce(lines[i], ':');
        if pair.None? {
          return false;
        }
        var entry := LoadQuote(pair.value.1);
        match entry {
          case Panics => return false;
          case Skipped =>
          case Got(q) => quotes := quotes[pair.value.0 := q];
        }
      }
      return true;
    }

    /** The route of a new quote: the number it got, or `None` for a panic that changes nothing. */
    method New(body: string, now: U64) returns (id: Option<nat>)
      requires Valid()
      modifies this
      ensures Valid()
      ensures match Submitted(body, now) {
                case None => id == None && quotes == old(quotes) && file == old(file) && history == old(history)
                case Some(q) =>
                  && id == Some(|old(history)|) && Decimal(|old(history)|) !in old(quotes)
                  && quotes == old(quotes)[Decimal(|old(history)|) := q] && history == old(history) + [q]
              }
    {
      var submitted := ParseForm(body, now);
      if submitted.None? {
        return None;
      }
      var n, q := |quotes|, submitted.value;
      AddMatches(quotes, history, q);
      ghost var before := Store(quotes, file);
      quotes := quotes[Decimal(n) := q];
      ghost var order := Save();
      InsertInv(before, history, q, order);
      history := history + [q];
      return Some(n);
    }

    /** A fresh start of the program on the file of this one: it never panics and keeps every quote. */
    method Restart() returns (ok: bool)
      requires Valid()
      modifies this
      ensures Valid() && ok && file == old(file) && history == old(history)
      ensures quotes == LowMap(old(quotes))
      ensures (forall q :: q in history ==> Latin1(q)) ==> quotes == old(quotes)
    {
      RestartKeeps(Store(quotes, file), history);
      quotes := map[];
      ok := Load();
    }
  }
}
