/**
  The text of server-sent events, and the client of section 9.2.6 of the WHATWG HTML standard
  that interprets it.
 */
module SseFormat {
  import opened Text
  import opened Wrappers

  datatype Event = Event(id: Option<nat>, event: string, data: string)

  /** What the stream can be asked to write. */
  datatype Item = Sent(event: Event) | Retry(millis: nat)

  // ---- Writing

  function IdLine(id: Option<nat>): string {
    if id.Some? then "id: " + Decimal(id.value) + "\n" else ""
  }

  function DataLines(parts: seq<string>): string {
    if parts == [] then "" else "data: " + parts[0] + "\n" + DataLines(parts[1..])
  }

  function EventText(e: Event): string {
    IdLine(e.id) + ("event: " + e.event + "\n" + (DataLines(Split(e.data, {'\n'})) + "\n"))
  }

  function ItemText(item: Item): string {
    match item
    case Sent(e) => EventText(e)
    case Retry(n) => "retry: " + Decimal(n) + "\n\n"
  }

  function WireText(items: seq<Item>): string {
    if items == [] then "" else ItemText(items[0]) + WireText(items[1..])
  }

  lemma DataLinesStep(out: string, parts: seq<string>, i: nat)
    requires i < |parts|
    ensures out + DataLines(parts[i..]) == out + ("data: " + parts[i] + "\n") + DataLines(parts[i + 1..])
  {
    assert parts[i..][0] == parts[i] && parts[i..][1..] == parts[i + 1..];
  }

  method WriteData(data: string) returns (out: string)
    ensures out == DataLines(Split(data, {'\n'}))
  {
    out := "";
    var parts := Split(data, {'\n'});
    assert parts[0..] == parts;
    for i := 0 to |parts|
      invariant out + DataLines(parts[i..]) == DataLines(parts)
    {
      DataLinesStep(out, parts, i);
      out := out + ("data: " + parts[i] + "\n");
    }
    assert out + "" == out;
  }

  method ToString(e: Event) returns (out: string)
    ensures out == EventText(e)
  {
    out := "";
    if e.id.Some? {
      out := "id: " + Decimal(e.id.value) + "\n";
    }
    var data := WriteData(e.data);
    out := out + ("event: " + e.event + "\n" + (data + "\n"));
  }

  // ---- The client

  datatype Message = Message(kind: string, data: string, lastId: string)

  /** The buffers of the event source, the reconnection time, and what was dispatched so far. */
  datatype Client = Client(data: string, kind: string, lastId: string, retry: Option<nat>, out: seq<Message>)

  const START := Client("", "", "", None, [])

  /** A line ends in CR LF, LF or CR; an unfinished line is left alone. */
  function NextLine(s: string): (r: Option<(string, string)>)
    ensures r.Some? ==> |r.value.1| < |s| && Free(r.value.0, {'\r', '\n'})
  {
    var i := IndexOf(s, {'\r', '\n'});
    if i == |s| then None
    else if s[i] == '\r' && i + 1 < |s| && s[i + 1] == '\n' then Some((s[..i], s[i + 2..]))
    else Some((s[..i], s[i + 1..]))
  }

  function Dispatch(c: Client): Client {
    if c.data == "" then c.(kind := "")
    else
      var data := if c.data[|c.data| - 1] == '\n' then c.data[..|c.data| - 1] else c.data;
      var kind := if c.kind == "" then "message" else c.kind;
      c.(data := "", kind := "", out := c.out + [Message(kind, data, c.lastId)])
  }

  function SetField(c: Client, field: string, value: string): Client {
    if field == "event" then c.(kind := value)
    else if field == "data" then c.(data := c.data + value + "\n")
    else if field == "id" then if '\0' in value then c else c.(lastId := value)
    else if field == "retry" then if value != "" && AllDigits(value) then c.(retry := Some(DecimalValue(value))) else c
    else c
  }

  function DropSpace(value: string): string {
    if value != "" && value[0] == ' ' then value[1..] else value
  }

  function ProcessLine(c: Client, line: string): Client {
    if line == "" then Dispatch(c)
    else if line[0] == ':' then c
    else
      match SplitOnce(line, ':')
      case Some((field, value)) => SetField(c, field, DropSpace(value))
      case None => SetField(c, line, "")
  }

  function Interpret(s: string, c: Client): Client
    decreases |s|
  {
    match NextLine(s)
    case None => c
    case Some((line, rest)) => Interpret(rest, ProcessLine(c, line))
  }

  // ---- What a client should see

  /** Neither end of line in the type, and no carriage return in the data. */
  predicate Clean(e: Event) {
    Free(e.event, {'\r', '\n'}) && Free(e.data, {'\r'})
  }

  predicate CleanItem(item: Item) {
    item.Sent? ==> Clean(item.event)
  }

  function Received(c: Client, item: Item): Client {
    match item
    case Sent(e) =>
      var id := if e.id.Some? then Decimal(e.id.value) else c.lastId;
      c.(data := "", kind := "", lastId := id,
         out := c.out + [Message(if e.event == "" then "message" else e.event, e.data, id)])
    case Retry(n) => c.(data := "", kind := "", retry := Some(n))
  }

  function ReceivedAll(c: Client, items: seq<Item>): Client
    decreases |items|
  {
    if items == [] then c else ReceivedAll(Received(c, items[0]), items[1..])
  }

  // ---- Clean events arrive

  lemma LineStep(c: Client, line: string, rest: string)
    requires Free(line, {'\r', '\n'})
    ensures Interpret(line + "\n" + rest, c) == Interpret(rest, ProcessLine(c, line))
  {
    IndexOfAppend(line, '\n', rest, {'\r', '\n'});
  }

  lemma ColonLine(field: string, value: string)
    requires field != "" && ':' !in field
    ensures var line := field + ": " + value;
            line != "" && line[0] != ':' && SplitOnce(line, ':') == Some((field, " " + value))
  {
    assert field + ": " + value == field + [':'] + (" " + value);
    SplitOnceAt(field, ':', " " + value);
  }

  lemma SpaceDropped(value: string)
    ensures DropSpace(" " + value) == value
  {
  }

  lemma ColonProcessed(c: Client, line: string, field: string, value: string)
    requires line != "" && line[0] != ':' && SplitOnce(line, ':') == Some((field, value))
    ensures ProcessLine(c, line) == SetField(c, field, DropSpace(value))
  {
  }

  lemma FieldLine(c: Client, field: string, value: string)
    requires field != "" && ':' !in field
    ensures ProcessLine(c, field + ": " + value) == SetField(c, field, value)
  {
    ColonLine(field, value);
    SpaceDropped(value);
    ColonProcessed(c, field + ": " + value, field, " " + value);
  }

  lemma FieldStep(c: Client, field: string, value: string, rest: string)
    requires field != "" && ':' !in field && Free(field, {'\r', '\n'}) && Free(value, {'\r', '\n'})
    ensures Interpret(field + ": " + value + "\n" + rest, c) == Interpret(rest, SetField(c, field, value))
  {
    LineStep(c, field + ": " + value, rest);
    FieldLine(c, field, value);
  }

  function Terminated(parts: seq<string>): string {
    if parts == [] then "" else parts[0] + "\n" + Terminated(parts[1..])
  }

  lemma TerminatedSplit(part: string, parts: seq<string>, rest: string)
    requires Terminated(parts) == rest + "\n"
    ensures Terminated([part] + parts) == (part + "\n" + rest) + "\n"
  {
    assert ([part] + parts)[1..] == parts;
    assert part + "\n" + (rest + "\n") == (part + "\n" + rest) + "\n";
  }

  lemma {:induction false} SplitTerminated(data: string)
    ensures Terminated(Split(data, {'\n'})) == data + "\n"
    decreases |data|
  {
    var i := IndexOf(data, {'\n'});
    if i < |data| {
      SplitAtFirst(data, {'\n'});
      Around(data, i);
      SplitTerminated(data[i + 1..]);
      TerminatedSplit(data[..i], Split(data[i + 1..], {'\n'}), data[i + 1..]);
    }
  }

  lemma {:induction false} SplitClean(data: string)
    requires Free(data, {'\r'})
    ensures forall p :: p in Split(data, {'\n'}) ==> Free(p, {'\r', '\n'})
    decreases |data|
  {
    var i := IndexOf(data, {'\n'});
    if i < |data| {
      SplitClean(data[i + 1..]);
    }
  }

  lemma DataLinesCons(parts: seq<string>, rest: string)
    requires parts != []
    ensures DataLines(parts) + rest == "data" + ": " + parts[0] + "\n" + (DataLines(parts[1..]) + rest)
  {
    var line, more := "data: " + parts[0] + "\n", DataLines(parts[1..]);
    assert (line + more) + rest == line + (more + rest);
  }

  lemma DataLineStep(c: Client, part: string, rest: string)
    requires Free(part, {'\r', '\n'})
    ensures Interpret("data" + ": " + part + "\n" + rest, c) == Interpret(rest, c.(data := c.data + (part + "\n")))
  {
    FieldStep(c, "data", part, rest);
    assert c.data + part + "\n" == c.data + (part + "\n");
  }

  lemma TerminatedCons(data: string, parts: seq<string>)
    requires parts != []
    ensures data + Terminated(parts) == (data + (parts[0] + "\n")) + Terminated(parts[1..])
  {
  }

  lemma {:induction false} DataStep(c: Client, parts: seq<string>, rest: string)
    requires forall p :: p in parts ==> Free(p, {'\r', '\n'})
    ensures Interpret(DataLines(parts) + rest, c) == Interpret(rest, c.(data := c.data + Terminated(parts)))
    decreases |parts|
  {
    if parts == [] {
      assert "" + rest == rest && c.data + "" == c.data;
    } else {
      DataLinesCons(parts, rest);
      DataLineStep(c, parts[0], DataLines(parts[1..]) + rest);
      DataStep(c.(data := c.data + (parts[0] + "\n")), parts[1..], rest);
      TerminatedCons(c.data, parts);
    }
  }

  lemma BlankStep(c: Client, rest: string)
    ensures Interpret("\n" + rest, c) == Interpret(rest, Dispatch(c))
  {
    assert "" + "\n" + rest == "\n" + rest;
    LineStep(c, "", rest);
  }

  lemma IdStep(c: Client, id: Option<nat>, rest: string)
    ensures Interpret(IdLine(id) + rest, c) ==
            Interpret(rest, c.(lastId := if id.Some? then Decimal(id.value) else c.lastId))
  {
    if id.Some? {
      DecimalPlain(id.value);
      assert IdLine(id) + rest == "id" + ": " + Decimal(id.value) + "\n" + rest;
      FieldStep(c, "id", Decimal(id.value), rest);
    } else {
      assert "" + rest == rest;
    }
  }

  function Tail(e: Event, rest: string): string {
    DataLines(Split(e.data, {'\n'})) + ("\n" + rest)
  }

  lemma EventParts(e: Event, rest: string)
    ensures EventText(e) + rest == IdLine(e.id) + ("event" + ": " + e.event + "\n" + Tail(e, rest))
  {
    var id, line, data := IdLine(e.id), "event: " + e.event + "\n", DataLines(Split(e.data, {'\n'}));
    assert (id + (line + (data + "\n"))) + rest == id + (line + (data + ("\n" + rest)));
  }

  lemma {:induction false} TailStep(c: Client, e: Event, rest: string)
    requires Free(e.data, {'\r'}) && c.data == ""
    ensures Interpret(Tail(e, rest), c) == Interpret(rest, Dispatch(c.(data := e.data + "\n")))
  {
    SplitClean(e.data);
    DataStep(c, Split(e.data, {'\n'}), "\n" + rest);
    SplitTerminated(e.data);
    assert "" + (e.data + "\n") == e.data + "\n";
    BlankStep(c.(data := e.data + "\n"), rest);
  }

  lemma {:induction false} EventStep(c: Client, e: Event, rest: string)
    requires Clean(e) && c.data == ""
    ensures Interpret(EventText(e) + rest, c) == Interpret(rest, Received(c, Sent(e)))
  {
    EventParts(e, rest);
    IdStep(c, e.id, "event" + ": " + e.event + "\n" + Tail(e, rest));
    var c1 := c.(lastId := if e.id.Some? then Decimal(e.id.value) else c.lastId);
    FieldStep(c1, "event", e.event, Tail(e, rest));
    TailStep(c1.(kind := e.event), e, rest);
    assert (e.data + "\n")[..|e.data|] == e.data;
  }

  lemma {:induction false} RetryStep(c: Client, n: nat, rest: string)
    requires c.data == ""
    ensures Interpret(ItemText(Retry(n)) + rest, c) == Interpret(rest, Received(c, Retry(n)))
  {
    DecimalPlain(n);
    DecimalValueDecimal(n);
    assert ItemText(Retry(n)) + rest == "retry" + ": " + Decimal(n) + "\n" + ("\n" + rest);
    FieldStep(c, "retry", Decimal(n), "\n" + rest);
    BlankStep(c.(retry := Some(n)), rest);
  }

  lemma {:induction false} CleanArrives(c: Client, items: seq<Item>)
    requires c.data == "" && forall i :: i in items ==> CleanItem(i)
    ensures Interpret(WireText(items), c) == ReceivedAll(c, items)
    decreases |items|
  {
    if items != [] {
      var rest := WireText(items[1..]);
      assert CleanItem(items[0]);
      match items[0] {
        case Sent(e) => EventStep(c, e, rest);
        case Retry(n) => RetryStep(c, n, rest);
      }
      CleanArrives(Received(c, items[0]), items[1..]);
    }
  }

  // ---- Nothing else does

  predicate CleanMessage(m: Message) {
    Free(m.kind, {'\r', '\n'}) && Free(m.data, {'\r'})
  }

  predicate CleanClient(c: Client) {
    Free(c.kind, {'\r', '\n'}) && Free(c.data, {'\r'}) && forall m :: m in c.out ==> CleanMessage(m)
  }

  lemma CleanField(c: Client, field: string, value: string)
    requires CleanClient(c) && Free(value, {'\r', '\n'})
    ensures CleanClient(SetField(c, field, value))
  {
    assert Free(value, {'\r'}) && Free("\n", {'\r'});
    FreeAppend(c.data, value, {'\r'});
    FreeAppend(c.data + value, "\n", {'\r'});
  }

  lemma CleanDispatch(c: Client)
    requires CleanClient(c)
    ensures CleanClient(Dispatch(c))
  {
    if c.data != "" {
      var data := if c.data[|c.data| - 1] == '\n' then c.data[..|c.data| - 1] else c.data;
      assert Free(data, {'\r'}) && Free("message", {'\r', '\n'});
    }
  }

  lemma CleanLine(c: Client, line: string)
    requires CleanClient(c) && Free(line, {'\r', '\n'})
    ensures CleanClient(ProcessLine(c, line))
  {
    if line == "" {
      CleanDispatch(c);
    } else if line[0] != ':' {
      CleanField(c, line, "");
      match SplitOnce(line, ':') {
        case None =>
        case Some((field, value)) =>
          FreeAppend(field + [':'], value, {'\r', '\n'});
          CleanField(c, field, DropSpace(value));
      }
    }
  }

  /** Whatever the text, the client never sees an end of line in a type nor a carriage return in data. */
  lemma {:induction false} InterpretIsClean(s: string, c: Client)
    requires CleanClient(c)
    ensures CleanClient(Interpret(s, c))
    decreases |s|
  {
    match NextLine(s) {
      case None =>
      case Some((line, rest)) =>
        CleanLine(c, line);
        InterpretIsClean(rest, ProcessLine(c, line));
    }
  }

  lemma {:induction false} AllReceived(c: Client, items: seq<Item>)
    requires forall m :: m in ReceivedAll(c, items).out ==> CleanMessage(m)
    ensures forall i :: i in items ==> CleanItem(i)
    decreases |items|
  {
    if items != [] {
      var d := Received(c, items[0]);
      AllReceived(d, items[1..]);
      OutGrows(d, items[1..]);
      if items[0].Sent? {
        var m := d.out[|d.out| - 1];
        assert m in d.out;
        assert CleanMessage(m);
      }
      assert CleanItem(items[0]);
      assert items == [items[0]] + items[1..];
    }
  }

  lemma {:induction false} OutGrows(c: Client, items: seq<Item>)
    ensures forall m :: m in c.out ==> m in ReceivedAll(c, items).out
    decreases |items|
  {
    if items != [] {
      OutGrows(Received(c, items[0]), items[1..]);
    }
  }

  /**
    A client that interprets the stream from the start ends with every event, its id, type and data,
    and with the last reconnection time, exactly when all events are clean.
   */
  lemma RoundTrip(items: seq<Item>)
    ensures Interpret(WireText(items), START) == ReceivedAll(START, items) <==> forall i :: i in items ==> CleanItem(i)
  {
    if forall i :: i in items ==> CleanItem(i) {
      CleanArrives(START, items);
    } else if Interpret(WireText(items), START) == ReceivedAll(START, items) {
      InterpretIsClean(WireText(items), START);
      AllReceived(START, items);
    }
  }
}
