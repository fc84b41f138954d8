/** The wire form of events: JSON objects whose strings are escaped by the host layer and whose
    bodies are base-64 text. */
module EventCodec {
  import opened Options
  import opened HttpEvents
  import opened JsonText
  import opened JsonDocument
  import opened JsonCompact
  import Base64
  import JsonParser

  // ----- the host layer's spelling of characters -----

  /** The control characters of Unicode. */
  predicate IsControl(c: char) {
    c as int < 0x20 || 0x7F <= c as int < 0xA0
  }

  function HostEscape(c: char): string {
    if c == '\\' then "\\\\"
    else if c == '"' then "\\\""
    else if c == '\n' then "\\n"
    else if c == '\r' then "\\r"
    else if c == '\t' then "\\t"
    else if IsControl(c) then "\\u" + Hex4(c as int, false)
    else [c]
  }

  method EscapeChar(ch: char) returns (t: string)
    ensures t == HostEscape(ch)
  {
    match ch
    case '\\' => t := "\\\\";
    case '"' => t := "\\\"";
    case '\n' => t := "\\n";
    case '\r' => t := "\\r";
    case '\t' => t := "\\t";
    case _ => t := if IsControl(ch) then "\\u" + Hex4(ch as int, false) else [ch];
  }

  method Escape(value: string) returns (escaped: string)
    ensures escaped == EscapeAll(HostEscape, value)
  {
    escaped := "";
    assert value[0..] == value;
    for i := 0 to |value|
      invariant escaped + EscapeAll(HostEscape, value[i..]) == EscapeAll(HostEscape, value)
    {
      var t := EscapeChar(value[i]);
      assert value[i..][1..] == value[i + 1..];
      assert escaped + (t + EscapeAll(HostEscape, value[i + 1..])) == escaped + t + EscapeAll(HostEscape, value[i + 1..]);
      escaped := escaped + t;
    }
    assert escaped + "" == escaped;
  }

  lemma {:induction false} HostEscapeIsFaithful()
    ensures Faithful(HostEscape) && forall c: char :: !Mute(HostEscape(c))
  {
  }

  /** Unlike the JSON writer's strings, every string reads back. */
  lemma {:induction false} AlwaysSpeakable(s: string)
    ensures Speakable(HostEscape, s)
    decreases |s|
  {
    HostEscapeIsFaithful();
    if s != [] {
      AlwaysSpeakable(s[1..]);
    }
  }

  // ----- events as trees -----

  function Field(key: string, value: string): Entry {
    Entry(key, Str(value))
  }

  function HeaderTree(h: Header): Json {
    Array([Str(h.name), Str(h.value)])
  }

  function HeaderTrees(headers: seq<Header>): (r: seq<Json>)
    ensures |r| == |headers|
  {
    if headers == [] then [] else [HeaderTree(headers[0])] + HeaderTrees(headers[1..])
  }

  function EventTree(e: Event): Json {
    match e
    case Response(status, headers) =>
      Object([Field("event", "response"), Entry("status", Int(status)), Entry("headers", Array(HeaderTrees(headers)))])
    case Chunk(bytes) => Object([Field("event", "chunk"), Field("bodyBase64", Base64.Encoded(bytes))])
    case Done => Object([Field("event", "done")])
    case Failure(code, message) => Object([Field("event", "error"), Field("code", code), Field("message", message)])
  }

  datatype Malformed =
    | NotJson(error: Error)
    | MissingEvent
    | MissingStatus
    | BadHeaders
    | BadBase64
    | MissingBody
    | UnknownEvent(name: string)

  function HeadersOf(pairs: seq<Json>): Option<seq<Header>> {
    if pairs == [] then Some([])
    else
      match (HeaderOf(pairs[0]), HeadersOf(pairs[1..]))
      case (Some(h), Some(rest)) => Some([h] + rest)
      case _ => None
  }

  /** A header is an array that starts with two strings. */
  function HeaderOf(pair: Json): Option<Header> {
    if pair.Array? && |pair.items| >= 2 && pair.items[0].Str? && pair.items[1].Str?
    then Some(Header(pair.items[0].s, pair.items[1].s))
    else None
  }

  function TextOr(v: Option<Json>, default: string): string {
    if v.Some? && v.value.Str? then v.value.s else default
  }

  function ResponseOf(root: Json): Result<Event, Malformed> {
    match root.Get("status")
    case Some(Int(status)) =>
      (match root.Get("headers")
       case Some(Array(pairs)) =>
         (match HeadersOf(pairs) case Some(headers) => Ok(Response(status, headers)) case None => Err(BadHeaders))
       case _ => Ok(Response(status, [])))
    case _ => Err(MissingStatus)
  }

  function ChunkOf(root: Json): Result<Event, Malformed> {
    match root.Get("bodyBase64")
    case Some(Str(text)) => (match Base64.Decoded(text) case Some(bytes) => Ok(Chunk(bytes)) case None => Err(BadBase64))
    case _ => Err(MissingBody)
  }

  /** The event a tree stands for. */
  function EventOf(root: Json): Result<Event, Malformed> {
    match root.Get("event")
    case Some(Str(name)) =>
      if name == "response" then ResponseOf(root)
      else if name == "chunk" then ChunkOf(root)
      else if name == "done" then Ok(Done)
      else if name == "error"
      then Ok(Failure(TextOr(root.Get("code"), "unknown"), TextOr(root.Get("message"), "transport error")))
      else Err(UnknownEvent(name))
    case _ => Err(MissingEvent)
  }

  function EventOfText(text: string): Result<Event, Malformed> {
    match ParseText(text) case Ok(root) => EventOf(root) case Err(e) => Err(NotJson(e))
  }

  // ----- trees stand for their events -----

  lemma {:induction false} HeadersComeBack(headers: seq<Header>)
    ensures HeadersOf(HeaderTrees(headers)) == Some(headers)
    decreases |headers|
  {
    if headers != [] {
      HeadersComeBack(headers[1..]);
      assert HeaderOf(HeaderTree(headers[0])) == Some(headers[0]);
      assert headers == [headers[0]] + headers[1..];
      assert HeaderTrees(headers)[1..] == HeaderTrees(headers[1..]);
    }
  }

  lemma {:induction false} FindFirst(e: Entry, rest: seq<Entry>)
    ensures Find([e] + rest, e.key) == Some(e.value)
  {
  }

  lemma {:induction false} FindLater(e: Entry, rest: seq<Entry>, key: string)
    requires key != e.key
    ensures Find([e] + rest, key) == Find(rest, key)
  {
    assert ([e] + rest)[1..] == rest;
  }

  lemma {:induction false} FindThree(a: Entry, b: Entry, c: Entry)
    requires a.key != b.key && a.key != c.key && b.key != c.key
    ensures Find([a, b, c], a.key) == Some(a.value) && Find([a, b, c], b.key) == Some(b.value)
         && Find([a, b, c], c.key) == Some(c.value)
  {
    assert [a, b, c] == [a] + ([b] + ([c] + []));
    FindFirst(a, [b] + ([c] + []));
    FindLater(a, [b] + ([c] + []), b.key);
    FindLater(a, [b] + ([c] + []), c.key);
    FindFirst(b, [c] + []);
    FindLater(b, [c] + [], c.key);
    FindFirst(c, []);
  }

  lemma {:induction false} FindTwo(a: Entry, b: Entry)
    requires a.key != b.key
    ensures Find([a, b], a.key) == Some(a.value) && Find([a, b], b.key) == Some(b.value)
  {
    assert [a, b] == [a] + ([b] + []);
    FindFirst(a, [b] + []);
    FindLater(a, [b] + [], b.key);
    FindFirst(b, []);
  }

  lemma {:induction false} EventComesBack(e: Event)
    ensures EventOf(EventTree(e)) == Ok(e)
  {
    match e
    case Response(status, headers) =>
      FindThree(Field("event", "response"), Entry("status", Int(status)), Entry("headers", Array(HeaderTrees(headers))));
      HeadersComeBack(headers);
    case Chunk(bytes) =>
      FindTwo(Field("event", "chunk"), Field("bodyBase64", Base64.Encoded(bytes)));
      Base64.DecodeUndoesEncode(bytes);
    case Done => FindFirst(Field("event", "done"), []);
    case Failure(code, message) => FindThree(Field("event", "error"), Field("code", code), Field("message", message));
  }

  // ----- trees of events can be read -----

  lemma {:induction false} TextPortable(s: string)
    ensures Plain(Str(s)) && Readable(HostEscape, Str(s))
  {
    AlwaysSpeakable(s);
  }

  lemma {:induction false} HeaderPortable(h: Header)
    ensures Plain(HeaderTree(h)) && Readable(HostEscape, HeaderTree(h))
  {
    var pair := [Str(h.name), Str(h.value)];
    TextPortable(h.name);
    TextPortable(h.value);
    assert pair[1..] == [Str(h.value)] && [Str(h.value)][1..] == [];
    assert AllPlain(pair[1..]) && AllReadable(HostEscape, pair[1..]);
  }

  lemma {:induction false} HeadersPortable(headers: seq<Header>)
    ensures AllPlain(HeaderTrees(headers)) && AllReadable(HostEscape, HeaderTrees(headers))
    decreases |headers|
  {
    if headers != [] {
      HeadersPortable(headers[1..]);
      HeaderPortable(headers[0]);
      assert HeaderTrees(headers)[1..] == HeaderTrees(headers[1..]);
    }
  }

  predicate EntryPortable(e: Entry) {
    Plain(e.value) && Readable(HostEscape, e.value)
  }

  lemma {:induction false} EntriesPortable(entries: seq<Entry>)
    requires forall i | 0 <= i < |entries| :: EntryPortable(entries[i])
    ensures EntriesPlain(entries) && EntriesReadable(HostEscape, entries)
    decreases |entries|
  {
    if entries != [] {
      assert EntryPortable(entries[0]);
      AlwaysSpeakable(entries[0].key);
      EntriesPortable(entries[1..]);
    }
  }

  lemma {:induction false} ThreePortable(a: Entry, b: Entry, c: Entry)
    requires EntryPortable(a) && EntryPortable(b) && EntryPortable(c)
    ensures Plain(Object([a, b, c])) && Readable(HostEscape, Object([a, b, c]))
  {
    EntriesPortable([a, b, c]);
  }

  lemma {:induction false} FieldPortable(key: string, value: string)
    ensures EntryPortable(Field(key, value))
  {
    TextPortable(value);
  }

  predicate InRange(e: Event) {
    e.Response? ==> I64_MIN <= e.status <= I64_MAX
  }

  lemma {:induction false} EventPortable(e: Event)
    requires InRange(e)
    ensures Plain(EventTree(e)) && Readable(HostEscape, EventTree(e))
  {
    match e
    case Response(status, headers) =>
      FieldPortable("event", "response");
      HeadersPortable(headers);
      ThreePortable(Field("event", "response"), Entry("status", Int(status)), Entry("headers", Array(HeaderTrees(headers))));
    case Chunk(bytes) =>
      FieldPortable("event", "chunk");
      FieldPortable("bodyBase64", Base64.Encoded(bytes));
      EntriesPortable([Field("event", "chunk"), Field("bodyBase64", Base64.Encoded(bytes))]);
    case Done =>
      FieldPortable("event", "done");
      EntriesPortable([Field("event", "done")]);
    case Failure(code, message) =>
      FieldPortable("event", "error");
      FieldPortable("code", code);
      FieldPortable("message", message);
      ThreePortable(Field("event", "error"), Field("code", code), Field("message", message));
  }

  // ----- the codec -----

  /** The text of an event decodes to that event: escaping, JSON and base-64 undone. */
  lemma {:induction false} DecodeUndoesEncode(e: Event)
    requires InRange(e)
    ensures EventOfText(Compact(HostEscape, EventTree(e))) == Ok(e)
  {
    HostEscapeIsFaithful();
    EventPortable(e);
    CompactParses(HostEscape, EventTree(e));
    EventComesBack(e);
  }

  // ----- the text, piece by piece -----

  predicate Verbatim(s: string) {
    forall i | 0 <= i < |s| :: HostEscape(s[i]) == [s[i]]
  }

  lemma {:induction false} VerbatimText(s: string)
    requires Verbatim(s)
    ensures EscapeAll(HostEscape, s) == s
    decreases |s|
  {
    if s != [] {
      assert forall i | 0 <= i < |s[1..]| :: s[1..][i] == s[i + 1];
      VerbatimText(s[1..]);
    }
  }

  function Quote(s: string): string {
    Literal(HostEscape, s)
  }

  /** One header as the encoder prints it. */
  function HeaderText(h: Header): string {
    "[" + Quote(h.name) + "," + Quote(h.value) + "]"
  }

  lemma {:induction false} HeaderTextIsCompact(h: Header)
    ensures Compact(HostEscape, HeaderTree(h)) == HeaderText(h)
  {
    var pair := [Str(h.name), Str(h.value)];
    assert pair[1..] == [Str(h.value)];
    assert CompactItems(HostEscape, pair[1..]) == Quote(h.value);
    assert CompactItems(HostEscape, pair) == Quote(h.name) + ("," + Quote(h.value));
    assert "[" + ((Quote(h.name) + ("," + Quote(h.value))) + "]") == HeaderText(h);
  }

  lemma {:induction false} OneFieldText(a: Entry)
    ensures Compact(HostEscape, Object([a])) == "{" + CompactEntry(HostEscape, a) + "}"
  {
    assert CompactEntries(HostEscape, [a]) == CompactEntry(HostEscape, a);
  }

  lemma {:induction false} TwoFieldsText(a: Entry, b: Entry)
    ensures Compact(HostEscape, Object([a, b])) == "{" + CompactEntry(HostEscape, a) + "," + CompactEntry(HostEscape, b) + "}"
  {
    var x, y := CompactEntry(HostEscape, a), CompactEntry(HostEscape, b);
    assert [a, b][1..] == [b];
    assert CompactEntries(HostEscape, [b]) == y;
    assert CompactEntries(HostEscape, [a, b]) == x + ("," + y);
    assert "{" + ((x + ("," + y)) + "}") == "{" + x + "," + y + "}";
  }

  lemma {:induction false} ThreeFieldsText(a: Entry, b: Entry, c: Entry)
    ensures Compact(HostEscape, Object([a, b, c]))
         == "{" + CompactEntry(HostEscape, a) + "," + CompactEntry(HostEscape, b) + "," + CompactEntry(HostEscape, c) + "}"
  {
    var x, y, z := CompactEntry(HostEscape, a), CompactEntry(HostEscape, b), CompactEntry(HostEscape, c);
    assert [a, b, c][1..] == [b, c] && [b, c][1..] == [c];
    assert CompactEntries(HostEscape, [c]) == z;
    assert CompactEntries(HostEscape, [b, c]) == y + ("," + z);
    assert CompactEntries(HostEscape, [a, b, c]) == x + ("," + (y + ("," + z)));
    assert "{" + ((x + ("," + (y + ("," + z)))) + "}") == "{" + x + "," + y + "," + z + "}";
  }

  /** The start of an event's object. */
  function Opening(kind: string): string {
    "{\"event\":\"" + kind + "\""
  }

  /** The next key, up to its value. */
  function Next(key: string): string {
    ",\"" + key + "\":"
  }

  lemma {:induction false} OpeningText(kind: string)
    requires Verbatim(kind)
    ensures "{" + CompactEntry(HostEscape, Field("event", kind)) == Opening(kind)
  {
    VerbatimText(kind);
    VerbatimText("event");
    Regrouped("event", "\"" + kind + "\"");
    assert "{" + "\"" + "event" + "\":" + "\"" == "{\"event\":\"";
    Regrouped2("{" + "\"" + "event" + "\":", kind);
  }

  lemma {:induction false} Regrouped(key: string, value: string)
    ensures "{" + ("\"" + key + "\"" + (":" + value)) == "{" + "\"" + key + "\":" + value
  {
  }

  lemma {:induction false} Regrouped2(start: string, kind: string)
    ensures start + ("\"" + kind + "\"") == start + "\"" + kind + "\""
  {
  }

  lemma {:induction false} NextText(start: string, e: Entry)
    requires Verbatim(e.key)
    ensures start + "," + CompactEntry(HostEscape, e) == start + Next(e.key) + Compact(HostEscape, e.value)
  {
    var value := Compact(HostEscape, e.value);
    VerbatimText(e.key);
    assert start + "," + ("\"" + e.key + "\"" + (":" + value)) == start + (",\"" + e.key + "\":") + value;
  }

  /** An event with one more field, and one with two more. */
  lemma {:induction false} TwoText(kind: string, b: Entry)
    requires Verbatim(kind) && Verbatim(b.key)
    ensures Compact(HostEscape, Object([Field("event", kind), b])) == Opening(kind) + Next(b.key) + Compact(HostEscape, b.value) + "}"
  {
    TwoFieldsText(Field("event", kind), b);
    OpeningText(kind);
    NextText(Opening(kind), b);
  }

  lemma {:induction false} ThreeText(kind: string, b: Entry, c: Entry)
    requires Verbatim(kind) && Verbatim(b.key) && Verbatim(c.key)
    ensures Compact(HostEscape, Object([Field("event", kind), b, c]))
         == Opening(kind) + Next(b.key) + Compact(HostEscape, b.value) + Next(c.key) + Compact(HostEscape, c.value) + "}"
  {
    ThreeFieldsText(Field("event", kind), b, c);
    OpeningText(kind);
    NextText(Opening(kind), b);
    NextText(Opening(kind) + Next(b.key) + Compact(HostEscape, b.value), c);
  }

  lemma {:induction false} Base64IsVerbatim(bytes: seq<Byte>)
    ensures Verbatim(Base64.Encoded(bytes))
    decreases |bytes|
  {
    if bytes != [] {
      Base64IsVerbatim(bytes[Base64.Cut(bytes)..]);
      GroupIsVerbatim(bytes[..Base64.Cut(bytes)]);
    }
  }

  lemma {:induction false} GroupIsVerbatim(chunk: seq<Byte>)
    requires 1 <= |chunk| <= 3
    ensures Verbatim(Base64.EncodeGroup(chunk))
  {
    forall v: nat | v < 64
      ensures HostEscape(Base64.Letter(v)) == [Base64.Letter(v)]
    {
    }
  }

  method Encode(e: Event) returns (s: string)
    ensures s == Compact(HostEscape, EventTree(e))
  {
    match e
    case Response(status, headers) => s := EncodeResponse(status, headers);
    case Chunk(bytes) => s := EncodeChunk(bytes);
    case Done =>
      s := Opening("done") + "}";
      OpeningText("done");
      OneFieldText(Field("event", "done"));
    case Failure(code, message) => s := EncodeFailure(code, message);
  }

  method EncodeChunk(bytes: seq<Byte>) returns (s: string)
    ensures s == Compact(HostEscape, EventTree(Chunk(bytes)))
  {
    var body := Base64.Encode(bytes);
    s := Opening("chunk") + Next("bodyBase64") + ("\"" + body + "\"") + "}";
    ChunkText(bytes, "\"" + body + "\"");
  }

  lemma {:induction false} ChunkText(bytes: seq<Byte>, quoted: string)
    requires quoted == "\"" + Base64.Encoded(bytes) + "\""
    ensures Compact(HostEscape, EventTree(Chunk(bytes))) == Opening("chunk") + Next("bodyBase64") + quoted + "}"
  {
    var body := Base64.Encoded(bytes);
    Base64IsVerbatim(bytes);
    VerbatimText(body);
    assert Compact(HostEscape, Str(body)) == quoted;
    TwoText("chunk", Field("bodyBase64", body));
  }

  method EncodeFailure(code: string, message: string) returns (s: string)
    ensures s == Compact(HostEscape, EventTree(Failure(code, message)))
  {
    var c := Escape(code);
    var m := Escape(message);
    s := Opening("error") + Next("code") + ("\"" + c + "\"") + Next("message") + ("\"" + m + "\"") + "}";
    FailureText(code, message, "\"" + c + "\"", "\"" + m + "\"");
  }

  lemma {:induction false} FailureText(code: string, message: string, c: string, m: string)
    requires c == Quote(code) && m == Quote(message)
    ensures Compact(HostEscape, EventTree(Failure(code, message)))
         == Opening("error") + Next("code") + c + Next("message") + m + "}"
  {
    assert Compact(HostEscape, Str(code)) == c && Compact(HostEscape, Str(message)) == m;
    ThreeText("error", Field("code", code), Field("message", message));
  }

  /** The headers printed so far. */
  function HeadersText(headers: seq<Header>): string {
    CompactItems(HostEscape, HeaderTrees(headers))
  }

  lemma {:induction false} HeadersGrow(headers: seq<Header>, h: Header)
    ensures HeadersText(headers + [h]) == if headers == [] then HeaderText(h) else HeadersText(headers) + "," + HeaderText(h)
  {
    HeaderTextIsCompact(h);
    HeaderTreesGrow(headers, h);
    ItemsGrow(HeaderTrees(headers), HeaderTree(h));
  }

  lemma {:induction false} HeaderTreesGrow(headers: seq<Header>, h: Header)
    ensures HeaderTrees(headers + [h]) == HeaderTrees(headers) + [HeaderTree(h)]
    ensures HeaderTrees(headers) == [] <==> headers == []
    decreases |headers|
  {
    if headers == [] {
      assert headers + [h] == [h];
    } else {
      assert (headers + [h])[1..] == headers[1..] + [h];
      HeaderTreesGrow(headers[1..], h);
    }
  }

  lemma {:induction false} ItemsGrow(items: seq<Json>, item: Json)
    ensures CompactItems(HostEscape, items + [item])
         == if items == [] then Compact(HostEscape, item) else CompactItems(HostEscape, items) + "," + Compact(HostEscape, item)
    decreases |items|
  {
    var all := items + [item];
    if items == [] {
      assert all == [item];
    } else {
      var rest := items[1..];
      var first := Compact(HostEscape, items[0]);
      assert all[1..] == rest + [item];
      ItemsGrow(rest, item);
      assert CompactItems(HostEscape, all) == first + ("," + CompactItems(HostEscape, rest + [item]));
    }
  }

  lemma {:induction false} ResponseText(status: int, headers: seq<Header>)
    ensures Compact(HostEscape, EventTree(Response(status, headers)))
         == Opening("response") + Next("status") + IntText(status) + Next("headers") + "[" + HeadersText(headers) + "]" + "}"
  {
    ThreeText("response", Entry("status", Int(status)), Entry("headers", Array(HeaderTrees(headers))));
    Bracketed(Opening("response") + Next("status") + IntText(status) + Next("headers"), HeadersText(headers));
  }

  lemma {:induction false} Bracketed(start: string, items: string)
    ensures start + ("[" + (items + "]")) + "}" == start + "[" + items + "]" + "}"
  {
  }

  lemma {:induction false} NextHeader(start: string, headers: seq<Header>, i: nat)
    requires i < |headers|
    ensures start + HeadersText(headers[..i + 1])
         == start + HeadersText(headers[..i]) + (if i > 0 then "," else "") + HeaderText(headers[i])
  {
    HeadersGrow(headers[..i], headers[i]);
    assert headers[..i] + [headers[i]] == headers[..i + 1];
  }

  method EncodeResponse(status: int, headers: seq<Header>) returns (s: string)
    ensures s == Compact(HostEscape, EventTree(Response(status, headers)))
  {
    s := Opening("response") + Next("status") + IntText(status) + Next("headers") + "[";
    ghost var start := s;
    for i := 0 to |headers|
      invariant s == start + HeadersText(headers[..i])
    {
      NextHeader(start, headers, i);
      if i > 0 {
        s := s + ",";
      }
      var k := Escape(headers[i].name);
      var v := Escape(headers[i].value);
      s := s + ("[" + ("\"" + k + "\"") + "," + ("\"" + v + "\"") + "]");
    }
    assert headers[..|headers|] == headers;
    ResponseText(status, headers);
    s := s + "]" + "}";
  }

  method DecodeHeaders(pairs: seq<Json>) returns (r: Option<seq<Header>>)
    ensures r == HeadersOf(pairs)
  {
    var headers: seq<Header> := [];
    assert pairs[0..] == pairs;
    assert HeadersOf(pairs).Some? ==> [] + HeadersOf(pairs).value == HeadersOf(pairs).value;
    for i := 0 to |pairs|
      invariant HeadersOf(pairs)
             == match HeadersOf(pairs[i..]) case None => None case Some(rest) => Some(headers + rest)
    {
      assert pairs[i..][1..] == pairs[i + 1..];
      var pair := pairs[i];
      if !(pair.Array? && |pair.items| >= 2 && pair.items[0].Str? && pair.items[1].Str?) {
        return None;
      }
      var h := Header(pair.items[0].s, pair.items[1].s);
      assert HeadersOf(pairs[i + 1..]).Some? ==>
          headers + ([h] + HeadersOf(pairs[i + 1..]).value) == headers + [h] + HeadersOf(pairs[i + 1..]).value;
      headers := headers + [h];
    }
    assert headers + [] == headers;
    return Some(headers);
  }

  method Decode(text: string) returns (r: Result<Event, Malformed>)
    ensures r == EventOfText(text)
  {
    var root := JsonParser.Parse(text);
    if root.Err? {
      return Err(NotJson(root.error));
    }
    match root.value.Get("event")
    case Some(Str("response")) => r := DecodeResponse(root.value);
    case Some(Str("chunk")) =>
      var body := root.value.Get("bodyBase64");
      if body.None? || !body.value.Str? {
        return Err(MissingBody);
      }
      var bytes := Base64.Decode(body.value.s);
      r := match bytes case Some(b) => Ok(Chunk(b)) case None => Err(BadBase64);
    case Some(Str("done")) => r := Ok(Done);
    case Some(Str("error")) =>
      r := Ok(Failure(TextOr(root.value.Get("code"), "unknown"), TextOr(root.value.Get("message"), "transport error")));
    case Some(Str(name)) => r := Err(UnknownEvent(name));
    case _ => r := Err(MissingEvent);
  }

  method DecodeResponse(root: Json) returns (r: Result<Event, Malformed>)
    ensures r == ResponseOf(root)
  {
    var status := root.Get("status");
    if status.None? || !status.value.Int? {
      return Err(MissingStatus);
    }
    var headers: seq<Header> := [];
    var pairs := root.Get("headers");
    if pairs.Some? && pairs.value.Array? {
      var decoded := DecodeHeaders(pairs.value.items);
      if decoded.None? {
        return Err(BadHeaders);
      }
      headers := decoded.value;
    }
    return Ok(Response(status.value.i, headers));
  }

  /** An event sent across the boundary arrives as it was. */
  method SendAndReceive(e: Event) returns (r: Result<Event, Malformed>)
    requires InRange(e)
    ensures r == Ok(e)
  {
    DecodeUndoesEncode(e);
    var text := Encode(e);
    r := Decode(text);
  }

  // ----- the text crosses the boundary as a C string -----

  predicate Clear(t: string) {
    forall i | 0 <= i < |t| :: !IsControl(t[i])
  }

  lemma {:induction false} EscapeIsClear(c: char)
    ensures Clear(HostEscape(c))
  {
  }

  lemma {:induction false} EscapedIsClear(s: string)
    ensures Clear(EscapeAll(HostEscape, s))
    decreases |s|
  {
    if s != [] {
      EscapeIsClear(s[0]);
      EscapedIsClear(s[1..]);
    }
  }

  lemma {:induction false} LiteralIsClear(s: string)
    ensures Clear(Quote(s))
  {
    EscapedIsClear(s);
  }

  lemma {:induction false} ClearThree(a: char, t: string, b: char)
    requires Clear(t) && !IsControl(a) && !IsControl(b)
    ensures Clear([a] + (t + [b]))
  {
  }

  lemma {:induction false} ClearAround(t: string, ch: char, u: string)
    requires Clear(t) && Clear(u) && !IsControl(ch)
    ensures Clear(t + ([ch] + u))
  {
  }

  lemma {:induction false} CompactIsClear(v: Json)
    requires Plain(v)
    ensures Clear(Compact(HostEscape, v))
    decreases v, 0
  {
    match v
    case Str(s) => LiteralIsClear(s);
    case Array(items) =>
      ItemsAreClear(items);
      ClearThree('[', CompactItems(HostEscape, items), ']');
    case Object(entries) =>
      EntriesAreClear(entries);
      ClearThree('{', CompactEntries(HostEscape, entries), '}');
    case _ =>
  }

  lemma {:induction false} ItemsAreClear(items: seq<Json>)
    requires AllPlain(items)
    ensures Clear(CompactItems(HostEscape, items))
    decreases items, 0
  {
    if items != [] {
      CompactIsClear(items[0]);
      if |items| > 1 {
        ItemsAreClear(items[1..]);
        ClearAround(Compact(HostEscape, items[0]), ',', CompactItems(HostEscape, items[1..]));
      }
    }
  }

  lemma {:induction false} EntriesAreClear(entries: seq<Entry>)
    requires EntriesPlain(entries)
    ensures Clear(CompactEntries(HostEscape, entries))
    decreases entries, 0
  {
    if entries != [] {
      LiteralIsClear(entries[0].key);
      CompactIsClear(entries[0].value);
      ClearAround(Quote(entries[0].key), ':', Compact(HostEscape, entries[0].value));
      if |entries| > 1 {
        EntriesAreClear(entries[1..]);
        ClearAround(CompactEntry(HostEscape, entries[0]), ',', CompactEntries(HostEscape, entries[1..]));
      }
    }
  }

  /** No encoded event holds a control character, so none holds the NUL that would end a C string. */
  lemma {:induction false} EventTextIsClear(e: Event)
    requires InRange(e)
    ensures Clear(Compact(HostEscape, EventTree(e)))
  {
    EventPortable(e);
    CompactIsClear(EventTree(e));
  }
}
