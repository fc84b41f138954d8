/** What the decoder makes of a tree, field by field, and the text of an event letter by letter. */
module EventReading {
  import opened Options
  import opened HttpEvents
  import opened JsonText
  import opened JsonCompact
  import opened EventCodec
  import Base64

  /** The first entry with the key holds the value. */
  ghost predicate Holds(root: Json, key: string, v: Json) {
    root.Object? && exists i | 0 <= i < |root.entries| :: FirstWith(root.entries, key, i) && root.entries[i].value == v
  }

  ghost predicate FirstWith(entries: seq<Entry>, key: string, i: nat) {
    i < |entries| && entries[i].key == key && forall k | 0 <= k < i :: entries[k].key != key
  }

  ghost predicate HoldsText(root: Json, key: string, text: string) {
    Holds(root, key, Str(text))
  }

  lemma {:induction false} HoldsIs(root: Json, key: string, v: Json)
    ensures Holds(root, key, v) <==> root.Get(key) == Some(v)
  {
    if root.Object? {
      FindIs(root.entries, key, v);
    }
  }

  lemma {:induction false} FindIs(entries: seq<Entry>, key: string, v: Json)
    ensures Find(entries, key) == Some(v)
       <==> exists i | 0 <= i < |entries| :: FirstWith(entries, key, i) && entries[i].value == v
    decreases |entries|
  {
    if entries != [] {
      var rest := entries[1..];
      FindIs(rest, key, v);
      if entries[0].key == key {
        assert FirstWith(entries, key, 0);
        assert forall i | 0 < i < |entries| :: !FirstWith(entries, key, i);
      } else {
        forall i | 0 <= i < |rest|
          ensures FirstWith(rest, key, i) <==> FirstWith(entries, key, i + 1)
        {
          if FirstWith(entries, key, i + 1) {
            assert forall k | 0 <= k < i :: rest[k] == entries[k + 1];
          }
        }
        if i :| 0 <= i < |entries| && FirstWith(entries, key, i) && entries[i].value == v {
          assert i > 0 && FirstWith(rest, key, i - 1);
        }
        if i :| 0 <= i < |rest| && FirstWith(rest, key, i) && rest[i].value == v {
          assert FirstWith(entries, key, i + 1);
        }
      }
    }
  }

  /** The text under the key, or the default when there is no text under it. */
  ghost predicate TextIs(root: Json, key: string, default: string, text: string) {
    HoldsText(root, key, text) || (text == default && !exists other :: HoldsText(root, key, other))
  }

  ghost predicate PairIs(pair: Json, h: Header) {
    pair.Array? && |pair.items| >= 2 && pair.items[0] == Str(h.name) && pair.items[1] == Str(h.value)
  }

  ghost predicate PairsAre(pairs: seq<Json>, headers: seq<Header>) {
    |pairs| == |headers| && forall i | 0 <= i < |pairs| :: PairIs(pairs[i], headers[i])
  }

  /** The pairs under "headers", or none when there is no array under it. */
  ghost predicate HeadersAre(root: Json, headers: seq<Header>) {
    || (exists pairs :: Holds(root, "headers", Array(pairs)) && PairsAre(pairs, headers))
    || (headers == [] && !exists pairs :: Holds(root, "headers", Array(pairs)))
  }

  /** The tree is read as the event. */
  ghost predicate Tells(root: Json, e: Event) {
    match e
    case Response(status, headers) =>
      HoldsText(root, "event", "response") && Holds(root, "status", Int(status)) && HeadersAre(root, headers)
    case Chunk(bytes) =>
      && HoldsText(root, "event", "chunk")
      && exists text :: HoldsText(root, "bodyBase64", text) && Base64.Decoded(text) == Some(bytes)
    case Done => HoldsText(root, "event", "done")
    case Failure(code, message) =>
      && HoldsText(root, "event", "error")
      && TextIs(root, "code", "unknown", code)
      && TextIs(root, "message", "transport error", message)
  }

  /** The tree is refused for the reason. */
  ghost predicate Lacks(root: Json, m: Malformed) {
    match m
    case NotJson(_) => false
    case MissingEvent => !exists name :: HoldsText(root, "event", name)
    case UnknownEvent(name) => HoldsText(root, "event", name) && name !in ["response", "chunk", "done", "error"]
    case MissingStatus => HoldsText(root, "event", "response") && !exists status :: Holds(root, "status", Int(status))
    case BadHeaders =>
      && HoldsText(root, "event", "response")
      && (exists status :: Holds(root, "status", Int(status)))
      && !exists headers :: HeadersAre(root, headers)
    case MissingBody => HoldsText(root, "event", "chunk") && !exists text :: HoldsText(root, "bodyBase64", text)
    case BadBase64 =>
      && HoldsText(root, "event", "chunk")
      && exists text :: HoldsText(root, "bodyBase64", text) && Base64.Decoded(text) == None
  }

  lemma {:induction false} PairsRead(pairs: seq<Json>, headers: seq<Header>)
    ensures HeadersOf(pairs) == Some(headers) <==> PairsAre(pairs, headers)
    decreases |pairs|
  {
    if pairs != [] {
      if headers != [] {
        PairsRead(pairs[1..], headers[1..]);
        assert headers == [headers[0]] + headers[1..];
        assert HeaderOf(pairs[0]) == Some(headers[0]) <==> PairIs(pairs[0], headers[0]);
        PairsOfMore(pairs, headers);
      }
    }
  }

  lemma {:induction false} PairsOfMore(pairs: seq<Json>, headers: seq<Header>)
    requires pairs != [] && headers != []
    ensures PairsAre(pairs, headers) <==> PairIs(pairs[0], headers[0]) && PairsAre(pairs[1..], headers[1..])
  {
    if PairsAre(pairs[1..], headers[1..]) && PairIs(pairs[0], headers[0]) {
      assert forall i | 0 < i < |pairs| :: pairs[i] == pairs[1..][i - 1] && headers[i] == headers[1..][i - 1];
    }
  }

  lemma {:induction false} HeadersRead(root: Json, headers: seq<Header>)
    ensures HeadersAre(root, headers)
       <==> match root.Get("headers") case Some(Array(pairs)) => HeadersOf(pairs) == Some(headers) case _ => headers == []
  {
    forall pairs
      ensures Holds(root, "headers", Array(pairs)) <==> root.Get("headers") == Some(Array(pairs))
    {
      HoldsIs(root, "headers", Array(pairs));
    }
    match root.Get("headers")
    case Some(Array(pairs)) =>
      PairsRead(pairs, headers);
      assert Holds(root, "headers", Array(pairs));
    case _ =>
  }

  lemma {:induction false} TextRead(root: Json, key: string)
    ensures forall text :: HoldsText(root, key, text) <==> root.Get(key) == Some(Str(text))
  {
    forall text
      ensures HoldsText(root, key, text) <==> root.Get(key) == Some(Str(text))
    {
      HoldsIs(root, key, Str(text));
    }
  }

  lemma {:induction false} DefaultRead(root: Json, key: string, default: string, text: string)
    ensures TextIs(root, key, default, text) <==> TextOr(root.Get(key), default) == text
  {
    TextRead(root, key);
    var v := root.Get(key);
    if v.Some? && v.value.Str? {
      assert HoldsText(root, key, v.value.s);
    }
  }

  lemma {:induction false} StatusRead(root: Json)
    ensures forall status :: Holds(root, "status", Int(status)) <==> root.Get("status") == Some(Int(status))
  {
    forall status
      ensures Holds(root, "status", Int(status)) <==> root.Get("status") == Some(Int(status))
    {
      HoldsIs(root, "status", Int(status));
    }
  }

  lemma {:induction false} ResponseRead(root: Json, status: int, headers: seq<Header>)
    ensures ResponseOf(root) == Ok(Response(status, headers))
       <==> Holds(root, "status", Int(status)) && HeadersAre(root, headers)
  {
    StatusRead(root);
    HeadersRead(root, headers);
  }

  lemma {:induction false} ChunkRead(root: Json, bytes: seq<Byte>)
    ensures ChunkOf(root) == Ok(Chunk(bytes))
       <==> exists text :: HoldsText(root, "bodyBase64", text) && Base64.Decoded(text) == Some(bytes)
  {
    TextRead(root, "bodyBase64");
  }

  /** The decoder gives an event exactly when the tree tells of it. */
  lemma {:induction false} DecodesIffTells(root: Json, e: Event)
    ensures EventOf(root) == Ok(e) <==> Tells(root, e)
  {
    match e
    case Response(status, headers) => TellsOfResponse(root, status, headers);
    case Chunk(bytes) => TellsOfChunk(root, bytes);
    case Done => TextRead(root, "event");
    case Failure(code, message) => TellsOfFailure(root, code, message);
  }

  lemma {:induction false} TellsOfResponse(root: Json, status: int, headers: seq<Header>)
    ensures EventOf(root) == Ok(Response(status, headers)) <==> Tells(root, Response(status, headers))
  {
    TextRead(root, "event");
    ResponseRead(root, status, headers);
  }

  lemma {:induction false} TellsOfChunk(root: Json, bytes: seq<Byte>)
    ensures EventOf(root) == Ok(Chunk(bytes)) <==> Tells(root, Chunk(bytes))
  {
    TextRead(root, "event");
    ChunkRead(root, bytes);
  }

  lemma {:induction false} TellsOfFailure(root: Json, code: string, message: string)
    ensures EventOf(root) == Ok(Failure(code, message)) <==> Tells(root, Failure(code, message))
  {
    TextRead(root, "event");
    DefaultRead(root, "code", "unknown", code);
    DefaultRead(root, "message", "transport error", message);
  }

  lemma {:induction false} ResponseLacks(root: Json)
    ensures ResponseOf(root) == Err(MissingStatus) <==> !exists status :: Holds(root, "status", Int(status))
    ensures ResponseOf(root) == Err(BadHeaders)
       <==> (exists status :: Holds(root, "status", Int(status))) && !exists headers :: HeadersAre(root, headers)
    ensures ResponseOf(root).Err? ==> ResponseOf(root).error in [MissingStatus, BadHeaders]
  {
    StatusRead(root);
    forall headers
      ensures HeadersAre(root, headers)
         <==> match root.Get("headers") case Some(Array(pairs)) => HeadersOf(pairs) == Some(headers) case _ => headers == []
    {
      HeadersRead(root, headers);
    }
    match root.Get("headers")
    case Some(Array(pairs)) =>
      if HeadersOf(pairs).Some? {
        assert HeadersAre(root, HeadersOf(pairs).value);
      }
    case _ => assert HeadersAre(root, []);
  }

  lemma {:induction false} ChunkLacks(root: Json)
    ensures ChunkOf(root) == Err(MissingBody) <==> !exists text :: HoldsText(root, "bodyBase64", text)
    ensures ChunkOf(root) == Err(BadBase64)
       <==> exists text :: HoldsText(root, "bodyBase64", text) && Base64.Decoded(text) == None
    ensures ChunkOf(root).Err? ==> ChunkOf(root).error in [MissingBody, BadBase64]
  {
    TextRead(root, "bodyBase64");
  }

  lemma {:induction false} NeverNotJson(root: Json)
    ensures EventOf(root).Err? ==> !EventOf(root).error.NotJson?
  {
  }

  lemma {:induction false} UnknownRead(root: Json, name: string)
    ensures EventOf(root) == Err(UnknownEvent(name))
       <==> HoldsText(root, "event", name) && name !in ["response", "chunk", "done", "error"]
  {
    TextRead(root, "event");
  }

  lemma {:induction false} ResponseRefused(root: Json)
    ensures EventOf(root) == Err(MissingStatus) <==> Lacks(root, MissingStatus)
    ensures EventOf(root) == Err(BadHeaders) <==> Lacks(root, BadHeaders)
  {
    TextRead(root, "event");
    ResponseLacks(root);
  }

  lemma {:induction false} ChunkRefused(root: Json)
    ensures EventOf(root) == Err(MissingBody) <==> Lacks(root, MissingBody)
    ensures EventOf(root) == Err(BadBase64) <==> Lacks(root, BadBase64)
  {
    TextRead(root, "event");
    ChunkLacks(root);
  }

  /** The decoder refuses a tree for a reason exactly when the tree lacks what the reason names. */
  lemma {:induction false} RefusesIffLacks(root: Json, m: Malformed)
    ensures EventOf(root) == Err(m) <==> Lacks(root, m)
  {
    match m
    case NotJson(_) => NeverNotJson(root);
    case MissingEvent => TextRead(root, "event");
    case UnknownEvent(name) => UnknownRead(root, name);
    case MissingStatus => ResponseRefused(root);
    case BadHeaders => ResponseRefused(root);
    case MissingBody => ChunkRefused(root);
    case BadBase64 => ChunkRefused(root);
  }

  // ----- the text of an event -----

  function Joined(parts: seq<string>): string {
    if parts == [] then "" else if |parts| == 1 then parts[0] else parts[0] + "," + Joined(parts[1..])
  }

  function Pair(h: Header): string {
    "[\"" + EscapeAll(HostEscape, h.name) + "\",\"" + EscapeAll(HostEscape, h.value) + "\"]"
  }

  /** The text that crosses the boundary. */
  function Wire(e: Event): string {
    match e
    case Response(status, headers) =>
      "{\"event\":\"response\",\"status\":" + IntText(status)
      + ",\"headers\":[" + Joined(seq(|headers|, i requires 0 <= i < |headers| => Pair(headers[i]))) + "]}"
    case Chunk(bytes) => "{\"event\":\"chunk\",\"bodyBase64\":\"" + Base64.Encoded(bytes) + "\"}"
    case Done => "{\"event\":\"done\"}"
    case Failure(code, message) =>
      "{\"event\":\"error\",\"code\":\"" + EscapeAll(HostEscape, code)
      + "\",\"message\":\"" + EscapeAll(HostEscape, message) + "\"}"
  }

  lemma {:induction false} PairText(h: Header)
    ensures HeaderText(h) == Pair(h)
  {
    var k, v := EscapeAll(HostEscape, h.name), EscapeAll(HostEscape, h.value);
    assert "[" + ("\"" + (k + "\"")) + "," + ("\"" + (v + "\"")) + "]" == "[\"" + k + "\",\"" + v + "\"]";
  }

  lemma {:induction false} PairsText(headers: seq<Header>)
    ensures HeadersText(headers) == Joined(seq(|headers|, i requires 0 <= i < |headers| => Pair(headers[i])))
    decreases |headers|
  {
    if headers != [] {
      var parts := seq(|headers|, i requires 0 <= i < |headers| => Pair(headers[i]));
      var rest := headers[1..];
      PairsText(rest);
      assert parts[1..] == seq(|rest|, i requires 0 <= i < |rest| => Pair(rest[i]));
      HeaderTextIsCompact(headers[0]);
      PairText(headers[0]);
      assert HeaderTrees(headers)[1..] == HeaderTrees(rest);
      if rest != [] {
        assert parts[0] + ("," + Joined(parts[1..])) == parts[0] + "," + Joined(parts[1..]);
      }
    }
  }

  /** The encoder's text, letter by letter. */
  lemma {:induction false} EncodesAsWire(e: Event)
    ensures Compact(HostEscape, EventTree(e)) == Wire(e)
  {
    match e
    case Response(status, headers) => ResponseWire(status, headers);
    case Chunk(bytes) => ChunkWire(bytes);
    case Done => DoneWire();
    case Failure(code, message) => FailureWire(code, message);
  }

  lemma {:induction false} ResponseWire(status: int, headers: seq<Header>)
    ensures Compact(HostEscape, EventTree(Response(status, headers))) == Wire(Response(status, headers))
  {
    ResponseText(status, headers);
    PairsText(headers);
    SameResponse(IntText(status), HeadersText(headers));
  }

  lemma {:induction false} ChunkWire(bytes: seq<Byte>)
    ensures Compact(HostEscape, EventTree(Chunk(bytes))) == Wire(Chunk(bytes))
  {
    ChunkText(bytes, "\"" + Base64.Encoded(bytes) + "\"");
    SameChunk(Base64.Encoded(bytes));
  }

  lemma {:induction false} DoneWire()
    ensures Compact(HostEscape, EventTree(Done)) == Wire(Done)
  {
    OpeningText("done");
    OneFieldText(Field("event", "done"));
  }

  lemma {:induction false} FailureWire(code: string, message: string)
    ensures Compact(HostEscape, EventTree(Failure(code, message))) == Wire(Failure(code, message))
  {
    FailureText(code, message, Quote(code), Quote(message));
    SameFailure(EscapeAll(HostEscape, code), EscapeAll(HostEscape, message));
  }

  lemma {:induction false} SameResponse(status: string, items: string)
    ensures Opening("response") + Next("status") + status + Next("headers") + "[" + items + "]" + "}"
         == "{\"event\":\"response\",\"status\":" + status + ",\"headers\":[" + items + "]}"
  {
    assert Opening("response") + Next("status") == "{\"event\":\"response\",\"status\":";
    assert Next("headers") + "[" == ",\"headers\":[" && "]" + "}" == "]}";
  }

  lemma {:induction false} SameChunk(body: string)
    ensures Opening("chunk") + Next("bodyBase64") + ("\"" + body + "\"") + "}"
         == "{\"event\":\"chunk\",\"bodyBase64\":\"" + body + "\"}"
  {
    assert Opening("chunk") + Next("bodyBase64") + "\"" == "{\"event\":\"chunk\",\"bodyBase64\":\"" && "\"" + "}" == "\"}";
  }

  lemma {:induction false} SameFailure(code: string, message: string)
    ensures Opening("error") + Next("code") + ("\"" + (code + "\"")) + Next("message") + ("\"" + (message + "\"")) + "}"
         == "{\"event\":\"error\",\"code\":\"" + code + "\",\"message\":\"" + message + "\"}"
  {
    assert Opening("error") + Next("code") + "\"" == "{\"event\":\"error\",\"code\":\"";
    assert "\"" + Next("message") + "\"" == "\",\"message\":\"" && "\"" + "}" == "\"}";
  }

  const HEX := "0123456789abcdef"

  /** The characters with a letter of their own after the backslash. */
  const SHORT: map<char, char> := map['\\' := '\\', '"' := '"', '\n' := 'n', '\r' := 'r', '\t' := 't']

  lemma {:induction false} HexIs(d: nat)
    requires d < 16
    ensures HexDigit(d, false) == HEX[d]
  {
    assert d < 8 ==> d == 0 || d == 1 || d == 2 || d == 3 || d == 4 || d == 5 || d == 6 || d == 7;
    assert d >= 8 ==> d == 8 || d == 9 || d == 10 || d == 11 || d == 12 || d == 13 || d == 14 || d == 15;
  }

  /** Control characters without a letter are spelled by their codes, and all others are themselves. */
  lemma {:induction false} EscapesAre(c: char)
    ensures HostEscape(c)
         == if c in SHORT then ['\\', SHORT[c]]
            else if c as int < 0x20 || 0x7F <= c as int < 0xA0 then "\\u00" + [HEX[c as int / 16], HEX[c as int % 16]]
            else [c]
  {
    if c as int < 0xA0 {
      HexIs(c as int / 16);
      HexIs(c as int % 16);
      HexIs(0);
      assert Hex4(c as int, false) == "00" + [HEX[c as int / 16], HEX[c as int % 16]];
    }
  }
}
