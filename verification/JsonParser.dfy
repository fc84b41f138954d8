/** The recursive-descent parser that advances a cursor over the text, shown to compute the parse
    functions of `JsonDocument`. */
module JsonParser {
  import opened Options
  import opened Digits
  import opened JsonText
  import D = JsonDocument

  /** A parsing method's result and final cursor agree with a parse function. */
  ghost predicate Agrees<T>(p: Parsed<T>, r: Result<T, Error>, pos: nat) {
    match p
    case Got(v, next) => r == Ok(v) && pos == next
    case Stuck(e) => r == Err(e)
  }

  class Parser {
    const chars: string
    var pos: nat

    constructor (chars: string)
      ensures this.chars == chars && pos == 0
    {
      this.chars := chars;
      pos := 0;
    }

    function Peek(): Option<char>
      reads this
    {
      if pos < |chars| then Some(chars[pos]) else None
    }

    method Bump() returns (r: Option<char>)
      modifies this
      ensures r == old(Peek()) && pos == old(pos) + if old(pos) < |chars| then 1 else 0
    {
      r := Peek();
      if r.Some? {
        pos := pos + 1;
      }
    }

    method SkipWs()
      requires pos <= |chars|
      modifies this
      ensures pos == D.SkipWs(chars, old(pos))
    {
      while pos < |chars| && D.IsSpace(chars[pos])
        invariant pos <= |chars| && D.SkipWs(chars, pos) == D.SkipWs(chars, old(pos))
        decreases |chars| - pos
      {
        pos := pos + 1;
      }
    }

    method ParseString() returns (r: Result<string, Error>)
      requires pos <= |chars|
      modifies this
      ensures old(pos) <= pos <= |chars| && Agrees(ReadString(chars, old(pos)), r, pos)
    {
      var quote := Bump();
      if quote != Some('"') {
        return Err(ExpectedString);
      }
      var s := "";
      while pos < |chars|
        invariant old(pos) < pos <= |chars| && ReadBody(chars, pos, s) == ReadString(chars, old(pos))
        decreases |chars| - pos
      {
        var c := chars[pos];
        OnePiece(chars, pos, s, ReadPiece(chars, pos));
        pos := pos + 1;
        if c == '"' {
          return Ok(s);
        } else if c == '\\' {
          var piece := Escape();
          if piece.Err? {
            return Err(piece.error);
          }
          s := s + piece.value;
        } else {
          s := s + [c];
        }
      }
      return Err(UnterminatedString);
    }

    static lemma {:induction false} OnePiece(c: string, p: nat, sofar: string, piece: Piece)
      requires p <= |c| && piece == ReadPiece(c, p)
      ensures ReadBody(c, p, sofar)
           == match piece
              case Closed(next) => Got(sofar, next)
              case Read(text, next) => ReadBody(c, next, sofar + text)
              case Bad(e) => Stuck(e)
    {
    }

    /** The rest of an escape whose backslash has just been passed. */
    method Escape() returns (r: Result<string, Error>)
      requires 0 < pos <= |chars| && chars[pos - 1] == '\\'
      modifies this
      ensures old(pos) <= pos <= |chars|
      ensures match ReadPiece(chars, old(pos) - 1)
              case Read(text, next) => r == Ok(text) && pos == next
              case Bad(e) => r == Err(e)
              case Closed(_) => false
    {
      var c := Bump();
      match c
      case Some('"') => return Ok("\"");
      case Some('\\') => return Ok("\\");
      case Some('/') => return Ok("/");
      case Some('n') => return Ok("\n");
      case Some('t') => return Ok("\t");
      case Some('r') => return Ok("\r");
      case Some('u') =>
        var start := pos;
        var hex := "";
        for i := 0 to 4
          invariant start <= pos <= |chars| && hex == chars[start..pos]
          invariant pos == if start + i <= |chars| then start + i else |chars|
        {
          var h := Bump();
          if h.Some? {
            hex := hex + [h.value];
          }
        }
        var code := FromHex(hex);
        var scalar := if code.Some? then CharOf(code.value) else None;
        return Ok(if scalar.Some? then [scalar.value] else []);
      case _ => return Err(InvalidEscape);
    }

    method ParseNumber() returns (r: Result<Json, Error>)
      requires pos < |chars| && (chars[pos] == '-' || IsDigit(chars[pos]))
      modifies this
      ensures old(pos) <= pos <= |chars| && Agrees(D.ParseNumber(chars, old(pos)), r, pos)
    {
      var start := pos;
      var isFloat := false;
      if Peek() == Some('-') {
        pos := pos + 1;
      }
      ghost var digits := pos;
      while pos < |chars| && (IsDigit(chars[pos]) || D.IsFloatMark(chars[pos]))
        invariant digits <= pos <= |chars| && D.NumberEnd(chars, pos) == D.NumberEnd(chars, digits)
        invariant isFloat <==> exists i :: digits <= i < pos && D.IsFloatMark(chars[i])
        decreases |chars| - pos
      {
        if D.IsFloatMark(chars[pos]) {
          isFloat := true;
        }
        pos := pos + 1;
      }
      var text := chars[start..pos];
      if isFloat {
        return if D.FloatText(text) then Ok(Double(text)) else Err(InvalidFloat);
      }
      var i := IntOf(text);
      return if i.Some? then Ok(Int(i.value)) else Err(InvalidNumber);
    }

    method ParseBool() returns (r: Result<Json, Error>)
      requires pos <= |chars|
      modifies this
      ensures old(pos) <= pos <= |chars|
      ensures D.StartsWith(chars, old(pos), "true") ==> r == Ok(Bool(true)) && pos == old(pos) + 4
      ensures !D.StartsWith(chars, old(pos), "true") ==> Agrees(D.ParseWord(chars, old(pos), "false", Bool(false)), r, pos)
    {
      if D.StartsWith(chars, pos, "true") {
        pos := pos + 4;
        return Ok(Bool(true));
      } else if D.StartsWith(chars, pos, "false") {
        pos := pos + 5;
        return Ok(Bool(false));
      }
      return Err(InvalidLiteral);
    }

    method ParseNull() returns (r: Result<Json, Error>)
      requires pos <= |chars|
      modifies this
      ensures old(pos) <= pos <= |chars| && Agrees(D.ParseWord(chars, old(pos), "null", Null), r, pos)
    {
      if D.StartsWith(chars, pos, "null") {
        pos := pos + 4;
        return Ok(Null);
      }
      return Err(InvalidLiteral);
    }

    method ParseValue() returns (r: Result<Json, Error>)
      requires pos <= |chars|
      modifies this
      ensures old(pos) <= pos <= |chars| && Agrees(D.ParseValue(chars, old(pos)), r, pos)
      decreases |chars| - pos, 2
    {
      SkipWs();
      match Peek()
      case None => return Err(UnexpectedToken);
      case Some(c) =>
        if c == '{' {
          r := ParseObject();
        } else if c == '[' {
          r := ParseArray();
        } else if c == '"' {
          var s := ParseString();
          r := match s case Ok(text) => Ok(Str(text)) case Err(e) => Err(e);
        } else if c == 't' || c == 'f' {
          r := ParseBool();
        } else if c == 'n' {
          r := ParseNull();
        } else if c == '-' || IsDigit(c) {
          r := ParseNumber();
        } else {
          r := Err(UnexpectedToken);
        }
    }

    method ParseArray() returns (r: Result<Json, Error>)
      requires pos < |chars| && chars[pos] == '['
      modifies this
      ensures old(pos) <= pos <= |chars| && Agrees(D.ParseArray(chars, old(pos)), r, pos)
      decreases |chars| - pos, 1
    {
      var bracket := Bump();
      var items := [];
      SkipWs();
      if Peek() == Some(']') {
        var close := Bump();
        return Ok(Array(items));
      }
      while true
        invariant old(pos) < pos <= |chars| && D.ParseItems(chars, pos, items) == D.ParseArray(chars, old(pos))
        decreases |chars| - pos
      {
        var value := ParseValue();
        match value {
          case Err(e) => return Err(e);
          case Ok(v) => items := items + [v];
        }
        SkipWs();
        var next := Bump();
        match next {
          case Some(',') =>
          case Some(']') => return Ok(Array(items));
          case _ => return Err(ExpectedCommaOrClose);
        }
      }
    }

    /** A key, a colon and a value. */
    method ParseEntry() returns (r: Result<Entry, Error>)
      requires pos <= |chars|
      modifies this
      ensures old(pos) <= pos <= |chars| && Agrees(D.ParseEntry(chars, old(pos)), r, pos)
      decreases |chars| - pos, 3
    {
      SkipWs();
      var key := ParseString();
      if key.Err? {
        return Err(key.error);
      }
      SkipWs();
      var colon := Bump();
      if colon != Some(':') {
        return Err(ExpectedColon);
      }
      var value := ParseValue();
      if value.Err? {
        return Err(value.error);
      }
      return Ok(Entry(key.value, value.value));
    }

    method ParseObject() returns (r: Result<Json, Error>)
      requires pos < |chars| && chars[pos] == '{'
      modifies this
      ensures old(pos) <= pos <= |chars| && Agrees(D.ParseObject(chars, old(pos)), r, pos)
      decreases |chars| - pos, 1
    {
      var brace := Bump();
      var entries := [];
      SkipWs();
      if Peek() == Some('}') {
        var close := Bump();
        return Ok(Object(entries));
      }
      while true
        invariant old(pos) < pos <= |chars| && D.ParseEntries(chars, pos, entries) == D.ParseObject(chars, old(pos))
        decreases |chars| - pos
      {
        var entry := ParseEntry();
        if entry.Err? {
          return Err(entry.error);
        }
        entries := entries + [entry.value];
        SkipWs();
        var next := Bump();
        match next {
          case Some(',') =>
          case Some('}') => return Ok(Object(entries));
          case _ => return Err(ExpectedCommaOrClose);
        }
      }
    }
  }

  method Parse(input: string) returns (r: Result<Json, Error>)
    ensures r == D.ParseText(input)
  {
    var p := new Parser(input);
    p.SkipWs();
    var v := p.ParseValue();
    if v.Err? {
      return v;
    }
    p.SkipWs();
    if p.pos != |p.chars| {
      return Err(TrailingCharacters);
    }
    return v;
  }
}
