/** Base-64 text: three bytes as four characters (section 4 of RFC 4648). */
module Base64 {
  import opened Options
  import opened HttpEvents

  // ----- characters -----

  function Letter(v: nat): (c: char)
    requires v < 64
    ensures Value(c) == Some(v) && !IsBlank(c) && c != '='
  {
    if v < 26 then ('A' as int + v) as char
    else if v < 52 then ('a' as int + v - 26) as char
    else if v < 62 then ('0' as int + v - 52) as char
    else if v == 62 then '+'
    else '/'
  }

  function Value(c: char): (v: Option<nat>)
    ensures v.Some? ==> v.value < 64
  {
    if 'A' <= c <= 'Z' then Some(c as int - 'A' as int)
    else if 'a' <= c <= 'z' then Some(c as int - 'a' as int + 26)
    else if '0' <= c <= '9' then Some(c as int - '0' as int + 52)
    else if c == '+' then Some(62)
    else if c == '/' then Some(63)
    else None
  }

  /** ASCII whitespace: blank, tab, line feed, form feed, carriage return. */
  predicate IsBlank(c: char) {
    c == ' ' || c == '\t' || c == '\n' || c as int == 0x0C || c == '\r'
  }

  // ----- one group -----

  function ByteAt(chunk: seq<Byte>, i: nat): Byte {
    if i < |chunk| then chunk[i] else 0
  }

  /** Four six-bit values as characters, the last `pad` of them as padding. */
  function Four(v0: nat, v1: nat, v2: nat, v3: nat, pad: nat): (t: string)
    requires v0 < 64 && v1 < 64 && v2 < 64 && v3 < 64
    ensures |t| == 4
  {
    [Letter(v0), Letter(v1), if pad < 2 then Letter(v2) else '=', if pad < 1 then Letter(v3) else '=']
  }

  function EncodeGroup(chunk: seq<Byte>): (t: string)
    requires 1 <= |chunk| <= 3
    ensures |t| == 4
  {
    var triple := chunk[0] * 0x1_0000 + ByteAt(chunk, 1) * 0x100 + ByteAt(chunk, 2);
    Four(triple / 0x4_0000 % 64, triple / 0x1000 % 64, triple / 64 % 64, triple % 64, 3 - |chunk|)
  }

  function Pads(t: string): nat {
    if t == [] then 0 else Pads(t[..|t| - 1]) + if t[|t| - 1] == '=' then 1 else 0
  }

  /** The characters' six-bit values joined, or `None` at the first character outside the alphabet. */
  function Joined(t: string): Option<nat> {
    if t == [] then Some(0)
    else
      match Joined(t[..|t| - 1])
      case None => None
      case Some(acc) => match Value(t[|t| - 1]) case None => None case Some(v) => Some(acc * 64 + v)
  }

  /** 64 to the power of the padding. */
  function Scale(pad: nat): nat
    requires pad <= 2
  {
    if pad == 0 then 1 else if pad == 1 then 64 else 64 * 64
  }

  function BytesOf(acc: nat, pad: nat): seq<Byte>
    requires pad <= 2
  {
    [acc / 0x1_0000 % 0x100] + (if pad < 2 then [acc / 0x100 % 0x100] else []) + (if pad < 1 then [acc % 0x100] else [])
  }

  function DecodeGroup(t: string, last: bool): Option<seq<Byte>>
    requires |t| == 4
  {
    var pad := Pads(t);
    if pad > 0 && (!last || pad > 2) then None
    else if pad > 0 && exists i | 4 - pad <= i < 4 :: t[i] != '=' then None
    else match Joined(t[..4 - pad]) case None => None case Some(acc) => Some(BytesOf(acc * Scale(pad), pad))
  }

  // ----- whole texts -----

  /** Where the first group of three bytes, or fewer at the end, stops. */
  function Cut(bytes: seq<Byte>): nat {
    if |bytes| <= 3 then |bytes| else 3
  }

  function Encoded(bytes: seq<Byte>): string {
    if bytes == [] then "" else EncodeGroup(bytes[..Cut(bytes)]) + Encoded(bytes[Cut(bytes)..])
  }

  function Clean(t: string): string {
    if t == [] then [] else Clean(t[..|t| - 1]) + if IsBlank(t[|t| - 1]) then [] else [t[|t| - 1]]
  }

  /** Decoding whole groups; only the last one may be padded. */
  function DecodedGroups(t: string): Option<seq<Byte>>
    requires |t| % 4 == 0
  {
    if t == [] then Some([])
    else
      match DecodeGroup(t[..4], |t| == 4)
      case None => None
      case Some(bytes) => match DecodedGroups(t[4..]) case None => None case Some(rest) => Some(bytes + rest)
  }

  function Decoded(t: string): Option<seq<Byte>> {
    var cleaned := Clean(t);
    if |cleaned| % 4 != 0 then None else DecodedGroups(cleaned)
  }

  lemma {:induction false} EncodedInFours(bytes: seq<Byte>)
    ensures |Encoded(bytes)| % 4 == 0 && (Encoded(bytes) == [] <==> bytes == [])
    decreases |bytes|
  {
    if bytes != [] {
      EncodedInFours(bytes[Cut(bytes)..]);
      FourMore(EncodeGroup(bytes[..Cut(bytes)]), Encoded(bytes[Cut(bytes)..]));
    }
  }

  lemma {:induction false} FourMore(head: string, rest: string)
    requires |head| == 4 && |rest| % 4 == 0
    ensures |head + rest| % 4 == 0 && head + rest != []
  {
  }

  // ----- the loops -----

  method Encode(bytes: seq<Byte>) returns (out: string)
    ensures out == Encoded(bytes)
  {
    out := "";
    var at: nat := 0;
    assert bytes[0..] == bytes;
    while at < |bytes|
      invariant at <= |bytes| && out + Encoded(bytes[at..]) == Encoded(bytes)
    {
      var next := if at + 3 <= |bytes| then at + 3 else |bytes|;
      var four := EncodeChunk(bytes[at..next]);
      EncodeStep(bytes, at, next);
      assert out + four + Encoded(bytes[next..]) == out + (four + Encoded(bytes[next..]));
      out := out + four;
      at := next;
    }
  }

  method EncodeChunk(chunk: seq<Byte>) returns (four: string)
    requires 1 <= |chunk| <= 3
    ensures four == EncodeGroup(chunk)
  {
    var b0: nat := chunk[0];
    var b1: nat := if |chunk| > 1 then chunk[1] else 0;
    var b2: nat := if |chunk| > 2 then chunk[2] else 0;
    var triple := b0 * 0x1_0000 + b1 * 0x100 + b2;
    four := [Letter(triple / 0x4_0000 % 64)];
    four := four + [Letter(triple / 0x1000 % 64)];
    four := four + [if |chunk| > 1 then Letter(triple / 64 % 64) else '='];
    four := four + [if |chunk| > 2 then Letter(triple % 64) else '='];
  }

  lemma {:induction false} EncodeStep(bytes: seq<Byte>, at: nat, next: nat)
    requires at < |bytes| && next == if at + 3 <= |bytes| then at + 3 else |bytes|
    ensures Encoded(bytes[at..]) == EncodeGroup(bytes[at..next]) + Encoded(bytes[next..])
  {
    var rest := bytes[at..];
    assert rest[..Cut(rest)] == bytes[at..next] && rest[Cut(rest)..] == bytes[next..];
  }

  method Decode(input: string) returns (r: Option<seq<Byte>>)
    ensures r == Decoded(input)
  {
    var cleaned := Clean(input);
    if |cleaned| % 4 != 0 {
      return None;
    }
    var chunkCount := |cleaned| / 4;
    var out: seq<Byte> := [];
    StartOfGroups(cleaned);
    for index := 0 to chunkCount
      invariant GroupsFrom(cleaned, index, out) == DecodedGroups(cleaned)
    {
      var chunk := cleaned[4 * index..4 * index + 4];
      NextGroup(cleaned, index, out);
      var bytes := DecodeChunk(chunk, index == chunkCount - 1);
      if bytes.None? {
        return None;
      }
      out := out + bytes.value;
    }
    EndOfGroups(cleaned, out);
    return Some(out);
  }

  /** The groups from this one on, after the bytes already decoded. */
  function GroupsFrom(cleaned: string, index: nat, out: seq<Byte>): Option<seq<Byte>>
    requires |cleaned| % 4 == 0 && 4 * index <= |cleaned|
  {
    Prefixed(out, DecodedGroups(cleaned[4 * index..]))
  }

  function Prefixed(out: seq<Byte>, r: Option<seq<Byte>>): Option<seq<Byte>> {
    match r case None => None case Some(bytes) => Some(out + bytes)
  }

  lemma {:induction false} StartOfGroups(cleaned: string)
    requires |cleaned| % 4 == 0
    ensures GroupsFrom(cleaned, 0, []) == DecodedGroups(cleaned)
  {
    assert cleaned[4 * 0..] == cleaned;
    var r := DecodedGroups(cleaned);
    if r.Some? {
      assert [] + r.value == r.value;
    }
  }

  lemma {:induction false} NextGroup(cleaned: string, index: nat, out: seq<Byte>)
    requires |cleaned| % 4 == 0 && 4 * index < |cleaned|
    ensures GroupsFrom(cleaned, index, out)
         == match DecodeGroup(cleaned[4 * index..4 * index + 4], index == |cleaned| / 4 - 1)
            case None => None
            case Some(bytes) => GroupsFrom(cleaned, index + 1, out + bytes)
  {
    var rest := cleaned[4 * index..];
    var later := cleaned[4 * (index + 1)..];
    assert rest[..4] == cleaned[4 * index..4 * index + 4] && rest[4..] == later;
    var first, r := DecodeGroup(rest[..4], |rest| == 4), DecodedGroups(later);
    if first.Some? && r.Some? {
      assert out + first.value + r.value == out + (first.value + r.value);
    }
  }

  lemma {:induction false} EndOfGroups(cleaned: string, out: seq<Byte>)
    requires |cleaned| % 4 == 0
    ensures GroupsFrom(cleaned, |cleaned| / 4, out) == Some(out)
  {
    assert cleaned[4 * (|cleaned| / 4)..] == [] && out + [] == out;
  }

  method DecodeChunk(chunk: string, last: bool) returns (r: Option<seq<Byte>>)
    requires |chunk| == 4
    ensures r == DecodeGroup(chunk, last)
  {
    var pad := Pads(chunk);
    if pad > 0 && (!last || pad > 2) {
      return None;
    }
    if pad > 0 && exists i | 4 - pad <= i < 4 :: chunk[i] != '=' {
      return None;
    }
    var acc := JoinValues(chunk[..4 - pad]);
    if acc.None? {
      return None;
    }
    var scaled := acc.value * Scale(pad);
    var out := Unpack(scaled, pad);
    return Some(out);
  }

  method JoinValues(t: string) returns (r: Option<nat>)
    ensures r == Joined(t)
  {
    var acc: nat := 0;
    for i := 0 to |t|
      invariant Joined(t[..i]) == Some(acc)
    {
      assert t[..i + 1][..i] == t[..i];
      var v := Value(t[i]);
      if v.None? {
        JoinedFails(t, i + 1);
        return None;
      }
      acc := acc * 64 + v.value;
    }
    assert t[..|t|] == t;
    return Some(acc);
  }

  method Unpack(acc: nat, pad: nat) returns (out: seq<Byte>)
    requires pad <= 2
    ensures out == BytesOf(acc, pad)
  {
    out := [acc / 0x1_0000 % 0x100];
    if pad < 2 {
      out := out + [acc / 0x100 % 0x100];
    }
    if pad < 1 {
      out := out + [acc % 0x100];
    }
  }

  lemma {:induction false} JoinedFails(t: string, i: nat)
    requires i <= |t| && Joined(t[..i]) == None
    ensures Joined(t) == None
    decreases |t|
  {
    if i < |t| {
      assert t[..|t| - 1][..i] == t[..i];
      JoinedFails(t[..|t| - 1], i);
    } else {
      assert t[..i] == t;
    }
  }

  // ----- round trips -----

  lemma {:induction false} PadsStep(t: string, c: char)
    ensures Pads(t + [c]) == Pads(t) + if c == '=' then 1 else 0
  {
    assert (t + [c])[..|t|] == t;
  }

  lemma {:induction false} PadsOfFour(t: string)
    requires |t| == 4
    ensures Pads(t) == (if t[0] == '=' then 1 else 0) + (if t[1] == '=' then 1 else 0) + (if t[2] == '=' then 1 else 0)
                     + (if t[3] == '=' then 1 else 0)
  {
    PadsStep([], t[0]);
    PadsStep([] + [t[0]], t[1]);
    PadsStep([] + [t[0]] + [t[1]], t[2]);
    PadsStep([] + [t[0]] + [t[1]] + [t[2]], t[3]);
    assert t == [] + [t[0]] + [t[1]] + [t[2]] + [t[3]];
  }

  lemma {:induction false} JoinedStep(t: string, c: char)
    ensures Joined(t + [c]) == match Joined(t)
                               case None => None
                               case Some(acc) => match Value(c) case None => None case Some(v) => Some(acc * 64 + v)
  {
    assert (t + [c])[..|t|] == t;
  }

  lemma {:induction false} JoinedTwo(c0: char, c1: char)
    requires Value(c0).Some? && Value(c1).Some?
    ensures Joined([c0, c1]) == Some(Value(c0).value * 64 + Value(c1).value)
  {
    JoinedStep([], c0);
    JoinedStep([] + [c0], c1);
    assert [c0, c1] == [] + [c0] + [c1];
  }

  lemma {:induction false} JoinedThree(c0: char, c1: char, c2: char)
    requires Value(c0).Some? && Value(c1).Some? && Value(c2).Some?
    ensures Joined([c0, c1, c2]) == Some((Value(c0).value * 64 + Value(c1).value) * 64 + Value(c2).value)
  {
    JoinedTwo(c0, c1);
    JoinedStep([c0, c1], c2);
    assert [c0, c1, c2] == [c0, c1] + [c2];
  }

  lemma {:induction false} JoinedFour(c0: char, c1: char, c2: char, c3: char)
    requires Value(c0).Some? && Value(c1).Some? && Value(c2).Some? && Value(c3).Some?
    ensures Joined([c0, c1, c2, c3]) == Some(((Value(c0).value * 64 + Value(c1).value) * 64 + Value(c2).value) * 64 + Value(c3).value)
  {
    JoinedThree(c0, c1, c2);
    JoinedStep([c0, c1, c2], c3);
    assert [c0, c1, c2, c3] == [c0, c1, c2] + [c3];
  }

  /** A number below two to the 24th is its four six-bit digits. */
  lemma {:induction false} SixesJoin(n: nat)
    requires n < 0x100_0000
    ensures ((n / 0x4_0000 % 64 * 64 + n / 0x1000 % 64) * 64 + n / 64 % 64) * 64 + n % 64 == n
  {
    assert n / 64 / 64 == n / 0x1000 && n / 0x1000 / 64 == n / 0x4_0000 && n / 0x4_0000 < 64;
  }

  lemma {:induction false} BytesSplit(b0: Byte, b1: Byte, b2: Byte)
    ensures var n: nat := b0 as int * 0x1_0000 + b1 as int * 0x100 + b2;
            n < 0x100_0000 && n / 0x1_0000 % 0x100 == b0 && n / 0x100 % 0x100 == b1 && n % 0x100 == b2
  {
    var n: nat := b0 as int * 0x1_0000 + b1 as int * 0x100 + b2;
    assert n / 0x100 == b0 as int * 0x100 + b1;
  }

  /** The four characters of six-bit values, the last `pad` of them padding, decode to their bytes. */
  lemma {:induction false} FourDecode(v0: nat, v1: nat, v2: nat, v3: nat, pad: nat, last: bool)
    requires v0 < 64 && v1 < 64 && v2 < 64 && v3 < 64 && pad <= 2 && (pad > 0 ==> last && v3 == 0) && (pad > 1 ==> v2 == 0)
    ensures DecodeGroup(Four(v0, v1, v2, v3, pad), last) == Some(BytesOf(((v0 * 64 + v1) * 64 + v2) * 64 + v3, pad))
  {
    var t := Four(v0, v1, v2, v3, pad);
    PadsOfFour(t);
    assert !exists i | 4 - pad <= i < 4 :: t[i] != '=';
    if pad == 0 {
      JoinedFour(t[0], t[1], t[2], t[3]);
      assert t[..4] == [t[0], t[1], t[2], t[3]];
    } else if pad == 1 {
      JoinedThree(t[0], t[1], t[2]);
      assert t[..3] == [t[0], t[1], t[2]];
    } else {
      JoinedTwo(t[0], t[1]);
      assert t[..2] == [t[0], t[1]];
    }
  }

  lemma {:induction false} GroupRoundTrip(chunk: seq<Byte>, last: bool)
    requires 1 <= |chunk| <= 3 && (|chunk| < 3 ==> last)
    ensures DecodeGroup(EncodeGroup(chunk), last) == Some(chunk)
  {
    var b0, b1, b2 := chunk[0], ByteAt(chunk, 1), ByteAt(chunk, 2);
    var n: nat := b0 as int * 0x1_0000 + b1 as int * 0x100 + b2;
    BytesSplit(b0, b1, b2);
    SixesJoin(n);
    BlankSixes(n, b0, b1, b2);
    FourDecode(n / 0x4_0000 % 64, n / 0x1000 % 64, n / 64 % 64, n % 64, 3 - |chunk|, last);
    assert BytesOf(n, 3 - |chunk|) == chunk;
  }

  lemma {:induction false} BlankSixes(n: nat, b0: Byte, b1: Byte, b2: Byte)
    requires n == b0 as int * 0x1_0000 + b1 as int * 0x100 + b2
    ensures b2 == 0 ==> n % 64 == 0
    ensures b1 == 0 && b2 == 0 ==> n / 64 % 64 == 0
  {
    if b2 == 0 {
      assert n == 64 * (b0 as int * 0x400 + b1 as int * 4);
    }
  }

  lemma {:induction false} CleanOfTwo(t: string, u: string)
    ensures Clean(t + u) == Clean(t) + Clean(u)
    decreases |u|
  {
    if u == [] {
      assert t + u == t;
    } else {
      CleanOfTwo(t, u[..|u| - 1]);
      assert (t + u)[..|t + u| - 1] == t + u[..|u| - 1];
    }
  }

  lemma {:induction false} CleanIsIdle(t: string)
    requires forall i | 0 <= i < |t| :: !IsBlank(t[i])
    ensures Clean(t) == t
    decreases |t|
  {
    if t != [] {
      CleanIsIdle(t[..|t| - 1]);
    }
  }

  lemma {:induction false} GroupIsClean(chunk: seq<Byte>)
    requires 1 <= |chunk| <= 3
    ensures Clean(EncodeGroup(chunk)) == EncodeGroup(chunk)
  {
    CleanIsIdle(EncodeGroup(chunk));
  }

  lemma {:induction false} EncodedIsClean(bytes: seq<Byte>)
    ensures Clean(Encoded(bytes)) == Encoded(bytes)
    decreases |bytes|
  {
    if bytes != [] {
      EncodedIsClean(bytes[Cut(bytes)..]);
      GroupIsClean(bytes[..Cut(bytes)]);
      CleanOfTwo(EncodeGroup(bytes[..Cut(bytes)]), Encoded(bytes[Cut(bytes)..]));
    }
  }

  lemma {:induction false} GroupsRoundTrip(bytes: seq<Byte>)
    ensures |Encoded(bytes)| % 4 == 0 && DecodedGroups(Encoded(bytes)) == Some(bytes)
    decreases |bytes|
  {
    EncodedInFours(bytes);
    if bytes != [] {
      var chunk, later := bytes[..Cut(bytes)], bytes[Cut(bytes)..];
      EncodedInFours(later);
      assert bytes == chunk + later;
      GroupsRoundTrip(later);
      GroupRoundTrip(chunk, later == []);
      GroupThenGroups(EncodeGroup(chunk), Encoded(later), chunk, later);
    }
  }

  lemma {:induction false} GroupThenGroups(head: string, rest: string, chunk: seq<Byte>, later: seq<Byte>)
    requires |head| == 4 && |rest| % 4 == 0
    requires DecodeGroup(head, rest == []) == Some(chunk) && DecodedGroups(rest) == Some(later)
    ensures DecodedGroups(head + rest) == Some(chunk + later)
  {
    assert (head + rest)[..4] == head && (head + rest)[4..] == rest;
  }

  lemma {:induction false} CleanDecodes(t: string)
    requires Clean(t) == t && |t| % 4 == 0
    ensures Decoded(t) == DecodedGroups(t)
  {
  }

  /** Decoding undoes encoding, for all bytes. */
  lemma {:induction false} DecodeUndoesEncode(bytes: seq<Byte>)
    ensures Decoded(Encoded(bytes)) == Some(bytes)
  {
    GroupsRoundTrip(bytes);
    EncodedIsClean(bytes);
    CleanDecodes(Encoded(bytes));
  }

  // ----- the other way round -----

  lemma {:induction false} LetterOfValue(c: char)
    requires Value(c).Some?
    ensures Letter(Value(c).value) == c
  {
  }

  /** The bits that padding drops are zero. */
  predicate TightGroup(t: string)
    requires |t| == 4
  {
    if t[2] == '=' then Value(t[1]).Some? && Value(t[1]).value % 16 == 0
    else if t[3] == '=' then Value(t[2]).Some? && Value(t[2]).value % 4 == 0
    else true
  }

  lemma {:induction false} SixesSplit(v0: nat, v1: nat, v2: nat, v3: nat)
    requires v0 < 64 && v1 < 64 && v2 < 64 && v3 < 64
    ensures var n := ((v0 * 64 + v1) * 64 + v2) * 64 + v3;
            n / 0x4_0000 % 64 == v0 && n / 0x1000 % 64 == v1 && n / 64 % 64 == v2 && n % 64 == v3 && n < 0x100_0000
  {
    var n := ((v0 * 64 + v1) * 64 + v2) * 64 + v3;
    assert n / 64 == (v0 * 64 + v1) * 64 + v2;
    assert n / 0x1000 == n / 64 / 64 == v0 * 64 + v1;
    assert n / 0x4_0000 == n / 0x1000 / 64 == v0;
  }

  /** A group of values without padding, with one, or with two. */
  ghost predicate Group(t: string, pad: nat, v0: nat, v1: nat, v2: nat, v3: nat) {
    && pad <= 2 && v0 < 64 && v1 < 64 && v2 < 64 && v3 < 64 && (pad > 0 ==> v3 == 0) && (pad > 1 ==> v2 == 0)
    && t == Four(v0, v1, v2, v3, pad)
  }

  lemma {:induction false} GroupShape(t: string, last: bool) returns (pad: nat, v0: nat, v1: nat, v2: nat, v3: nat)
    requires |t| == 4 && DecodeGroup(t, last).Some?
    ensures Group(t, pad, v0, v1, v2, v3) && DecodeGroup(t, last).value == BytesOf(((v0 * 64 + v1) * 64 + v2) * 64 + v3, pad)
  {
    pad := Pads(t);
    ValuesOf(t[..4 - pad]);
    forall i | 0 <= i < 4 - pad
      ensures Value(t[i]).Some? && Letter(Value(t[i]).value) == t[i]
    {
      assert t[..4 - pad][i] == t[i];
      LetterOfValue(t[i]);
    }
    assert !exists i | 4 - pad <= i < 4 :: t[i] != '=';
    v0, v1 := Value(t[0]).value, Value(t[1]).value;
    v2, v3 := if pad < 2 then Value(t[2]).value else 0, if pad < 1 then Value(t[3]).value else 0;
    FourDecode(v0, v1, v2, v3, pad, last);
    assert t == Four(v0, v1, v2, v3, pad);
  }

  lemma {:induction false} ValuesOf(t: string)
    requires Joined(t).Some?
    ensures forall i | 0 <= i < |t| :: Value(t[i]).Some?
    decreases |t|
  {
    if t != [] {
      ValuesOf(t[..|t| - 1]);
      assert forall i | 0 <= i < |t| - 1 :: t[i] == t[..|t| - 1][i];
    }
  }

  /** The number that the bytes of a group spell when it is encoded again. */
  function Kept(n: nat, pad: nat): nat {
    n / 0x1_0000 % 0x100 * 0x1_0000 + (if pad < 2 then n / 0x100 % 0x100 * 0x100 else 0) + (if pad < 1 then n % 0x100 else 0)
  }

  lemma {:induction false} KeptWithOnePad(v0: nat, v1: nat, v2: nat)
    requires v0 < 64 && v1 < 64 && v2 < 64
    ensures Kept(((v0 * 64 + v1) * 64 + v2) * 64, 1) == ((v0 * 64 + v1) * 64 + (v2 - v2 % 4)) * 64
  {
    var n := ((v0 * 64 + v1) * 64 + v2) * 64;
    TripleOfBytes(n);
    Below256(n, v0 * 0x400 + v1 * 16 + v2 / 4, v2 % 4 * 64);
  }

  lemma {:induction false} KeptWithTwoPads(v0: nat, v1: nat)
    requires v0 < 64 && v1 < 64
    ensures Kept((v0 * 64 + v1) * 0x1000, 2) == (v0 * 64 + (v1 - v1 % 16)) * 0x1000
  {
    var n := (v0 * 64 + v1) * 0x1000;
    TripleOfBytes(n);
    Below65536(n, v0 * 4 + v1 / 16, v1 % 16 * 0x1000);
  }

  lemma {:induction false} Below256(n: nat, k: nat, r: nat)
    requires n == 0x100 * k + r && r < 0x100
    ensures n % 0x100 == r
  {
  }

  lemma {:induction false} Below65536(n: nat, k: nat, r: nat)
    requires n == 0x1_0000 * k + r && r < 0x1_0000
    ensures n % 0x1_0000 == r
  {
  }

  /** The six-bit values once the bits that padding drops are cleared. */
  lemma {:induction false} Cleared(v0: nat, v1: nat, v2: nat, v3: nat, pad: nat) returns (u1: nat, u2: nat)
    requires v0 < 64 && v1 < 64 && v2 < 64 && v3 < 64 && pad <= 2 && (pad > 0 ==> v3 == 0) && (pad > 1 ==> v2 == 0)
    ensures u1 == (if pad == 2 then v1 - v1 % 16 else v1) && u2 == (if pad == 1 then v2 - v2 % 4 else v2)
    ensures ((v0 * 64 + u1) * 64 + u2) * 64 + v3 == Kept(((v0 * 64 + v1) * 64 + v2) * 64 + v3, pad)
  {
    u1 := if pad == 2 then v1 - v1 % 16 else v1;
    u2 := if pad == 1 then v2 - v2 % 4 else v2;
    if pad == 0 {
      TripleOfBytes(((v0 * 64 + v1) * 64 + v2) * 64 + v3);
    } else if pad == 1 {
      KeptWithOnePad(v0, v1, v2);
    } else {
      KeptWithTwoPads(v0, v1);
    }
  }

  lemma {:induction false} TripleOfBytes(n: nat)
    requires n < 0x100_0000
    ensures n / 0x1_0000 % 0x100 * 0x1_0000 + n / 0x100 % 0x100 * 0x100 + n % 0x100 == n
    ensures n / 0x1_0000 % 0x100 * 0x1_0000 == n - n % 0x1_0000
    ensures n / 0x1_0000 % 0x100 * 0x1_0000 + n / 0x100 % 0x100 * 0x100 == n - n % 0x100
  {
    assert n / 0x100 / 0x100 == n / 0x1_0000;
  }

  lemma {:induction false} SameFour(v0: nat, v1: nat, v2: nat, v3: nat, u1: nat, u2: nat, pad: nat)
    requires v0 < 64 && v1 < 64 && v2 < 64 && v3 < 64 && u1 < 64 && u2 < 64 && (pad > 1 ==> u2 == v2)
    ensures Four(v0, v1, v2, v3, pad) == Four(v0, u1, u2, v3, pad) <==> v1 == u1 && v2 == u2
  {
    var t, u := Four(v0, v1, v2, v3, pad), Four(v0, u1, u2, v3, pad);
    assert t[1] == Letter(v1) && u[1] == Letter(u1);
    assert pad < 2 ==> t[2] == Letter(v2) && u[2] == Letter(u2);
  }

  /** A decoded group encodes back to itself exactly when the dropped bits were zero. */
  lemma {:induction false} GroupReencodes(t: string, last: bool)
    requires |t| == 4 && DecodeGroup(t, last).Some?
    ensures var chunk := DecodeGroup(t, last).value;
            1 <= |chunk| <= 3 && (|chunk| < 3 ==> last) && (EncodeGroup(chunk) == t <==> TightGroup(t))
  {
    var pad, v0, v1, v2, v3 := GroupShape(t, last);
    var u1, u2 := Cleared(v0, v1, v2, v3, pad);
    SixesSplit(v0, u1, u2, v3);
    SameFour(v0, v1, v2, v3, u1, u2, pad);
    var chunk := DecodeGroup(t, last).value;
    assert |chunk| == 3 - pad && EncodeGroup(chunk) == Four(v0, u1, u2, v3, pad);
    TightMeans(t, pad, v0, v1, v2, v3);
  }

  lemma {:induction false} TightMeans(t: string, pad: nat, v0: nat, v1: nat, v2: nat, v3: nat)
    requires Group(t, pad, v0, v1, v2, v3)
    ensures |t| == 4 && (TightGroup(t) <==> (pad == 1 ==> v2 % 4 == 0) && (pad == 2 ==> v1 % 16 == 0))
  {
    assert t[1] == Letter(v1) && t[2] == (if pad < 2 then Letter(v2) else '=') && t[3] == (if pad < 1 then Letter(v3) else '=');
  }

  predicate Tight(t: string)
    requires |t| % 4 == 0
  {
    if t == [] then true else if |t| == 4 then TightGroup(t) else Tight(t[4..])
  }

  /** A padded group can only be the last one. */
  lemma {:induction false} InnerGroupIsTight(t: string)
    requires |t| == 4 && DecodeGroup(t, false).Some?
    ensures TightGroup(t)
  {
    var pad, v0, v1, v2, v3 := GroupShape(t, false);
    assert |DecodeGroup(t, false).value| == 3 - pad;
    GroupReencodes(t, false);
    TightMeans(t, pad, v0, v1, v2, v3);
  }

  lemma {:induction false} EncodedOfTwo(chunk: seq<Byte>, rest: seq<Byte>)
    requires 1 <= |chunk| <= 3 && (|chunk| < 3 ==> rest == [])
    ensures Encoded(chunk + rest) == EncodeGroup(chunk) + Encoded(rest)
  {
    var bytes := chunk + rest;
    assert Cut(bytes) == |chunk| && bytes[..|chunk|] == chunk && bytes[|chunk|..] == rest;
  }

  lemma {:induction false} SameParts(a: string, b: string, c: string, d: string)
    requires |a| == |c|
    ensures a + b == c + d <==> a == c && b == d
  {
    assert (a + b)[..|a|] == a && (a + b)[|a|..] == b && (c + d)[..|c|] == c && (c + d)[|c|..] == d;
  }

  lemma {:induction false} GroupsReencode(t: string)
    requires |t| % 4 == 0 && DecodedGroups(t).Some?
    ensures Encoded(DecodedGroups(t).value) == t <==> Tight(t)
    decreases |t|
  {
    if t != [] {
      var head, tail := t[..4], t[4..];
      assert t == head + tail;
      var chunk, rest := DecodeGroup(head, tail == []).value, DecodedGroups(tail).value;
      GroupThenGroups(head, tail, chunk, rest);
      GroupReencodes(head, tail == []);
      GroupsReencode(tail);
      Reencoded(head, tail, chunk, rest);
      TightParts(head, tail);
    }
  }

  lemma {:induction false} Reencoded(head: string, tail: string, chunk: seq<Byte>, rest: seq<Byte>)
    requires |head| == 4 && 1 <= |chunk| <= 3 && (|chunk| < 3 ==> rest == [])
    ensures Encoded(chunk + rest) == head + tail <==> EncodeGroup(chunk) == head && Encoded(rest) == tail
  {
    EncodedOfTwo(chunk, rest);
    SameParts(EncodeGroup(chunk), Encoded(rest), head, tail);
  }

  lemma {:induction false} TightParts(head: string, tail: string)
    requires |head| == 4 && |tail| % 4 == 0 && DecodeGroup(head, tail == []).Some?
    ensures Tight(head + tail) <==> TightGroup(head) && Tight(tail)
  {
    var t := head + tail;
    if tail == [] {
      assert t == head;
    } else {
      InnerGroupIsTight(head);
      assert t[4..] == tail;
    }
  }

  /** Encoding undoes decoding, up to whitespace, exactly when the last group's dropped bits are
      zero: the decoder does not look at them. */
  lemma {:induction false} EncodeUndoesDecode(t: string)
    requires Decoded(t).Some?
    ensures Encoded(Decoded(t).value) == Clean(t) <==> Tight(Clean(t))
  {
    GroupsReencode(Clean(t));
  }

  /** `QR==` decodes like `QQ==`. */
  lemma {:induction false} DroppedBits()
    ensures Decoded("QR==") == Decoded("QQ==") == Some([65])
  {
    SameByte(16);
    SameByte(17);
    assert Four(16, 16, 0, 0, 2) == "QQ==";
    assert Four(16, 17, 0, 0, 2) == "QR==";
  }

  lemma {:induction false} SameByte(v: nat)
    requires 16 <= v < 32
    ensures Decoded(Four(16, v, 0, 0, 2)) == Some([65])
  {
    FourDecode(16, v, 0, 0, 2, true);
    var n := ((16 * 64 + v) * 64 + 0) * 64 + 0;
    assert n / 0x1_0000 == 65;
    assert BytesOf(n, 2) == [65];
    OneByte(Four(16, v, 0, 0, 2));
  }

  lemma {:induction false} OneByte(t: string)
    requires |t| == 4 && (forall i | 0 <= i < 4 :: !IsBlank(t[i])) && DecodeGroup(t, true) == Some([65])
    ensures Decoded(t) == Some([65])
  {
    CleanIsIdle(t);
    GroupThenGroups(t, [], [65], []);
    assert t + [] == t && [65] + [] == [65];
  }
}
