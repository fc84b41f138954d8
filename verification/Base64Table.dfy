/** The alphabet, the blanks and the bit order of base-64 (section 4 of RFC 4648). */
module Base64Table {
  import opened Options
  import opened HttpEvents
  import opened Base64

  /** The characters from `c` on, in the order of their codes. */
  function From(c: char, n: nat): (t: string)
    requires c <= 'z' && n <= 26
  {
    seq(n, i requires 0 <= i < n => (c as int + i) as char)
  }

  const ALPHABET: string := From('A', 26) + From('a', 26) + From('0', 10) + "+/"

  /** Each letter of the alphabet stands for its place in it, and no other character for anything. */
  lemma {:induction false} LettersAre(v: nat, c: char)
    ensures |ALPHABET| == 64
    ensures v < 64 ==> Letter(v) == ALPHABET[v]
    ensures Value(c) == Some(v) <==> v < 64 && c == ALPHABET[v]
  {
    if v < 64 {
      LetterIs(v);
      if Value(c) == Some(v) {
        LetterOfValue(c);
      }
    }
  }

  lemma {:induction false} LetterIs(v: nat)
    requires v < 64
    ensures |ALPHABET| == 64 && Letter(v) == ALPHABET[v]
  {
    assert v < 26 ==> ALPHABET[v] == From('A', 26)[v];
    assert 26 <= v < 52 ==> ALPHABET[v] == From('a', 26)[v - 26];
    assert 52 <= v < 62 ==> ALPHABET[v] == From('0', 10)[v - 52];
  }

  const BLANKS: set<char> := {' ', '\t', '\n', '\U{000C}', '\r'}

  /** White space between characters makes no difference. */
  lemma {:induction false} BlanksVanish(a: string, blank: char, b: string)
    requires blank in BLANKS
    ensures Decoded(a + [blank] + b) == Decoded(a + b)
  {
    CleanOfTwo(a + [blank], b);
    CleanOfTwo(a, [blank]);
    CleanOfTwo(a, b);
    assert [blank][..0] == [] && Clean([blank]) == [];
    assert Clean(a) + [] + Clean(b) == Clean(a) + Clean(b);
  }

  lemma {:induction false} CleanKeeps(t: string, c: char)
    requires c in t && c !in BLANKS
    ensures c in Clean(t)
    decreases |t|
  {
    if c != t[|t| - 1] {
      assert c in t[..|t| - 1];
      CleanKeeps(t[..|t| - 1], c);
    }
  }

  lemma {:induction false} JoinedAreLetters(t: string)
    requires Joined(t).Some?
    ensures forall c <- t :: c in ALPHABET
    decreases |t|
  {
    if t != [] {
      JoinedAreLetters(t[..|t| - 1]);
      var last := t[|t| - 1];
      LettersAre(Value(last).value, last);
      assert t == t[..|t| - 1] + [last];
    }
  }

  lemma {:induction false} GroupsAreLetters(t: string)
    requires |t| % 4 == 0 && DecodedGroups(t).Some?
    ensures forall c <- t :: c in ALPHABET || c == '='
    decreases |t|
  {
    if t != [] {
      var group := t[..4];
      var letters: nat := 4 - Pads(group);
      JoinedAreLetters(group[..letters]);
      assert forall c <- group :: c in group[..letters] || c == '=';
      GroupsAreLetters(t[4..]);
      assert t == group + t[4..];
    }
  }

  /** A character that is neither a letter nor padding nor white space makes the text malformed. */
  lemma {:induction false} StrangersRefused(t: string, c: char)
    requires c in t && c !in ALPHABET && c != '=' && c !in BLANKS
    ensures Decoded(t) == None
  {
    CleanKeeps(t, c);
    if |Clean(t)| % 4 == 0 && DecodedGroups(Clean(t)).Some? {
      GroupsAreLetters(Clean(t));
    }
  }

  // ----- the order of the bits -----

  /** The last `width` bits of a number, the highest first. */
  function Bits(width: nat, n: nat): (b: seq<bool>)
    ensures |b| == width
  {
    if width == 0 then [] else Bits(width - 1, n / 2) + [n % 2 == 1]
  }

  function Power(width: nat): (p: nat)
    ensures p > 0
  {
    if width == 0 then 1 else 2 * Power(width - 1)
  }

  /** The bits of the letters, six for each. */
  function SixBits(t: string): seq<bool> {
    if t == [] then [] else (match Value(t[0]) case Some(v) => Bits(6, v) case None => []) + SixBits(t[1..])
  }

  function EightBits(bytes: seq<Byte>): (b: seq<bool>)
    ensures |b| == 8 * |bytes|
  {
    if bytes == [] then [] else Bits(8, bytes[0]) + EightBits(bytes[1..])
  }

  lemma {:induction false} BitsOfTwo(high: nat, a: nat, low: nat, b: nat)
    requires b < Power(low)
    ensures Bits(high + low, a * Power(low) + b) == Bits(high, a) + Bits(low, b)
    decreases low
  {
    if low > 0 {
      BitsOfTwo(high, a, low - 1, b / 2);
      Doubled(a, Power(low - 1));
      LastBit(high, a, low, b, a * Power(low - 1));
    }
  }

  lemma {:induction false} Doubled(a: nat, p: nat)
    ensures a * (2 * p) == 2 * (a * p)
  {
  }

  lemma {:induction false} LastBit(high: nat, a: nat, low: nat, b: nat, n: nat)
    requires low > 0 && Bits(high + (low - 1), n + b / 2) == Bits(high, a) + Bits(low - 1, b / 2)
    ensures Bits(high + low, 2 * n + b) == Bits(high, a) + Bits(low, b)
  {
    Halved(n, b);
    assert high + low - 1 == high + (low - 1);
    var last := [b % 2 == 1];
    assert Bits(high + low, 2 * n + b) == Bits(high + (low - 1), n + b / 2) + last;
    assert Bits(high, a) + Bits(low - 1, b / 2) + last == Bits(high, a) + (Bits(low - 1, b / 2) + last);
  }

  lemma {:induction false} Halved(a: nat, b: nat)
    ensures (2 * a + b) / 2 == a + b / 2 && (2 * a + b) % 2 == b % 2
  {
  }

  /** A number written with three digits, or four, to a base that is a power of two. */
  lemma {:induction false} BitsOfThree(w: nat, base: nat, a: nat, b: nat, c: nat)
    requires base == Power(w) && b < base && c < base
    ensures Bits(w + w + w, (a * base + b) * base + c) == Bits(w, a) + Bits(w, b) + Bits(w, c)
  {
    BitsOfTwo(w, a, w, b);
    BitsOfTwo(w + w, a * base + b, w, c);
  }

  lemma {:induction false} BitsOfFour(w: nat, base: nat, a: nat, b: nat, c: nat, d: nat)
    requires base == Power(w) && b < base && c < base && d < base
    ensures Bits(w + w + w + w, ((a * base + b) * base + c) * base + d) == Bits(w, a) + Bits(w, b) + Bits(w, c) + Bits(w, d)
  {
    BitsOfThree(w, base, a, b, c);
    BitsOfTwo(w + w + w, (a * base + b) * base + c, w, d);
  }

  lemma {:induction false} Bases()
    ensures Power(6) == 64 && Power(8) == 0x100
  {
    assert Power(6) == 64;
  }

  lemma {:induction false} SixBitsOfTwo(t: string, u: string)
    ensures SixBits(t + u) == SixBits(t) + SixBits(u)
    decreases |t|
  {
    if t == [] {
      assert t + u == u;
    } else {
      assert (t + u)[1..] == t[1..] + u;
      SixBitsOfTwo(t[1..], u);
    }
  }

  lemma {:induction false} EightBitsOfTwo(a: seq<Byte>, b: seq<Byte>)
    ensures EightBits(a + b) == EightBits(a) + EightBits(b)
    decreases |a|
  {
    if a == [] {
      assert a + b == b;
    } else {
      assert (a + b)[1..] == a[1..] + b;
      EightBitsOfTwo(a[1..], b);
    }
  }

  lemma {:induction false} SixBitsOfOne(c: char)
    ensures SixBits([c]) == match Value(c) case Some(v) => Bits(6, v) case None => []
  {
    assert [c][1..] == [];
  }

  lemma {:induction false} SixBitsOfFour(v0: nat, v1: nat, v2: nat, v3: nat, pad: nat)
    requires v0 < 64 && v1 < 64 && v2 < 64 && v3 < 64
    ensures SixBits(Four(v0, v1, v2, v3, pad))
         == Bits(6, v0) + Bits(6, v1) + (if pad < 2 then Bits(6, v2) else []) + if pad < 1 then Bits(6, v3) else []
  {
    var t := Four(v0, v1, v2, v3, pad);
    SixBitsOfTwo([t[0]] + [t[1]] + [t[2]], [t[3]]);
    SixBitsOfTwo([t[0]] + [t[1]], [t[2]]);
    SixBitsOfTwo([t[0]], [t[1]]);
    assert t == [t[0]] + [t[1]] + [t[2]] + [t[3]];
    SixBitsOfOne(t[0]);
    SixBitsOfOne(t[1]);
    SixBitsOfOne(t[2]);
    SixBitsOfOne(t[3]);
  }

  lemma {:induction false} EightBitsOfGroup(n: nat, pad: nat)
    requires n < 0x100_0000 && pad <= 2
    ensures |BytesOf(n, pad)| == 3 - pad && EightBits(BytesOf(n, pad)) == Bits(24, n)[..24 - 8 * pad]
  {
    var b0, b1, b2 := n / 0x1_0000 % 0x100, n / 0x100 % 0x100, n % 0x100;
    TripleOfBytes(n);
    BytesHaveBits(n, b0, b1, b2);
    EightBitsOfThree(b0, b1, b2, pad);
  }

  lemma {:induction false} BytesHaveBits(n: nat, b0: nat, b1: nat, b2: nat)
    requires b1 < 0x100 && b2 < 0x100 && n == b0 * 0x1_0000 + b1 * 0x100 + b2
    ensures Bits(24, n) == Bits(8, b0) + Bits(8, b1) + Bits(8, b2)
  {
    Bases();
    BitsOfThree(8, 0x100, b0, b1, b2);
  }

  lemma {:induction false} EightBitsOfThree(b0: Byte, b1: Byte, b2: Byte, pad: nat)
    requires pad <= 2
    ensures EightBits([b0] + (if pad < 2 then [b1] else []) + (if pad < 1 then [b2] else []))
         == (Bits(8, b0) + Bits(8, b1) + Bits(8, b2))[..24 - 8 * pad]
  {
    var second, third := if pad < 2 then [b1] else [], if pad < 1 then [b2] else [];
    EightBitsOfTwo([b0] + second, third);
    EightBitsOfTwo([b0], second);
    EightBitsOfOne(b0);
    EightBitsOfOne(b1);
    EightBitsOfOne(b2);
  }

  lemma {:induction false} EightBitsOfOne(b: Byte)
    ensures EightBits([b]) == Bits(8, b)
  {
    assert [b][1..] == [];
  }

  lemma {:induction false} GroupBits(t: string, last: bool)
    requires |t| == 4 && DecodeGroup(t, last).Some?
    ensures var chunk := DecodeGroup(t, last).value;
            8 * |chunk| <= |SixBits(t)| && EightBits(chunk) == SixBits(t)[..8 * |chunk|] && (!last ==> 8 * |chunk| == |SixBits(t)|)
  {
    var pad, v0, v1, v2, v3 := GroupShape(t, last);
    var n := ((v0 * 64 + v1) * 64 + v2) * 64 + v3;
    SixesSplit(v0, v1, v2, v3);
    SixBitsOfFour(v0, v1, v2, v3, pad);
    Bases();
    BitsOfFour(6, 64, v0, v1, v2, v3);
    EightBitsOfGroup(n, pad);
  }

  lemma {:induction false} GroupsBits(t: string)
    requires |t| % 4 == 0 && DecodedGroups(t).Some?
    ensures var bytes := DecodedGroups(t).value;
            8 * |bytes| <= |SixBits(t)| && EightBits(bytes) == SixBits(t)[..8 * |bytes|]
    decreases |t|
  {
    if t != [] {
      var head, tail := t[..4], t[4..];
      assert t == head + tail;
      var chunk, rest := DecodeGroup(head, tail == []).value, DecodedGroups(tail).value;
      GroupBits(head, tail == []);
      GroupsBits(tail);
      SixBitsOfTwo(head, tail);
      EightBitsOfTwo(chunk, rest);
      GroupThenGroups(head, tail, chunk, rest);
      Prefixes(EightBits(chunk), SixBits(head), EightBits(rest), SixBits(tail));
    }
  }

  lemma {:induction false} Prefixes<T>(a: seq<T>, long: seq<T>, b: seq<T>, rest: seq<T>)
    requires a <= long && b <= rest && (a == long || rest == [])
    ensures a + b <= long + rest
  {
  }

  /** The bytes are the bits of the letters in order, cut into eights. */
  lemma {:induction false} BytesAreBits(t: string)
    requires Decoded(t).Some?
    ensures var bytes := Decoded(t).value;
            8 * |bytes| <= |SixBits(Clean(t))| && EightBits(bytes) == SixBits(Clean(t))[..8 * |bytes|]
  {
    GroupsBits(Clean(t));
  }

  /** The letters are the bits of the bytes in order, cut into sixes. */
  lemma {:induction false} LettersAreBits(bytes: seq<Byte>)
    ensures |Encoded(bytes)| == (|bytes| + 2) / 3 * 4
    ensures 8 * |bytes| <= |SixBits(Encoded(bytes))| && EightBits(bytes) == SixBits(Encoded(bytes))[..8 * |bytes|]
  {
    DecodeUndoesEncode(bytes);
    EncodedIsClean(bytes);
    BytesAreBits(Encoded(bytes));
    EncodedLength(bytes);
  }

  lemma {:induction false} GroupsLeft(n: nat, rest: nat)
    requires n > 0 && rest == if n <= 3 then 0 else n - 3
    ensures (n + 2) / 3 == 1 + (rest + 2) / 3
  {
  }

  lemma {:induction false} EncodedLength(bytes: seq<Byte>)
    ensures |Encoded(bytes)| == (|bytes| + 2) / 3 * 4
    decreases |bytes|
  {
    if bytes != [] {
      var later := bytes[Cut(bytes)..];
      EncodedLength(later);
      GroupsLeft(|bytes|, |later|);
      assert Encoded(bytes) == EncodeGroup(bytes[..Cut(bytes)]) + Encoded(later);
    }
  }
}
