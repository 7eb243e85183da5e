/** What the codec promises: round trips both ways, the shape of an encoding, and what can be decoded. */
module Base64Laws {
  import opened Wrappers
  import opened Base64Url

  // ---- Letters ----

  lemma SpellIndices(s: string)
    requires AllLetters(s)
    ensures Spell(Indices(s)) == s
  {
  }

  lemma IndicesSpell(x: seq<Sextet>)
    ensures AllLetters(Spell(x)) && Indices(Spell(x)) == x
  {
  }

  // ---- Groups of six bits ----

  lemma FourThenThree(a: Byte, b: Byte, c: Byte)
    ensures var x := Four(a, b, c); Three(x[0], x[1], x[2], x[3]) == [a, b, c]
  {
  }

  // The numbers in three bytes and in four groups of six bits.

  lemma FirstBack(x: Sextet, y: Sextet, a: nat)
    requires a == x * 4 + y / 16
    ensures a / 4 == x && a % 4 == y / 16
  {
  }

  lemma SecondBack(y: Sextet, z: Sextet, b: nat)
    requires b == y % 16 * 16 + z / 4
    ensures b / 16 == y % 16 && b % 16 == z / 4
  {
  }

  lemma ThirdBack(z: Sextet, w: Sextet, c: nat)
    requires c == z % 4 * 64 + w
    ensures c / 64 == z % 4 && c % 64 == w
  {
  }

  lemma Parts(y: nat, d: nat)
    requires d > 0
    ensures y / d * d + y % d == y
  {
  }

  lemma ThreeThenFour(x: Sextet, y: Sextet, z: Sextet, w: Sextet)
    ensures var b := Three(x, y, z, w); Four(b[0], b[1], b[2]) == [x, y, z, w]
  {
    var b := Three(x, y, z, w);
    FirstBack(x, y, b[0]);
    SecondBack(y, z, b[1]);
    ThirdBack(z, w, b[2]);
    Parts(y, 16);
    Parts(z, 4);
  }

  lemma {:induction false} PackLength(b: seq<Byte>)
    ensures |Pack(b)| == (4 * |b| + 2) / 3
    decreases |b|
  {
    if |b| >= 3 { PackLength(b[3..]); }
  }

  lemma LengthFits(n: nat)
    ensures ((4 * n + 2) / 3) % 4 != 1
  {
    assert n == n / 3 * 3 + n % 3;
  }

  lemma PackFits(b: seq<Byte>)
    ensures |Pack(b)| % 4 != 1
  {
    PackLength(b);
    LengthFits(|b|);
  }

  lemma PackAppend(three: seq<Byte>, rest: seq<Byte>)
    requires |three| == 3
    ensures Pack(three + rest) == Four(three[0], three[1], three[2]) + Pack(rest)
  {
    assert (three + rest)[3..] == rest;
  }

  lemma UnpackAppend(four: seq<Sextet>, rest: seq<Sextet>)
    requires |four| == 4
    ensures Unpack(four + rest) == Three(four[0], four[1], four[2], four[3]) + Unpack(rest)
  {
    assert (four + rest)[4..] == rest;
  }

  lemma PackOne(a: Byte)
    ensures Pack([a]) == Four(a, 0, 0)[..2] && Unpack(Pack([a])) == [a]
  {
    FourThenThree(a, 0, 0);
  }

  lemma PackTwo(a: Byte, b: Byte)
    ensures Pack([a, b]) == Four(a, b, 0)[..3] && Unpack(Pack([a, b])) == [a, b]
  {
    FourThenThree(a, b, 0);
  }

  lemma UnpackFirst(four: seq<Sextet>, three: seq<Byte>, packed: seq<Sextet>, rest: seq<Byte>)
    requires |four| == 4 && Unpack(packed) == rest
    requires Three(four[0], four[1], four[2], four[3]) == three
    ensures Unpack(four + packed) == three + rest
  {
    UnpackAppend(four, packed);
  }

  lemma {:induction false} UnpackPack(b: seq<Byte>)
    ensures |Pack(b)| % 4 != 1 && Unpack(Pack(b)) == b
    decreases |b|
  {
    PackFits(b);
    if |b| == 1 {
      PackOne(b[0]);
      assert b == [b[0]];
    } else if |b| == 2 {
      PackTwo(b[0], b[1]);
      assert b == [b[0], b[1]];
    } else if |b| >= 3 {
      UnpackPack(b[3..]);
      FourThenThree(b[0], b[1], b[2]);
      UnpackFirst(Four(b[0], b[1], b[2]), b[..3], Pack(b[3..]), b[3..]);
    }
  }

  lemma UnpackTwo(x: Sextet, y: Sextet)
    ensures Pack(Unpack([x, y])) == [x, y] <==> y % 16 == 0
  {
    var a: Byte := x as nat * 4 + y as nat / 16;
    assert Unpack([x, y]) == [a];
    FirstBack(x, y, a);
    Parts(y, 16);
    PackOne(a);
    assert Pack([a]) == [a / 4, a % 4 * 16];
  }

  lemma UnpackThree(x: Sextet, y: Sextet, z: Sextet)
    ensures Pack(Unpack([x, y, z])) == [x, y, z] <==> z % 4 == 0
  {
    var a: Byte, b: Byte := x as nat * 4 + y as nat / 16, y as nat % 16 * 16 + z as nat / 4;
    assert Unpack([x, y, z]) == [a, b];
    FirstBack(x, y, a);
    SecondBack(y, z, b);
    Parts(y, 16);
    Parts(z, 4);
    PackTwo(a, b);
    assert Pack([a, b]) == [a / 4, a % 4 * 16 + b / 16, b % 16 * 4];
  }

  lemma SameFront(front: seq<Sextet>, a: seq<Sextet>, b: seq<Sextet>)
    ensures front + a == front + b <==> a == b
  {
    if front + a == front + b {
      assert a == (front + a)[|front|..] == (front + b)[|front|..] == b;
    }
  }

  lemma PackMore(four: seq<Sextet>, three: seq<Byte>, rest: seq<Byte>, all: seq<Byte>)
    requires |three| == 3 && all == three + rest && Four(three[0], three[1], three[2]) == four
    ensures Pack(all) == four + Pack(rest)
  {
    PackAppend(three, rest);
  }

  lemma SpareBitsOfMore(four: seq<Sextet>, rest: seq<Sextet>)
    requires |four| == 4 && |rest| % 4 != 1
    ensures SpareBits(four + rest) == SpareBits(rest)
  {
  }

  /** Unpacking loses the spare bits and nothing else. */
  lemma {:induction false} PackUnpack(x: seq<Sextet>)
    requires |x| % 4 != 1
    ensures Pack(Unpack(x)) == x <==> SpareBits(x) == 0
    decreases |x|
  {
    if |x| == 2 {
      UnpackTwo(x[0], x[1]);
      assert x == [x[0], x[1]];
    } else if |x| == 3 {
      UnpackThree(x[0], x[1], x[2]);
      assert x == [x[0], x[1], x[2]];
    } else if |x| >= 4 {
      var four, rest := x[..4], x[4..];
      assert x == four + rest;
      PackUnpack(rest);
      UnpackAppend(four, rest);
      ThreeThenFour(four[0], four[1], four[2], four[3]);
      PackMore(four, Three(four[0], four[1], four[2], four[3]), Unpack(rest), Unpack(x));
      SameFront(four, Pack(Unpack(rest)), rest);
      SpareBitsOfMore(four, rest);
    }
  }

  lemma LettersAreLetters(b: seq<Byte>)
    ensures AllLetters(Letters(b)) && |Letters(b)| == (4 * |b| + 2) / 3 && |Letters(b)| % 4 != 1
  {
    IndicesSpell(Pack(b));
    PackLength(b);
    PackFits(b);
  }

  lemma BytesOfLetters(b: seq<Byte>)
    ensures AllLetters(Letters(b)) && |Letters(b)| % 4 != 1
    ensures Bytes(Letters(b)) == b
  {
    LettersAreLetters(b);
    IndicesSpell(Pack(b));
    UnpackPack(b);
  }

  // ---- Padding ----

  ghost predicate NoSpaces(s: string) {
    forall i :: 0 <= i < |s| ==> !AsciiSpace(s[i])
  }

  lemma {:induction false} NothingDropped(s: string)
    requires NoSpaces(s)
    ensures DropSpaces(s) == s
  {
    if s != "" {
      NothingDropped(s[..|s| - 1]);
    }
  }

  lemma {:induction false} RepeatEquals(n: nat)
    ensures forall i :: 0 <= i < n ==> Repeat('=', n)[i] == '='
  {
    if n > 0 { RepeatEquals(n - 1); }
  }

  lemma PaddingOfLetters(n: nat)
    ensures Padding((4 * n + 2) / 3) == (3 - n % 3) % 3
  {
    PaddingOfThirds(n, n / 3, n % 3);
  }

  lemma PaddingOfThirds(n: nat, k: nat, r: nat)
    requires n == 3 * k + r && r < 3
    ensures Padding((4 * n + 2) / 3) == (3 - r) % 3
  {
    assert (4 * n + 2) / 3 == 4 * k + (if r == 0 then 0 else r + 1);
  }

  lemma LettersDropNothing(s: string)
    requires AllLetters(s)
    ensures DropOne(s) == s && s + Repeat('=', 0) == s
  {
  }

  lemma PaddedHasNoSpaces(s: string, n: nat)
    requires AllLetters(s)
    ensures DropSpaces(s + Repeat('=', n)) == s + Repeat('=', n)
  {
    RepeatEquals(n);
    NothingDropped(s + Repeat('=', n));
  }

  /** `atob` on a text of which it drops nothing but padding. */
  lemma AtobOf(t: string, u: string)
    requires DropSpaces(t) == t && (if |t| % 4 == 0 then DropOne(DropOne(t)) == u else t == u)
    ensures AtobBytes(t) == if |u| % 4 == 1 || !AllLetters(u) then None else Some(Bytes(u))
  {
  }

  lemma RepeatDrop(s: string, n: nat)
    requires n > 0
    ensures DropOne(s + Repeat('=', n)) == s + Repeat('=', n - 1)
  {
    var t := s + Repeat('=', n);
    assert t[|t| - 1] == '=';
    assert t[..|t| - 1] == s + Repeat('=', n - 1);
  }

  lemma DropPadding(s: string, n: nat)
    requires AllLetters(s) && n <= 2
    ensures DropOne(DropOne(s + Repeat('=', n))) == s
  {
    LettersDropNothing(s);
    if n > 0 { RepeatDrop(s, n); }
    if n > 1 { RepeatDrop(s, n - 1); }
  }

  lemma PaddingIs(n: nat)
    ensures (n + Padding(n)) % 4 == 0 && (n % 4 != 1 <==> Padding(n) <= 2)
  {
  }

  lemma AtobOfPadded(s: string, n: nat, t: string)
    requires AllLetters(s) && |s| % 4 != 1 && n <= 2 && t == s + Repeat('=', n) && |t| % 4 == 0
    ensures AtobBytes(t) == Some(Bytes(s))
  {
    PaddedHasNoSpaces(s, n);
    DropPadding(s, n);
    AtobOf(t, s);
  }

  /** Padding letters to a multiple of four and reading them gives what the letters hold. */
  lemma AtobPadded(s: string)
    requires AllLetters(s) && |s| % 4 != 1
    ensures AtobBytes(PadTo4(s)) == Some(Bytes(s))
  {
    PaddingIs(|s|);
    AtobOfPadded(s, Padding(|s|), PadTo4(s));
  }

  lemma UrlSafePadding(s: string, n: nat)
    ensures UrlSafe(s + Repeat('=', n)) == UrlSafe(s) + Repeat('=', n)
  {
    RepeatEquals(n);
  }

  lemma {:induction false} StripUrlRepeat(s: string, n: nat)
    requires AllUrlLetters(s)
    ensures StripEquals(s + Repeat('=', n)) == s
  {
    var t := s + Repeat('=', n);
    if n == 0 {
      assert t == s;
    } else {
      assert t[..|t| - 1] == s + Repeat('=', n - 1);
      StripUrlRepeat(s, n - 1);
    }
  }

  // ---- The laws ----

  lemma EncodeIsUrlSafeLetters(b: seq<Byte>)
    ensures Encode(b) == UrlSafe(Letters(b))
  {
    LettersAreLetters(b);
    UrlSafePadding(Letters(b), (3 - |b| % 3) % 3);
    StripUrlRepeat(UrlSafe(Letters(b)), (3 - |b| % 3) % 3);
  }

  /** The encoding uses only the URL-safe alphabet and four letters for three bytes, rounded up. */
  lemma EncodingShape(b: seq<Byte>)
    ensures AllUrlLetters(Encode(b)) && |Encode(b)| == (4 * |b| + 2) / 3
  {
    EncodeIsUrlSafeLetters(b);
    LettersAreLetters(b);
  }

  lemma StandardOfEncoding(b: seq<Byte>)
    ensures Standard(Encode(b)) == Letters(b)
  {
    EncodeIsUrlSafeLetters(b);
    LettersAreLetters(b);
  }

  /** Re-padding an encoding gives the padded base64 it was made from. */
  lemma PaddingRestored(b: seq<Byte>)
    ensures PadTo4(Standard(Encode(b))) == Padded(b)
  {
    StandardOfEncoding(b);
    LettersAreLetters(b);
    PaddingOfLetters(|b|);
  }

  lemma CodesOfBinary(b: seq<Byte>)
    ensures Codes(Binary(b)) == b
  {
  }

  lemma BtoaOfBinary(b: seq<Byte>)
    ensures Btoa(Binary(b)) == Some(Padded(b))
  {
    CodesOfBinary(b);
  }

  lemma DecodeBytes(value: string)
    ensures Decode(value) == AtobBytes(PadTo4(Standard(value)))
  {
    var b := AtobBytes(PadTo4(Standard(value)));
    if b.Some? { CodesOfBinary(b.value); }
  }

  /** Decoding an encoding gives the bytes back. */
  lemma DecodeEncode(b: seq<Byte>)
    ensures Decode(Encode(b)) == Some(b)
  {
    DecodeBytes(Encode(b));
    StandardOfEncoding(b);
    BytesOfLetters(b);
    AtobPadded(Letters(b));
  }

  /** A text over the URL-safe alphabet can be decoded exactly unless its length is one more than a
      multiple of four. */
  lemma DecodableIff(s: string)
    requires AllUrlLetters(s)
    ensures Decode(s).Some? <==> |s| % 4 != 1
  {
    var t := Standard(s);
    DecodeBytes(s);
    if |s| % 4 != 1 {
      AtobPadded(t);
    } else {
      OverPadded(t);
    }
  }

  /** Three padding characters are one too many for `atob`. */
  lemma OverPadded(s: string)
    requires AllLetters(s) && |s| % 4 == 1
    ensures AtobBytes(PadTo4(s)) == None
  {
    var n := Padding(|s|);
    PaddingIs(|s|);
    NoneOverPadded(s, n, s + Repeat('=', n), s + Repeat('=', n - 2));
  }

  lemma OverPaddedParts(s: string, n: nat, t: string, u: string)
    requires AllLetters(s) && n > 2 && t == s + Repeat('=', n) && u == s + Repeat('=', n - 2)
    ensures DropSpaces(t) == t && DropOne(DropOne(t)) == u && !AllLetters(u)
  {
    PaddedHasNoSpaces(s, n);
    RepeatDrop(s, n);
    RepeatDrop(s, n - 1);
    EqualsAtEnd(s, n - 2);
  }

  lemma NoneOverPadded(s: string, n: nat, t: string, u: string)
    requires AllLetters(s) && n > 2 && t == s + Repeat('=', n) && u == s + Repeat('=', n - 2) && |t| % 4 == 0
    ensures AtobBytes(t) == None
  {
    OverPaddedParts(s, n, t, u);
  }

  lemma EqualsAtEnd(s: string, n: nat)
    requires n > 0
    ensures !AllLetters(s + Repeat('=', n))
  {
    var u := s + Repeat('=', n);
    assert u[|u| - 1] == '=';
  }

  // ---- Encoding what was decoded ----

  lemma SpellSame(x: seq<Sextet>, y: seq<Sextet>)
    ensures Spell(x) == Spell(y) <==> x == y
  {
    IndicesSpell(x);
    IndicesSpell(y);
  }

  lemma LettersOfBytes(s: string)
    requires AllLetters(s) && |s| % 4 != 1
    ensures Letters(Bytes(s)) == s <==> SpareBits(Indices(s)) == 0
  {
    var x := Indices(s);
    SpellIndices(s);
    PackUnpack(x);
    SpellSame(Pack(Unpack(x)), x);
  }

  lemma UrlSafeThere(s: string)
    requires AllLetters(s)
    ensures AllUrlLetters(UrlSafe(s)) && Standard(UrlSafe(s)) == s
  {
  }

  lemma UrlSafeBack(s: string)
    requires AllUrlLetters(s)
    ensures AllLetters(Standard(s)) && UrlSafe(Standard(s)) == s
  {
  }

  /** Encoding what was decoded gives the text again exactly when its spare bits are zero. */
  lemma EncodeDecodeIff(s: string)
    requires AllUrlLetters(s) && |s| % 4 != 1
    ensures AllLetters(Standard(s)) && Decode(s).Some?
    ensures Encode(Decode(s).value) == s <==> SpareBits(Indices(Standard(s))) == 0
  {
    var t := Standard(s);
    UrlSafeBack(s);
    DecodeBytes(s);
    AtobPadded(t);
    var b := Bytes(t);
    EncodeIsUrlSafeLetters(b);
    LettersAreLetters(b);
    UrlSafeThere(Letters(b));
    LettersOfBytes(t);
  }

  lemma EncodingHasNoSpareBits(b: seq<Byte>)
    ensures AllLetters(Standard(Encode(b))) && SpareBits(Indices(Standard(Encode(b)))) == 0
  {
    StandardOfEncoding(b);
    BytesOfLetters(b);
    LettersOfBytes(Letters(b));
  }

  lemma BinarySnoc(b: seq<Byte>, i: nat)
    requires i < |b|
    ensures Binary(b[..i + 1]) == Binary(b[..i]) + [b[i] as char]
  {
  }

  /** `toBase64Url`: four letters of the URL-safe alphabet for three bytes, rounded up, that decode to the
      bytes, and no spare bits set. There is only one such text. */
  method ToBase64Url(bytes: seq<Byte>) returns (text: string)
    ensures AllUrlLetters(text) && |text| == (4 * |bytes| + 2) / 3
    ensures Decode(text) == Some(bytes)
    ensures AllLetters(Standard(text)) && SpareBits(Indices(Standard(text))) == 0
  {
    var binary := "";
    for i := 0 to |bytes|
      invariant binary == Binary(bytes[..i])
    {
      BinarySnoc(bytes, i);
      binary := binary + [bytes[i] as char];
    }
    assert bytes[..|bytes|] == bytes;
    BtoaOfBinary(bytes);
    text := StripEquals(ReplaceChar(ReplaceChar(Btoa(binary).value, '+', '-'), '/', '_'));
    EncodingShape(bytes);
    DecodeEncode(bytes);
    EncodingHasNoSpareBits(bytes);
  }
}
