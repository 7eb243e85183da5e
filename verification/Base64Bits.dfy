/** Which letter stands where: each letter of an encoding spells six bits of three bytes taken together. */
module Base64Bits {
  import opened Wrappers
  import opened Base64Url
  import opened Base64Laws

  /** The letters of the URL-safe alphabet in order (RFC 4648, section 5). */
  function Alphabet(): (s: string)
    ensures |s| == 64
  {
    "ABCDEFGHIJKLMNOPQRSTUVWXYZ" + "abcdefghijklmnopqrstuvwxyz" + "0123456789" + "-_"
  }

  lemma UpperLetter(x: Sextet)
    requires x < 26
    ensures Letter(x) == "ABCDEFGHIJKLMNOPQRSTUVWXYZ"[x]
  {
  }

  lemma LowerLetter(x: Sextet)
    requires 26 <= x < 52
    ensures Letter(x) == "abcdefghijklmnopqrstuvwxyz"[x - 26]
  {
  }

  lemma DigitLetter(x: Sextet)
    requires 52 <= x < 62
    ensures Letter(x) == "0123456789"[x - 52]
  {
  }

  lemma SafeLetter(x: Sextet)
    ensures Alphabet()[x] == if Letter(x) == '+' then '-' else if Letter(x) == '/' then '_' else Letter(x)
  {
    if x < 26 { UpperLetter(x); } else if x < 52 { LowerLetter(x); } else if x < 62 { DigitLetter(x); }
  }

  /** A byte past the end counts as 0. */
  function ByteAt(b: seq<Byte>, i: nat): (x: nat)
    ensures x < 256
  {
    if i < |b| then b[i] else 0
  }

  function Together(a: nat, b: nat, c: nat): nat {
    a * 65_536 + b * 256 + c
  }

  /** Three bytes from `i` on as one number of 24 bits. */
  function Group(b: seq<Byte>, i: nat): nat {
    Together(ByteAt(b, i), ByteAt(b, i + 1), ByteAt(b, i + 2))
  }

  /** The six bits of a group that its letter at `r` spells, the highest first. */
  function SixBits(group: nat, r: nat): (x: Sextet) {
    (match r
     case 0 => group / 262_144
     case 1 => group / 4_096
     case 2 => group / 64
     case _ => group) % 64
  }

  lemma HighBits(a: nat, b: nat, c: nat)
    requires a < 256 && b < 256 && c < 256
    ensures Together(a, b, c) / 262_144 == a / 4
    ensures Together(a, b, c) / 4_096 == a * 16 + b / 16
  {
  }

  lemma LowBits(a: nat, b: nat, c: nat)
    requires a < 256 && b < 256 && c < 256
    ensures Together(a, b, c) / 64 == a * 1_024 + b * 4 + c / 64
  {
  }

  lemma LastBits(a: nat, b: nat, c: nat, front: nat)
    requires front == a * 1_024 + b * 4
    ensures Together(a, b, c) == 64 * front + c
  {
  }

  lemma WholeSixes(front: nat, c: nat)
    ensures (64 * front + c) % 64 == c % 64
  {
  }

  lemma LowInHigh(q: nat, x: nat, y: nat)
    requires x < 64 && y == 64 * q + x
    ensures y % 64 == x
  {
  }

  lemma SecondSix(a: nat, b: nat)
    requires a < 256 && b < 256
    ensures (a * 16 + b / 16) % 64 == a % 4 * 16 + b / 16
  {
    LowInHigh(a / 4, a % 4 * 16 + b / 16, a * 16 + b / 16);
  }

  lemma ThirdSix(a: nat, b: nat, c: nat)
    requires a < 256 && b < 256 && c < 256
    ensures (a * 1_024 + b * 4 + c / 64) % 64 == b % 16 * 4 + c / 64
  {
    LowInHigh(a * 16 + b / 16, b % 16 * 4 + c / 64, a * 1_024 + b * 4 + c / 64);
  }

  lemma FirstBits(a: Byte, b: Byte, c: Byte)
    ensures Four(a, b, c)[0] == SixBits(Together(a, b, c), 0)
  {
    HighBits(a, b, c);
  }

  lemma SecondBits(a: Byte, b: Byte, c: Byte)
    ensures Four(a, b, c)[1] == SixBits(Together(a, b, c), 1)
  {
    HighBits(a, b, c);
    SecondSix(a, b);
  }

  lemma ThirdBits(a: Byte, b: Byte, c: Byte)
    ensures Four(a, b, c)[2] == SixBits(Together(a, b, c), 2)
  {
    LowBits(a, b, c);
    ThirdSix(a, b, c);
  }

  lemma FourthBits(a: Byte, b: Byte, c: Byte)
    ensures Four(a, b, c)[3] == SixBits(Together(a, b, c), 3)
  {
    LastBits(a, b, c, a * 1_024 + b * 4);
    WholeSixes(a * 1_024 + b * 4, c);
  }

  lemma FourBits(a: Byte, b: Byte, c: Byte, r: nat)
    requires r < 4
    ensures Four(a, b, c)[r] == SixBits(Together(a, b, c), r)
  {
    match r
    case 0 => FirstBits(a, b, c);
    case 1 => SecondBits(a, b, c);
    case 2 => ThirdBits(a, b, c);
    case _ => FourthBits(a, b, c);
  }

  lemma FirstGroup(b: seq<Byte>, r: nat)
    requires r < 4 && r < |Pack(b)|
    ensures Pack(b)[r] == Four(ByteAt(b, 0), ByteAt(b, 1), ByteAt(b, 2))[r]
  {
  }

  lemma ShortPack(b: seq<Byte>)
    requires |b| < 3
    ensures |Pack(b)| < 4
  {
  }

  lemma PackHead(b: seq<Byte>, rest: seq<Byte>) returns (four: seq<Sextet>)
    requires |b| >= 3 && rest == b[3..]
    ensures |four| == 4 && Pack(b) == four + Pack(rest)
  {
    four := Four(b[0], b[1], b[2]);
  }

  lemma NextGroup(b: seq<Byte>, i: nat, rest: seq<Byte>)
    requires 4 <= i < |Pack(b)| && (|b| >= 3 ==> rest == b[3..])
    ensures |b| >= 3 && i - 4 < |Pack(rest)| && Pack(b)[i] == Pack(rest)[i - 4]
  {
    if |b| < 3 {
      ShortPack(b);
    } else {
      var four := PackHead(b, rest);
      BehindFour(four, Pack(rest), Pack(b), i);
    }
  }

  lemma BehindFour(four: seq<Sextet>, rest: seq<Sextet>, all: seq<Sextet>, i: nat)
    requires |four| == 4 <= i < |all| && all == four + rest
    ensures i - 4 < |rest| && all[i] == rest[i - 4]
  {
  }

  lemma {:induction false} PackedGroup(b: seq<Byte>, g: nat, r: nat, i: nat) returns (x: Byte, y: Byte, z: Byte)
    requires r < 4 && i == 4 * g + r < |Pack(b)|
    ensures x == ByteAt(b, 3 * g) && y == ByteAt(b, 3 * g + 1) && z == ByteAt(b, 3 * g + 2)
    ensures Pack(b)[i] == Four(x, y, z)[r]
    decreases g
  {
    if g == 0 {
      x, y, z := ByteAt(b, 0), ByteAt(b, 1), ByteAt(b, 2);
      FirstGroup(b, r);
    } else {
      var rest := if |b| >= 3 then b[3..] else [];
      NextGroup(b, i, rest);
      x, y, z := PackedGroup(rest, g - 1, r, i - 4);
    }
  }

  /** The letter at `r` of the `g`-th four is the letter of the alphabet for its six bits of the `g`-th three
      bytes. */
  lemma EncodedLetter(b: seq<Byte>, g: nat, r: nat)
    requires r < 4 && 4 * g + r < |Encode(b)|
    ensures Encode(b)[4 * g + r] == Alphabet()[SixBits(Group(b, 3 * g), r)]
  {
    EncodeIsUrlSafeLetters(b);
    var x, y, z := PackedGroup(b, g, r, 4 * g + r);
    FourBits(x, y, z, r);
    SafeLetter(Pack(b)[4 * g + r]);
  }
}
