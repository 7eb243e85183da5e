/** Unpadded URL-safe base64 (RFC 4648, section 5, with the padding omitted as section 3.2 allows),
    built as the share site builds it: on the `btoa` and `atob` of the browser. */
module Base64Url {
  import opened Wrappers

  type Byte = b: nat | b < 256

  type Sextet = x: nat | x < 64

  /** The base64 alphabet (RFC 4648, section 4). */
  function Letter(x: Sextet): char {
    if x < 26 then 'A' + x as char
    else if x < 52 then 'a' + (x - 26) as char
    else if x < 62 then '0' + (x - 52) as char
    else if x == 62 then '+'
    else '/'
  }

  predicate InAlphabet(c: char) {
    'A' <= c <= 'Z' || 'a' <= c <= 'z' || '0' <= c <= '9' || c == '+' || c == '/'
  }

  function Index(c: char): Sextet
    requires InAlphabet(c)
  {
    if 'A' <= c <= 'Z' then (c - 'A') as nat
    else if 'a' <= c <= 'z' then (c - 'a') as nat + 26
    else if '0' <= c <= '9' then (c - '0') as nat + 52
    else if c == '+' then 62
    else 63
  }

  /** Three bytes as four groups of six bits. */
  function Four(a: Byte, b: Byte, c: Byte): (r: seq<Sextet>)
    ensures |r| == 4
  {
    [a / 4, a % 4 * 16 + b / 16, b % 16 * 4 + c / 64, c % 64]
  }

  /** Some bytes as groups of six bits: a missing byte counts as 0, and the groups made of missing bytes
      alone are left out. */
  function Pack(b: seq<Byte>): seq<Sextet> {
    if b == [] then []
    else if |b| == 1 then Four(b[0], 0, 0)[..2]
    else if |b| == 2 then Four(b[0], b[1], 0)[..3]
    else Four(b[0], b[1], b[2]) + Pack(b[3..])
  }

  function Spell(x: seq<Sextet>): (s: string)
    ensures |s| == |x|
  {
    seq(|x|, i requires 0 <= i < |x| => Letter(x[i]))
  }

  function Letters(b: seq<Byte>): string {
    Spell(Pack(b))
  }

  function Repeat(c: char, n: nat): (s: string)
    ensures |s| == n
  {
    if n == 0 then "" else Repeat(c, n - 1) + [c]
  }

  /** Standard base64: the letters, padded to a multiple of four. */
  function Padded(b: seq<Byte>): string {
    Letters(b) + Repeat('=', (3 - |b| % 3) % 3)
  }

  /** `String.fromCharCode` of each byte. */
  function Binary(b: seq<Byte>): string {
    seq(|b|, i requires 0 <= i < |b| => b[i] as char)
  }

  /** `charCodeAt` of each character, as a byte array holds it. */
  function Codes(s: string): seq<Byte> {
    seq(|s|, i requires 0 <= i < |s| => s[i] as nat % 256)
  }

  /** `btoa`, which refuses a text with a character that is not one byte. */
  function Btoa(binary: string): Option<string> {
    if forall i :: 0 <= i < |binary| ==> binary[i] as nat < 256 then Some(Padded(Codes(binary))) else None
  }

  predicate AllLetters(s: string) {
    forall i :: 0 <= i < |s| ==> InAlphabet(s[i])
  }

  /** The three bytes in four groups of six bits. */
  function Three(x: Sextet, y: Sextet, z: Sextet, w: Sextet): (r: seq<Byte>)
    ensures |r| == 3
  {
    [x * 4 + y / 16, y % 16 * 16 + z / 4, z % 4 * 64 + w]
  }

  /** The bytes in groups of six bits; the bits left over at the end are dropped. */
  function Unpack(x: seq<Sextet>): seq<Byte> {
    if |x| < 2 then []
    else if |x| == 2 then Three(x[0], x[1], 0, 0)[..1]
    else if |x| == 3 then Three(x[0], x[1], x[2], 0)[..2]
    else Three(x[0], x[1], x[2], x[3]) + Unpack(x[4..])
  }

  function Indices(s: string): (x: seq<Sextet>)
    requires AllLetters(s)
    ensures |x| == |s|
  {
    seq(|s|, i requires 0 <= i < |s| => Index(s[i]))
  }

  function Bytes(s: string): seq<Byte>
    requires AllLetters(s) && |s| % 4 != 1
  {
    Unpack(Indices(s))
  }

  /** What `atob` ignores. */
  predicate AsciiSpace(c: char) {
    c == '\t' || c == '\n' || c == '\U{000C}' || c == '\r' || c == ' '
  }

  function DropSpaces(s: string): string {
    if s == "" then ""
    else DropSpaces(s[..|s| - 1]) + (if AsciiSpace(s[|s| - 1]) then "" else [s[|s| - 1]])
  }

  function DropOne(s: string): (r: string)
    ensures |r| <= |s|
  {
    if s != "" && s[|s| - 1] == '=' then s[..|s| - 1] else s
  }

  /** The bytes `atob` reads; a text it refuses gives none. */
  function AtobBytes(s: string): Option<seq<Byte>> {
    var t := DropSpaces(s);
    var u := if |t| % 4 == 0 then DropOne(DropOne(t)) else t;
    if |u| % 4 == 1 || !AllLetters(u) then None else Some(Bytes(u))
  }

  /** `atob`: one character for each byte. */
  function Atob(s: string): Option<string> {
    match AtobBytes(s)
    case Some(b) => Some(Binary(b))
    case None => None
  }

  function ReplaceChar(s: string, from: char, to: char): (r: string)
    ensures |r| == |s|
  {
    seq(|s|, i requires 0 <= i < |s| => if s[i] == from then to else s[i])
  }

  function StripEquals(s: string): (r: string)
    ensures |r| <= |s|
  {
    if s != "" && s[|s| - 1] == '=' then StripEquals(s[..|s| - 1]) else s
  }

  function UrlSafe(s: string): (r: string)
    ensures |r| == |s|
  {
    ReplaceChar(ReplaceChar(s, '+', '-'), '/', '_')
  }

  function Encode(b: seq<Byte>): string {
    StripEquals(UrlSafe(Padded(b)))
  }

  function Standard(value: string): (r: string)
    ensures |r| == |value|
  {
    ReplaceChar(ReplaceChar(value, '-', '+'), '_', '/')
  }

  function PadTo4(s: string): string {
    s + Repeat('=', Padding(|s|))
  }

  function Padding(n: nat): (p: nat)
    ensures p < 4
  {
    (n + 3) / 4 * 4 - n
  }

  /** `fromBase64Url`. */
  function Decode(value: string): Option<seq<Byte>> {
    match Atob(PadTo4(Standard(value)))
    case Some(binary) => Some(Codes(binary))
    case None => None
  }

  /** The URL-safe alphabet. */
  predicate UrlLetter(c: char) {
    c != '+' && c != '/' && (InAlphabet(c) || c == '-' || c == '_')
  }

  predicate AllUrlLetters(s: string) {
    forall i :: 0 <= i < |s| ==> UrlLetter(s[i])
  }

  /** The bits of the last group that belong to no byte. */
  function SpareBits(x: seq<Sextet>): nat {
    if |x| % 4 == 2 then x[|x| - 1] % 16 else if |x| % 4 == 3 then x[|x| - 1] % 4 else 0
  }
}
