/**
 * Base64 as in section 4 of RFC 4648, the encoding behind `uint8ArrayToBase64`
 * (crates/idxdb-store/src/js/utils.js) and `base64ToUint8Array` (crates/idxdb-store/src/js/import.js).
 * The decoder is the forgiving one of browsers: it skips white space and accepts missing padding.
 */
module Base64 {
  import opened Common

  type byte = x: int | 0 <= x < 256
  type sextet = x: int | 0 <= x < 64

  /** The standard alphabet: upper case, lower case, digits, plus and slash. */
  function CharOf(x: sextet): (c: char)
    ensures SextetOf(c) == Some(x) && c != '=' && !IsSpace(c)
  {
    if x < 26 then (x + 'A' as int) as char
    else if x < 52 then (x - 26 + 'a' as int) as char
    else if x < 62 then (x - 52 + '0' as int) as char
    else if x == 62 then '+' else '/'
  }

  function SextetOf(c: char): Option<sextet> {
    if 'A' <= c <= 'Z' then Some(c as int - 'A' as int)
    else if 'a' <= c <= 'z' then Some(c as int - 'a' as int + 26)
    else if '0' <= c <= '9' then Some(c as int - '0' as int + 52)
    else if c == '+' then Some(62)
    else if c == '/' then Some(63)
    else None
  }

  const UPPER := "ABCDEFGHIJKLMNOPQRSTUVWXYZ"
  const LOWER := "abcdefghijklmnopqrstuvwxyz"
  const DIGITS := "0123456789"

  lemma UpperLetters(x: sextet)
    requires x < 26
    ensures CharOf(x) == UPPER[x]
  {
  }

  lemma LowerLetters(x: sextet)
    requires 26 <= x < 52
    ensures CharOf(x) == LOWER[x - 26]
  {
  }

  lemma Digits(x: sextet)
    requires 52 <= x < 62
    ensures CharOf(x) == DIGITS[x - 52]
  {
  }

  /** The alphabet of section 4 of RFC 4648, and no other character stands for a value. */
  lemma StandardAlphabet(x: sextet, c: char)
    ensures |UPPER + LOWER + DIGITS + "+/"| == 64
    ensures CharOf(x) == (UPPER + LOWER + DIGITS + "+/")[x]
    ensures SextetOf(c) == Some(x) <==> c == CharOf(x)
  {
    if x < 26 {
      UpperLetters(x);
    } else if x < 52 {
      LowerLetters(x);
    } else if x < 62 {
      Digits(x);
    }
  }

  predicate IsSpace(c: char) { c == ' ' || c == '\t' || c == '\n' || c == '\r' || c == 12 as char }

  // ---------------------------------------------------------------- 24-bit groups

  /** The four characters that carry the 24 bits of three bytes, high bits first. */
  function First(x: byte): sextet { x / 4 }
  function Second(x: byte, y: byte): sextet { x % 4 * 16 + y / 16 }
  function Third(y: byte, z: byte): sextet { y % 16 * 4 + z / 64 }
  function Fourth(z: byte): sextet { z % 64 }

  /** The encoding without its padding: four characters for three bytes, three for two, two for one. */
  function Bare(b: seq<byte>): string {
    if |b| == 0 then ""
    else if |b| == 1 then [CharOf(First(b[0])), CharOf(Second(b[0], 0))]
    else if |b| == 2 then [CharOf(First(b[0])), CharOf(Second(b[0], b[1])), CharOf(Third(b[1], 0))]
    else
      [CharOf(First(b[0])), CharOf(Second(b[0], b[1])), CharOf(Third(b[1], b[2])), CharOf(Fourth(b[2]))]
      + Bare(b[3..])
  }

  /** A character of the alphabet: never white space or padding. */
  predicate IsCode(c: char) { SextetOf(c).Some? && c != '=' && !IsSpace(c) }

  lemma CodesAreCodes(x: sextet)
    ensures IsCode(CharOf(x))
  {
  }

  lemma {:induction false} BareCodes(b: seq<byte>)
    ensures forall i :: 0 <= i < |Bare(b)| ==> IsCode(Bare(b)[i])
  {
    hide IsCode, CharOf, First, Second, Third, Fourth;
    forall x ensures IsCode(CharOf(x)) { CodesAreCodes(x); }
    if |b| > 2 {
      BareCodes(b[3..]);
    }
  }

  lemma {:induction false} BareLength(b: seq<byte>)
    ensures |Bare(b)| == |b| / 3 * 4 + if |b| % 3 == 0 then 0 else |b| % 3 + 1
  {
    hide CharOf, First, Second, Third, Fourth;
    if |b| > 2 {
      BareLength(b[3..]);
    }
  }

  function Padding(n: nat): string {
    if n % 3 == 1 then "==" else if n % 3 == 2 then "=" else ""
  }

  function Encode(b: seq<byte>): string {
    Bare(b) + Padding(|b|)
  }

  function Sextet(c: char): sextet {
    var x := SextetOf(c);
    if x.Some? then x.value else 0
  }

  /** The bytes of complete groups; the bits left over in a shorter last group are dropped. */
  function Bytes(s: string): seq<byte> {
    if |s| < 2 then []
    else if |s| == 2 then [Sextet(s[0]) * 4 + Sextet(s[1]) / 16]
    else if |s| == 3 then [Sextet(s[0]) * 4 + Sextet(s[1]) / 16, Sextet(s[1]) % 16 * 16 + Sextet(s[2]) / 4]
    else
      [ Sextet(s[0]) * 4 + Sextet(s[1]) / 16,
        Sextet(s[1]) % 16 * 16 + Sextet(s[2]) / 4,
        Sextet(s[2]) % 4 * 64 + Sextet(s[3])
      ] + Bytes(s[4..])
  }

  function WithoutSpaces(s: string): string {
    if s == "" then "" else (if IsSpace(s[0]) then "" else [s[0]]) + WithoutSpaces(s[1..])
  }

  /** At most two trailing padding characters go, and only from a whole number of groups. */
  function Unpadded(s: string): string {
    if |s| % 4 != 0 || s == "" || s[|s| - 1] != '=' then s
    else if s[|s| - 2] != '=' then s[..|s| - 1]
    else s[..|s| - 2]
  }

  function Decode(text: string): Option<seq<byte>> {
    var s := Unpadded(WithoutSpaces(text));
    if |s| % 4 == 1 || exists i :: 0 <= i < |s| && SextetOf(s[i]).None? then None
    else Some(Bytes(s))
  }

  // ---------------------------------------------------------------- the round trip

  lemma {:induction false} NoSpaces(s: string)
    requires forall i :: 0 <= i < |s| ==> !IsSpace(s[i])
    ensures WithoutSpaces(s) == s
  {
    if s != "" {
      NoSpaces(s[1..]);
      assert s == [s[0]] + s[1..];
    }
  }

  lemma FirstReturns(x: byte, y: byte)
    ensures First(x) * 4 + Second(x, y) / 16 == x
  {
  }

  lemma SecondReturns(x: byte, y: byte, z: byte)
    ensures Second(x, y) % 16 * 16 + Third(y, z) / 4 == y
  {
  }

  lemma ThirdReturns(y: byte, z: byte)
    ensures Third(y, z) % 4 * 64 + Fourth(z) == z
  {
  }

  /** A group's four characters, read as one 24-bit number, are its three bytes read as one. */
  lemma SameBits(x: byte, y: byte, z: byte)
    ensures (First(x) as int) * 0x4_0000 + (Second(x, y) as int) * 0x1000 + (Third(y, z) as int) * 0x40
            + (Fourth(z) as int)
            == (x as int) * 0x1_0000 + (y as int) * 0x100 + (z as int)
  {
  }

  lemma {:induction false} BytesOfBare(b: seq<byte>)
    ensures Bytes(Bare(b)) == b
  {
    hide First, Second, Third, Fourth;
    if |b| == 1 {
      FirstReturns(b[0], 0);
    } else if |b| == 2 {
      FirstReturns(b[0], b[1]);
      SecondReturns(b[0], b[1], 0);
    } else if |b| > 2 {
      FirstReturns(b[0], b[1]);
      SecondReturns(b[0], b[1], b[2]);
      ThirdReturns(b[1], b[2]);
      BytesOfBare(b[3..]);
      assert Bare(b)[4..] == Bare(b[3..]);
      assert b == b[..3] + b[3..];
    }
  }

  /** Padding to whole groups comes off again. */
  lemma Unpads(s: string, pad: string)
    requires (|s| + |pad|) % 4 == 0 && (pad == "" || pad == "=" || pad == "==")
    requires s != "" ==> s[|s| - 1] != '='
    requires pad == "==" ==> |s| >= 2
    requires pad == "=" ==> |s| >= 3
    ensures Unpadded(s + pad) == s
  {
    var e := s + pad;
    if pad == "" {
      assert e == s;
    } else if pad == "=" {
      assert e[|e| - 1] == '=' && e[|e| - 2] == s[|s| - 1] && e[..|e| - 1] == s;
    } else {
      assert e[|e| - 1] == '=' && e[|e| - 2] == '=' && e[..|e| - 2] == s;
    }
  }

  lemma UnpadEncode(b: seq<byte>)
    ensures Unpadded(Encode(b)) == Bare(b)
  {
    hide Bare, Unpadded, IsCode;
    BareLength(b);
    BareCodes(b);
    var s := Bare(b);
    if s != "" {
      assert IsCode(s[|s| - 1]);
      CodeNotPad(s[|s| - 1]);
    }
    WholeGroups(|b|, |s|);
    Unpads(s, Padding(|b|));
  }

  lemma CodeNotPad(c: char)
    requires IsCode(c)
    ensures c != '=' && !IsSpace(c) && SextetOf(c).Some?
  {
  }

  lemma WholeGroups(n: nat, m: nat)
    requires m == n / 3 * 4 + if n % 3 == 0 then 0 else n % 3 + 1
    ensures (m + |Padding(n)|) % 4 == 0 && m % 4 != 1 && (n % 3 == 1 ==> m >= 2) && (n % 3 == 2 ==> m >= 3)
  {
  }

  /** Decoding undoes encoding, for every sequence of bytes. */
  lemma DecodeEncode(b: seq<byte>)
    ensures Decode(Encode(b)) == Some(b)
  {
    hide Bare, Bytes, Unpadded, WithoutSpaces, IsCode;
    var s, e := Bare(b), Encode(b);
    BareCodes(b);
    BareLength(b);
    WholeGroups(|b|, |s|);
    forall i | 0 <= i < |s| ensures !IsSpace(s[i]) && SextetOf(s[i]).Some? {
      CodeNotPad(s[i]);
    }
    forall i | 0 <= i < |e| ensures !IsSpace(e[i]) {
      assert i < |s| ==> e[i] == s[i];
    }
    NoSpaces(e);
    UnpadEncode(b);
    BytesOfBare(b);
  }

  // ---------------------------------------------------------------- the loops around the encoding

  /** Bytes as the characters of a binary string, which is what the encoder takes and the decoder gives. */
  function BinaryString(b: seq<byte>): (s: string)
    ensures |s| == |b| && forall i :: 0 <= i < |b| ==> s[i] as int == b[i]
  {
    seq(|b|, i requires 0 <= i < |b| => b[i] as char)
  }

  /** The character codes of a binary string. */
  function CodesOf(s: string): (b: seq<byte>)
    requires forall i :: 0 <= i < |s| ==> s[i] as int < 256
    ensures |b| == |s| && forall i :: 0 <= i < |s| ==> b[i] == s[i] as int
  {
    seq(|s|, i requires 0 <= i < |s| => s[i] as int)
  }

  /** The browser's encoder, on a binary string. */
  function Btoa(s: string): string
    requires forall i :: 0 <= i < |s| ==> s[i] as int < 256
  {
    Encode(CodesOf(s))
  }

  /** `uint8ArrayToBase64`: the binary string is built byte by byte, then encoded. */
  method Uint8ArrayToBase64(bytes: seq<byte>) returns (text: string)
    ensures text == Encode(bytes) && Decode(text) == Some(bytes)
  {
    hide Encode, Decode;
    var binary := "";
    for i := 0 to |bytes|
      invariant |binary| == i && forall j :: 0 <= j < i ==> binary[j] as int == bytes[j]
    {
      binary := binary + [bytes[i] as char];
    }
    text := Btoa(binary);
    assert CodesOf(binary) == bytes;
    DecodeEncode(bytes);
  }

  /** `base64ToUint8Array`: the text is decoded to a binary string, and each character code stored as a byte. */
  method Base64ToUint8Array(text: string) returns (ok: bool, bytes: array<byte>)
    ensures ok <==> Decode(text).Some?
    ensures ok ==> fresh(bytes) && Decode(text) == Some(bytes[..])
  {
    hide Decode;
    var decoded := Decode(text);
    if decoded.None? {
      bytes := new byte[0];
      return false, bytes;
    }
    var binary := BinaryString(decoded.value);
    bytes := new byte[|binary|];
    for i := 0 to |binary|
      invariant forall j :: 0 <= j < i ==> bytes[j] == binary[j] as int
    {
      bytes[i] := binary[i] as int;
    }
    ok := true;
    assert bytes[..] == decoded.value;
  }
}
