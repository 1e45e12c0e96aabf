// URL-safe Base64 with padding, section 5 of RFC 4648.
module Base64 {
  import opened Wrappers

  type Byte = b: int | 0 <= b < 256
  type Sextet = s: int | 0 <= s < 64

  const PAD := '='

  /** Table 2 of RFC 4648. */
  function Symbol(s: Sextet): char {
    if s < 26 then ('A' as int + s) as char
    else if s < 52 then ('a' as int + (s - 26)) as char
    else if s < 62 then ('0' as int + (s - 52)) as char
    else if s == 62 then '-'
    else '_'
  }

  predicate IsSymbol(c: char) {
    'A' <= c <= 'Z' || 'a' <= c <= 'z' || '0' <= c <= '9' || c == '-' || c == '_'
  }

  function Value(c: char): Sextet
    requires IsSymbol(c)
  {
    if 'A' <= c <= 'Z' then c as int - 'A' as int
    else if 'a' <= c <= 'z' then c as int - 'a' as int + 26
    else if '0' <= c <= '9' then c as int - '0' as int + 52
    else if c == '-' then 62
    else 63
  }

  lemma SymbolValue(s: Sextet)
    ensures IsSymbol(Symbol(s)) && Value(Symbol(s)) == s
  {
  }

  /** The alphabet in order: A to Z, a to z, 0 to 9, and the two symbols that are safe in URLs. */
  lemma SymbolTable(s: Sextet)
    ensures Symbol(0) == 'A' && Symbol(25) == 'Z' && Symbol(26) == 'a' && Symbol(51) == 'z'
    ensures Symbol(52) == '0' && Symbol(61) == '9' && Symbol(62) == '-' && Symbol(63) == '_'
    ensures s < 61 && s != 25 && s != 51 ==> Symbol(s + 1) as int == Symbol(s) as int + 1
  {
  }

  /** One group: four characters for one, two or three bytes. */
  function EncodeGroup(bytes: seq<Byte>): (group: string)
    requires 1 <= |bytes| <= 3
    ensures |group| == 4
  {
    if |bytes| == 1 then
      [Symbol(bytes[0] / 4), Symbol(bytes[0] % 4 * 16), PAD, PAD]
    else if |bytes| == 2 then
      [Symbol(bytes[0] / 4), Symbol(bytes[0] % 4 * 16 + bytes[1] / 16), Symbol(bytes[1] % 16 * 4), PAD]
    else
      [Symbol(bytes[0] / 4), Symbol(bytes[0] % 4 * 16 + bytes[1] / 16),
       Symbol(bytes[1] % 16 * 4 + bytes[2] / 64), Symbol(bytes[2] % 64)]
  }

  function GroupSize(bytes: seq<Byte>): nat {
    if |bytes| < 3 then |bytes| else 3
  }

  function Encode(bytes: seq<Byte>): string {
    if bytes == [] then
      ""
    else
      EncodeGroup(bytes[..GroupSize(bytes)]) + Encode(bytes[GroupSize(bytes)..])
  }

  /** Only the last group may be padded. */
  function DecodeGroup(group: string, last: bool): Option<seq<Byte>>
    requires |group| == 4
  {
    if !IsSymbol(group[0]) || !IsSymbol(group[1]) then
      None
    else if last && group[2] == PAD && group[3] == PAD then
      Some([First(Value(group[0]), Value(group[1]))])
    else if !IsSymbol(group[2]) then
      None
    else if last && group[3] == PAD then
      Some([First(Value(group[0]), Value(group[1])), Second(Value(group[1]), Value(group[2]))])
    else if !IsSymbol(group[3]) then
      None
    else
      Some([First(Value(group[0]), Value(group[1])), Second(Value(group[1]), Value(group[2])),
            Third(Value(group[2]), Value(group[3]))])
  }

  function First(a: Sextet, b: Sextet): Byte {
    a * 4 + b / 16
  }

  function Second(b: Sextet, c: Sextet): Byte {
    b % 16 * 16 + c / 4
  }

  function Third(c: Sextet, d: Sextet): Byte {
    c % 4 * 64 + d
  }

  function Decode(text: string): Option<seq<Byte>> {
    if text == [] then
      Some([])
    else if |text| < 4 then
      None
    else
      match DecodeGroup(text[..4], |text| == 4)
      case None => None
      case Some(bytes) =>
        match Decode(text[4..])
        case None => None
        case Some(rest) => Some(bytes + rest)
  }

  /** Splitting three bytes into four sextets loses nothing. */
  lemma Regroup(x: Byte, y: Byte, z: Byte)
    ensures First(x / 4, x % 4 * 16 + y / 16) == x
    ensures Second(x % 4 * 16 + y / 16, y % 16 * 4 + z / 64) == y
    ensures Third(y % 16 * 4 + z / 64, z % 64) == z
  {
  }

  /** The four sextets of three bytes are the same 24 bits, most significant first. */
  lemma SameBits(x: Byte, y: Byte, z: Byte)
    ensures
      var group := EncodeGroup([x, y, z]);
      && (forall i :: 0 <= i < 4 ==> IsSymbol(group[i]))
      && Value(group[0]) * 262_144 + Value(group[1]) * 4_096 + Value(group[2]) * 64 + Value(group[3])
           == x * 65_536 + y * 256 + z
  {
    var a, b, c, d := x / 4, x % 4 * 16 + y / 16, y % 16 * 4 + z / 64, z % 64;
    SymbolValue(a);
    SymbolValue(b);
    SymbolValue(c);
    SymbolValue(d);
    assert EncodeGroup([x, y, z]) == [Symbol(a), Symbol(b), Symbol(c), Symbol(d)];
    TwentyFourBits(x, y, z);
  }

  lemma TwentyFourBits(x: Byte, y: Byte, z: Byte)
    ensures (x / 4) * 262_144 + (x % 4 * 16 + y / 16) * 4_096 + (y % 16 * 4 + z / 64) * 64 + z % 64
      == x * 65_536 + y * 256 + z
  {
  }

  /** The padded groups carry the bits of one and of two bytes, followed by zeros. */
  lemma PaddedBits(x: Byte, y: Byte)
    ensures EncodeGroup([x]) == EncodeGroup([x, 0, 0])[..2] + "=="
    ensures EncodeGroup([x, y]) == EncodeGroup([x, y, 0])[..3] + "="
  {
  }

  lemma OneByte(x: Byte)
    ensures DecodeGroup(EncodeGroup([x]), true) == Some([x])
  {
    SymbolValue(x / 4);
    SymbolValue(x % 4 * 16);
    Regroup(x, 0, 0);
  }

  lemma TwoBytes(x: Byte, y: Byte)
    ensures DecodeGroup(EncodeGroup([x, y]), true) == Some([x, y])
  {
    SymbolValue(x / 4);
    SymbolValue(x % 4 * 16 + y / 16);
    SymbolValue(y % 16 * 4);
    Regroup(x, y, 0);
  }

  lemma DecodeFour(a: Sextet, b: Sextet, c: Sextet, d: Sextet, last: bool)
    ensures DecodeGroup([Symbol(a), Symbol(b), Symbol(c), Symbol(d)], last)
      == Some([First(a, b), Second(b, c), Third(c, d)])
  {
    SymbolValue(a);
    SymbolValue(b);
    SymbolValue(c);
    SymbolValue(d);
  }

  lemma ThreeBytes(x: Byte, y: Byte, z: Byte, last: bool)
    ensures DecodeGroup(EncodeGroup([x, y, z]), last) == Some([x, y, z])
  {
    DecodeFour(x / 4, x % 4 * 16 + y / 16, y % 16 * 4 + z / 64, z % 64, last);
    Regroup(x, y, z);
  }

  lemma GroupRoundTrip(bytes: seq<Byte>, last: bool)
    requires 1 <= |bytes| <= 3 && (last || |bytes| == 3)
    ensures DecodeGroup(EncodeGroup(bytes), last) == Some(bytes)
  {
    if |bytes| == 1 {
      OneByte(bytes[0]);
      assert bytes == [bytes[0]];
    } else if |bytes| == 2 {
      TwoBytes(bytes[0], bytes[1]);
      assert bytes == [bytes[0], bytes[1]];
    } else {
      ThreeBytes(bytes[0], bytes[1], bytes[2], last);
      assert bytes == [bytes[0], bytes[1], bytes[2]];
    }
  }

  lemma DecodeOneMore(group: string, text: string, bytes: seq<Byte>)
    requires |group| == 4 && DecodeGroup(group, text == []) == Some(bytes) && Decode(text).Some?
    ensures Decode(group + text) == Some(bytes + Decode(text).value)
  {
    assert (group + text)[..4] == group && (group + text)[4..] == text;
  }

  /** Decoding undoes encoding, for every byte string. */
  lemma {:induction false} DecodeEncode(bytes: seq<Byte>)
    ensures Decode(Encode(bytes)) == Some(bytes)
    ensures Encode(bytes) == [] <==> bytes == []
  {
    if bytes != [] {
      var n := GroupSize(bytes);
      DecodeEncode(bytes[n..]);
      GroupRoundTrip(bytes[..n], bytes[n..] == []);
      DecodeOneMore(EncodeGroup(bytes[..n]), Encode(bytes[n..]), bytes[..n]);
      assert bytes == bytes[..n] + bytes[n..];
    }
  }

  predicate InAlphabet(text: string) {
    forall i :: 0 <= i < |text| ==> IsSymbol(text[i]) || text[i] == PAD
  }

  lemma GroupShape(bytes: seq<Byte>)
    requires 1 <= |bytes| <= 3
    ensures InAlphabet(EncodeGroup(bytes))
  {
  }

  lemma InAlphabetAppend(group: string, text: string)
    requires InAlphabet(group) && InAlphabet(text)
    ensures InAlphabet(group + text)
  {
  }

  lemma {:induction false} EncodeLength(bytes: seq<Byte>)
    ensures |Encode(bytes)| == (|bytes| + 2) / 3 * 4
  {
    if bytes != [] {
      var rest := bytes[GroupSize(bytes)..];
      EncodeLength(rest);
      assert |Encode(bytes)| == 4 + |Encode(rest)|;
      assert (|bytes| + 2) / 3 == 1 + (|rest| + 2) / 3;
    }
  }

  /** Encoded text comes in groups of four, written in the URL-safe alphabet and the pad character. */
  lemma {:induction false} EncodeShape(bytes: seq<Byte>)
    ensures |Encode(bytes)| == (|bytes| + 2) / 3 * 4
    ensures InAlphabet(Encode(bytes))
  {
    EncodeLength(bytes);
    if bytes != [] {
      var n := GroupSize(bytes);
      EncodeShape(bytes[n..]);
      GroupShape(bytes[..n]);
      InAlphabetAppend(EncodeGroup(bytes[..n]), Encode(bytes[n..]));
    }
  }
}
