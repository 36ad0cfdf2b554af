/** The text OutputStreamWriter::SerializeString produces for a string of bytes: a JSON
    string body (section 7 of RFC 8259), together with the JSON reading of such a body
    that the escaping is proved against. */
module JsonEscape {
  import opened Wrappers

  type Byte = b: int | 0 <= b < 256

  /** What unibrow::Utf8::CalculateValue reports for a window of bytes: the bad-character
      marker, or a code point and the number of bytes it took. */
  datatype Decoded = BadChar | CodePoint(value: nat, cursor: nat)

  /** The UTF-8 decoder is not part of this model; it is a parameter, of which only its
      contract is assumed: a decoded character takes at least one byte and no more than
      the window holds. */
  type Utf8Decoder = seq<Byte> -> Decoded

  ghost predicate DecoderContract(decode: Utf8Decoder) {
    forall w :: decode(w).CodePoint? ==> 1 <= decode(w).cursor <= |w|
  }

  /** The contents of a NUL-terminated string: no byte before the terminator is zero. */
  ghost predicate NoNul(s: seq<Byte>) {
    forall k :: 0 <= k < |s| ==> s[k] != 0
  }

  function HexChar(d: nat): (c: char)
    requires d < 16
    ensures ('0' <= c <= '9') || ('A' <= c <= 'F')
  {
    "0123456789ABCDEF"[d]
  }

  /** AddUChar: "\u" and the four hexadecimal digits of bits 15..0 of `u`. */
  function UCharEscape(u: nat): (r: seq<char>)
    ensures |r| == 6 && r[0] == '\\' && r[1] == 'u'
  {
    "\\u" + [HexChar(u / 4096 % 16), HexChar(u / 256 % 16), HexChar(u / 16 % 16), HexChar(u % 16)]
  }

  /** The number of bytes handed to the decoder at `i`: the byte itself and up to four
      more, stopping at the terminator. */
  function WindowLength(s: seq<Byte>, i: nat): (n: nat)
    requires i < |s|
    ensures 1 <= n <= 5 && i + n <= |s|
  {
    if |s| - i < 5 then |s| - i else 5
  }

  /** The index of the byte the loop of SerializeString reads after the one at `i`: the
      next byte, or the byte after the UTF-8 sequence the decoder took. */
  function Next(s: seq<Byte>, i: nat, decode: Utf8Decoder): (n: nat)
    requires i < |s| && DecoderContract(decode)
    ensures i < n <= |s|
  {
    if s[i] < 128 then i + 1
    else match decode(s[i..i + WindowLength(s, i)])
      case CodePoint(_, cursor) => i + cursor
      case BadChar => i + 1
  }

  /** The text one iteration of the loop of SerializeString writes for the byte at `i`. */
  function PieceText(s: seq<Byte>, i: nat, decode: Utf8Decoder): seq<char>
    requires i < |s|
  {
    if s[i] < 128 then AsciiText(s[i])
    else match decode(s[i..i + WindowLength(s, i)])
      case CodePoint(c, _) => UCharEscape(c)
      case BadChar => "?"
  }

  /** The piece of a byte of 128 or more, by what the decoder reports for its window. */
  lemma Utf8Piece(s: seq<Byte>, i: nat, decode: Utf8Decoder, d: Decoded)
    requires i < |s| && s[i] >= 128 && DecoderContract(decode)
    requires d == decode(s[i..i + WindowLength(s, i)])
    ensures d.CodePoint? ==> PieceText(s, i, decode) == UCharEscape(d.value) && Next(s, i, decode) == i + d.cursor
    ensures d.BadChar? ==> PieceText(s, i, decode) == ['?'] && Next(s, i, decode) == i + 1
  {
  }

  /** The escaped text of the bytes from `i` on. */
  function EscapeFrom(s: seq<Byte>, i: nat, decode: Utf8Decoder): seq<char>
    requires i <= |s| && DecoderContract(decode)
    decreases |s| - i
  {
    if i == |s| then [] else PieceText(s, i, decode) + EscapeFrom(s, Next(s, i, decode), decode)
  }

  /** The whole text SerializeString writes: a line break, then the quoted body. */
  function Serialized(s: seq<Byte>, decode: Utf8Decoder): seq<char>
    requires DecoderContract(decode)
  {
    "\n\"" + EscapeFrom(s, 0, decode) + "\""
  }

  // The reading of a JSON string body, section 7 of RFC 8259.

  /** A character that may stand for itself in a JSON string. */
  predicate Unescaped(c: char) {
    c >= ' ' && c != '"' && c != '\\'
  }

  function HexValue(c: char): Option<nat> {
    if '0' <= c <= '9' then Some(c as int - '0' as int)
    else if 'A' <= c <= 'F' then Some(c as int - 'A' as int + 10)
    else if 'a' <= c <= 'f' then Some(c as int - 'a' as int + 10)
    else None
  }

  /** The code unit of a four-digit hexadecimal escape. */
  function Hex4(t: seq<char>): Option<nat>
    requires |t| == 4
  {
    match (HexValue(t[0]), HexValue(t[1]), HexValue(t[2]), HexValue(t[3]))
    case (Some(a), Some(b), Some(c), Some(d)) => Some(4096 * a + 256 * b + 16 * c + d)
    case _ => None
  }

  /** The code unit a one-letter escape stands for. */
  function ShortEscape(c: char): Option<nat> {
    match c
    case '"' => Some(34)
    case '\\' => Some(92)
    case '/' => Some(47)
    case 'b' => Some(8)
    case 'f' => Some(12)
    case 'n' => Some(10)
    case 'r' => Some(13)
    case 't' => Some(9)
    case _ => None
  }

  function Cons(u: nat, rest: Option<seq<nat>>): Option<seq<nat>> {
    if rest.Some? then Some([u] + rest.value) else None
  }

  /** The code units a JSON string body denotes, or None when it is not one. */
  function Unescape(t: seq<char>): Option<seq<nat>>
    decreases |t|
  {
    if t == [] then Some([])
    else if t[0] == '\\' then
      if |t| >= 2 && ShortEscape(t[1]).Some? then Cons(ShortEscape(t[1]).value, Unescape(t[2..]))
      else if |t| >= 6 && t[1] == 'u' && Hex4(t[2..6]).Some? then Cons(Hex4(t[2..6]).value, Unescape(t[6..]))
      else None
    else if Unescaped(t[0]) then Cons(t[0] as int, Unescape(t[1..]))
    else None
  }

  /** The code units the bytes from `i` on stand for, character by character: an ASCII
      byte for itself, a decoded character for its code point truncated to 16 bits, and a
      byte the decoder rejects for '?'. */
  function Units(s: seq<Byte>, i: nat, decode: Utf8Decoder): seq<nat>
    requires i <= |s| && DecoderContract(decode)
    decreases |s| - i
  {
    if i == |s| then []
    else if s[i] < 128 then [s[i]] + Units(s, i + 1, decode)
    else match decode(s[i..i + WindowLength(s, i)])
      case CodePoint(c, cursor) => [c % 65536] + Units(s, i + cursor, decode)
      case BadChar => [63] + Units(s, i + 1, decode)
  }

  /** The four hexadecimal digits of AddUChar read back give bits 15..0 of `u`. */
  lemma UCharEscapeValue(u: nat)
    ensures Hex4(UCharEscape(u)[2..6]) == Some(u % 65536)
  {
    var t := UCharEscape(u)[2..6];
    assert t == [HexChar(u / 4096 % 16), HexChar(u / 256 % 16), HexChar(u / 16 % 16), HexChar(u % 16)];
    HexCharValue(u / 4096 % 16);
    HexCharValue(u / 256 % 16);
    HexCharValue(u / 16 % 16);
    HexCharValue(u % 16);
    Low16(u);
  }

  lemma HexCharValue(d: nat)
    requires d < 16
    ensures HexValue(HexChar(d)) == Some(d)
  {
  }

  /** Bits 15..0 of `u` as its four low hexadecimal digits. */
  lemma Low16(u: nat)
    ensures 4096 * (u / 4096 % 16) + 256 * (u / 256 % 16) + 16 * (u / 16 % 16) + u % 16 == u % 65536
  {
    var u1 := u / 16;
    var u2 := u1 / 16;
    var u3 := u2 / 16;
    var u4 := u3 / 16;
    assert u / 256 == u2;
    assert u / 4096 == u3;
    assert u == u % 16 + 16 * (u1 % 16) + 256 * (u2 % 16) + 4096 * (u3 % 16) + 65536 * u4;
  }

  /** A one-letter escape followed by any text reads as its code unit followed by what
      the rest reads as. */
  lemma ShortEscapeReadsBack(e: char, rest: seq<char>)
    requires ShortEscape(e).Some?
    ensures Unescape(['\\', e] + rest) == Cons(ShortEscape(e).value, Unescape(rest))
  {
    assert (['\\', e] + rest)[2..] == rest;
  }

  /** The same for a "\u" escape: it reads as bits 15..0 of the escaped value. */
  lemma UCharEscapeReadsBack(u: nat, rest: seq<char>)
    ensures Unescape(UCharEscape(u) + rest) == Cons(u % 65536, Unescape(rest))
  {
    var t := UCharEscape(u) + rest;
    UCharEscapeValue(u);
    assert t[2..6] == UCharEscape(u)[2..6] && t[6..] == rest;
    assert ShortEscape(t[1]).None?;
  }

  /** The same for a character that stands for itself. */
  lemma PlainReadsBack(c: char, rest: seq<char>)
    requires Unescaped(c)
    ensures Unescape([c] + rest) == Cons(c as int, Unescape(rest))
  {
    assert ([c] + rest)[1..] == rest;
  }

  /** The text of one piece followed by any text reads as the piece's code unit followed
      by what the rest reads as. */
  lemma PieceReadsBack(s: seq<Byte>, i: nat, decode: Utf8Decoder, rest: seq<char>)
    requires i < |s| && DecoderContract(decode)
    ensures Unescape(PieceText(s, i, decode) + rest) == Cons(UnitAt(s, i, decode), Unescape(rest))
  {
    if s[i] < 128 {
      AsciiPieceReadsBack(s[i], rest);
      assert PieceText(s, i, decode) == AsciiText(s[i]);
    } else {
      match decode(s[i..i + WindowLength(s, i)])
      case CodePoint(c, _) =>
        UCharEscapeReadsBack(c, rest);
      case BadChar =>
        PlainReadsBack('?', rest);
    }
  }

  /** The text SerializeString writes for an ASCII byte. */
  function AsciiText(b: Byte): seq<char>
    requires b < 128
  {
    if b == 8 then "\\b"
    else if b == 12 then "\\f"
    else if b == 10 then "\\n"
    else if b == 13 then "\\r"
    else if b == 9 then "\\t"
    else if b == 34 || b == 92 then ['\\', b as char]
    else if 31 < b then [b as char]
    else UCharEscape(b)
  }

  lemma AsciiPieceReadsBack(b: Byte, rest: seq<char>)
    requires b < 128
    ensures Unescape(AsciiText(b) + rest) == Cons(b, Unescape(rest))
  {
    if b == 8 {
      ShortEscapeReadsBack('b', rest);
    } else if b == 12 {
      ShortEscapeReadsBack('f', rest);
    } else if b == 10 {
      ShortEscapeReadsBack('n', rest);
    } else if b == 13 {
      ShortEscapeReadsBack('r', rest);
    } else if b == 9 {
      ShortEscapeReadsBack('t', rest);
    } else if b == 34 {
      ShortEscapeReadsBack('"', rest);
    } else if b == 92 {
      ShortEscapeReadsBack('\\', rest);
    } else if 31 < b {
      PlainReadsBack(b as char, rest);
    } else {
      assert b % 65536 == b;
      UCharEscapeReadsBack(b, rest);
    }
  }

  /** The code unit the piece at `i` stands for. */
  function UnitAt(s: seq<Byte>, i: nat, decode: Utf8Decoder): nat
    requires i < |s| && DecoderContract(decode)
  {
    if s[i] < 128 then s[i]
    else match decode(s[i..i + WindowLength(s, i)])
      case CodePoint(c, _) => c % 65536
      case BadChar => 63
  }

  /** The escaped text is a JSON string body, and it denotes the characters of the input:
      every ASCII byte (control characters, quote and backslash included) comes back as
      itself, a decoded character as its code point truncated to 16 bits, and a rejected
      byte as '?'. */
  lemma {:induction false} EscapeReadsBack(s: seq<Byte>, i: nat, decode: Utf8Decoder)
    requires i <= |s| && DecoderContract(decode)
    ensures Unescape(EscapeFrom(s, i, decode)) == Some(Units(s, i, decode))
    decreases |s| - i
  {
    if i < |s| {
      var next := Next(s, i, decode);
      EscapeReadsBack(s, next, decode);
      PieceReadsBack(s, i, decode, EscapeFrom(s, next, decode));
      UnitsStep(s, i, decode);
    }
  }

  /** Units advances over the input exactly as the escaping loop does. */
  lemma UnitsStep(s: seq<Byte>, i: nat, decode: Utf8Decoder)
    requires i < |s| && DecoderContract(decode)
    ensures Units(s, i, decode) == [UnitAt(s, i, decode)] + Units(s, Next(s, i, decode), decode)
  {
    if s[i] < 128 {
      assert Next(s, i, decode) == i + 1;
    } else {
      match decode(s[i..i + WindowLength(s, i)])
      case CodePoint(c, cursor) =>
        assert Next(s, i, decode) == i + cursor;
      case BadChar =>
        assert Next(s, i, decode) == i + 1;
    }
  }

  /** For ASCII input the JSON reading of the escaped text is the input itself. */
  lemma {:induction false} AsciiRoundTrip(s: seq<Byte>, i: nat, decode: Utf8Decoder)
    requires i <= |s| && DecoderContract(decode)
    requires forall k :: 0 <= k < |s| ==> s[k] < 128
    ensures Unescape(EscapeFrom(s, i, decode)) == Some(s[i..])
    decreases |s| - i
  {
    EscapeReadsBack(s, i, decode);
    AsciiUnits(s, i, decode);
  }

  lemma {:induction false} AsciiUnits(s: seq<Byte>, i: nat, decode: Utf8Decoder)
    requires i <= |s| && DecoderContract(decode)
    requires forall k :: 0 <= k < |s| ==> s[k] < 128
    ensures Units(s, i, decode) == s[i..]
    decreases |s| - i
  {
    if i < |s| {
      AsciiUnits(s, i + 1, decode);
      assert s[i..] == [s[i]] + s[i + 1..];
    }
  }

  /** Every character of the escaped text lies in U+0020..U+007F, whatever the input:
      nothing below U+0020 reaches the output unescaped (DEL, U+007F, does). */
  lemma {:induction false} EscapeIsSpaceToDel(s: seq<Byte>, i: nat, decode: Utf8Decoder)
    requires i <= |s| && DecoderContract(decode)
    ensures SpaceToDel(EscapeFrom(s, i, decode))
    decreases |s| - i
  {
    if i < |s| {
      var next := Next(s, i, decode);
      EscapeIsSpaceToDel(s, next, decode);
      PieceIsSpaceToDel(s, i, decode);
      SpaceToDelAppend(PieceText(s, i, decode), EscapeFrom(s, next, decode));
    }
  }

  ghost predicate SpaceToDel(t: seq<char>) {
    forall k :: 0 <= k < |t| ==> ' ' <= t[k] < 128 as char
  }

  lemma SpaceToDelAppend(t: seq<char>, u: seq<char>)
    requires SpaceToDel(t) && SpaceToDel(u)
    ensures SpaceToDel(t + u)
  {
    forall k | 0 <= k < |t + u| ensures ' ' <= (t + u)[k] < 128 as char {
      if k >= |t| {
        assert (t + u)[k] == u[k - |t|];
      }
    }
  }

  lemma PieceIsSpaceToDel(s: seq<Byte>, i: nat, decode: Utf8Decoder)
    requires i < |s|
    ensures SpaceToDel(PieceText(s, i, decode))
  {
  }
}
