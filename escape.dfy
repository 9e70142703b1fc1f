/** The string escaping of the quoted-string writer (lib/json/json.c:89-115),
    stated per byte. It is not JSON's: a byte outside the printable range
    becomes a backslash and two lower-case hex digits, not `\u00XX`.
    `Unescape` reads that dialect back and is the partner of `Escape`. */
module Escaping {
  import opened Bytes

  datatype Option<T> = None | Some(value: T)

  const HEX_DIGITS: seq<Byte> := "0123456789abcdef"

  /** `(ch >= ' ') && (ch <= '~')` */
  predicate Printable(b: Byte)
  {
    ' ' <= b <= '~'
  }

  function HexDigit(n: int): Byte
    requires 0 <= n < 16
  {
    HEX_DIGITS[n]
  }

  predicate IsHexDigit(b: Byte)
  {
    '0' <= b <= '9' || 'a' <= b <= 'f'
  }

  function HexValue(b: Byte): (n: int)
    requires IsHexDigit(b)
    ensures 0 <= n < 16
  {
    if b <= '9' then b as int - '0' as int else b as int - 'a' as int + 10
  }

  /** The text the writer emits for one byte of a complete escape. */
  function EscapeByte(b: Byte): (e: seq<Byte>)
    ensures 1 <= |e| <= 3
    ensures forall i :: 0 <= i < |e| ==> Printable(e[i])
    ensures |e| == 1 <==> Printable(b) && b != QUOTE && b != BACKSLASH
    ensures |e| > 1 ==> e[0] == BACKSLASH
  {
    if b == QUOTE || b == BACKSLASH then [BACKSLASH, b]
    else if b == NEWLINE then [BACKSLASH, 'n']
    else if Printable(b) then [b]
    else [BACKSLASH, HexDigit(b as int / 16), HexDigit(b as int % 16)]
  }

  /** The escaped text of a whole string. Every byte of it is printable, so
      in particular no raw newline is ever emitted. */
  function Escape(s: seq<Byte>): (t: seq<Byte>)
    ensures forall i :: 0 <= i < |t| ==> Printable(t[i])
    ensures |s| <= |t| <= 3 * |s|
  {
    if s == [] then [] else EscapeByte(s[0]) + Escape(s[1..])
  }

  function Prepend(b: Byte, rest: Option<seq<Byte>>): Option<seq<Byte>>
  {
    match rest
    case None => None
    case Some(r) => Some([b] + r)
  }

  /** Decoder of the dialect: a bare quote, a dangling backslash or a
      non-printable byte is rejected. */
  function Unescape(t: seq<Byte>): Option<seq<Byte>>
    decreases |t|
  {
    if t == [] then Some([])
    else if t[0] == BACKSLASH then
      if |t| >= 2 && (t[1] == QUOTE || t[1] == BACKSLASH) then Prepend(t[1], Unescape(t[2..]))
      else if |t| >= 2 && t[1] == 'n' then Prepend(NEWLINE, Unescape(t[2..]))
      else if |t| >= 3 && IsHexDigit(t[1]) && IsHexDigit(t[2]) then
        Prepend((HexValue(t[1]) * 16 + HexValue(t[2])) as char, Unescape(t[3..]))
      else None
    else if t[0] == QUOTE || !Printable(t[0]) then None
    else Prepend(t[0], Unescape(t[1..]))
  }

  lemma HexDigitValue(n: int)
    requires 0 <= n < 16
    ensures IsHexDigit(HexDigit(n)) && HexValue(HexDigit(n)) == n
  {
  }

  lemma UnescapeByte(b: Byte, rest: seq<Byte>)
    ensures Unescape(EscapeByte(b) + rest) == Prepend(b, Unescape(rest))
  {
    var t := EscapeByte(b) + rest;
    if b == QUOTE || b == BACKSLASH || b == NEWLINE {
      assert t[2..] == rest;
    } else if Printable(b) {
      assert t[1..] == rest;
    } else {
      var hi, lo := b as int / 16, b as int % 16;
      HexDigitValue(hi);
      HexDigitValue(lo);
      assert t[1] == HexDigit(hi) && t[2] == HexDigit(lo);
      assert t[3..] == rest;
      assert (hi * 16 + lo) as char == b;
    }
  }

  /** Round trip: the decoder recovers every string from its escape. */
  lemma {:induction false} EscapeRoundTrip(s: seq<Byte>)
    ensures Unescape(Escape(s)) == Some(s)
  {
    if s != [] {
      UnescapeByte(s[0], Escape(s[1..]));
      EscapeRoundTrip(s[1..]);
      assert [s[0]] + s[1..] == s;
    }
  }
}
