/** The JSON writer of lib/json/json.c as functions on a cursor value.

    Each function here is the reference for one C function (or macro of
    lib/json/json.h): it gives the whole new cursor for every input,
    including a full buffer and a write that only partly fits. The class
    in module Json runs the same steps in place on an array and is proved
    to produce exactly these values. */
module Writer {
  import opened Bytes
  import opened Decimal
  import opened Escaping

  /** The JsonBuffer record (lib/json/json.h:26-31). `buffer` is offset 0 of
      `storage`; `ptr` is an offset that can run past `End()` by up to three
      inside the escape loop; `end` is the last byte, kept for the NUL. */
  datatype Cursor = Cursor(storage: seq<Byte>, ptr: int, needKeySep: bool)
  {
    predicate Valid()
    {
      1 <= |storage| && 0 <= ptr
    }

    function End(): int
    {
      |storage| - 1
    }

    /** json_full (lib/json/json.h:70) */
    predicate Full()
    {
      ptr >= End()
    }

    /** The cursor after `bytes` are written at `ptr` and stepped over. */
    function Emit(bytes: seq<Byte>): Cursor
      requires 0 <= ptr && ptr + |bytes| <= |storage|
    {
      Cursor(storage[..ptr] + bytes + storage[ptr + |bytes|..], ptr + |bytes|, needKeySep)
    }
  }

  /** What every append operation guarantees: the storage keeps its size,
      the cursor never moves back, it moves at most three past `end` when it
      moves at all, the bytes before the old cursor are untouched, and a
      full buffer stays exactly as it was (only the flag may change). */
  ghost predicate Advances(c: Cursor, r: Cursor)
  {
    |r.storage| == |c.storage| &&
    c.ptr <= r.ptr &&
    (r.ptr == c.ptr || r.ptr <= c.End() + 3) &&
    (forall i :: 0 <= i < c.ptr && i < |c.storage| ==> r.storage[i] == c.storage[i]) &&
    (c.Full() ==> r.storage == c.storage && r.ptr == c.ptr)
  }

  // ---------------------------------------------------------------------
  // Initialisation and single bytes

  /** json_init_buffer (lib/json/json.c:25-35) */
  function InitBuffer(storage: seq<Byte>): (c: Cursor)
    requires 1 <= |storage|
    ensures c.Valid() && c.storage == storage
    ensures c.ptr == 0 && c.End() == |storage| - 1 && !c.needKeySep
    ensures c.Full() <==> |storage| == 1
  {
    Cursor(storage, 0, false)
  }

  /** json_char_append (lib/json/json.c:37-41) */
  function CharAppend(c: Cursor, ch: Byte): (r: Cursor)
    requires c.Valid()
    ensures r.Valid() && Advances(c, r) && r.needKeySep == c.needKeySep
    ensures !c.Full() ==> r.storage == c.storage[c.ptr := ch] && r.ptr == c.ptr + 1
    ensures c.Full() ==> r == c
  {
    if c.ptr < c.End() then c.(storage := c.storage[c.ptr := ch], ptr := c.ptr + 1) else c
  }

  /** json_char_append_keysep (lib/json/json.c:43-48): the flag is set even
      when the byte is dropped. */
  function CharAppendKeySep(c: Cursor, ch: Byte, keysep: bool): (r: Cursor)
    requires c.Valid()
    ensures r.Valid() && Advances(c, r) && r.needKeySep == keysep
    ensures !c.Full() ==> r.storage == c.storage[c.ptr := ch] && r.ptr == c.ptr + 1
    ensures c.Full() ==> r == c.(needKeySep := keysep)
  {
    CharAppend(c, ch).(needKeySep := keysep)
  }

  // ---------------------------------------------------------------------
  // Structural tokens (lib/json/json.h:64-68)

  function StartArray(c: Cursor): (r: Cursor)
    requires c.Valid()
    ensures r.Valid() && Advances(c, r) && r.needKeySep == c.needKeySep
    ensures !c.Full() ==> r.storage == c.storage[c.ptr := '['] && r.ptr == c.ptr + 1
  {
    CharAppend(c, '[')
  }

  function EndArray(c: Cursor): (r: Cursor)
    requires c.Valid()
    ensures r.Valid() && Advances(c, r) && r.needKeySep
    ensures !c.Full() ==> r.storage == c.storage[c.ptr := ']'] && r.ptr == c.ptr + 1
  {
    CharAppendKeySep(c, ']', true)
  }

  function StartObject(c: Cursor): (r: Cursor)
    requires c.Valid()
    ensures r.Valid() && Advances(c, r) && !r.needKeySep
    ensures !c.Full() ==> r.storage == c.storage[c.ptr := '{'] && r.ptr == c.ptr + 1
  {
    CharAppendKeySep(c, '{', false)
  }

  function EndObject(c: Cursor): (r: Cursor)
    requires c.Valid()
    ensures r.Valid() && Advances(c, r) && r.needKeySep
    ensures !c.Full() ==> r.storage == c.storage[c.ptr := '}'] && r.ptr == c.ptr + 1
  {
    CharAppendKeySep(c, '}', true)
  }

  function Separator(c: Cursor): (r: Cursor)
    requires c.Valid()
    ensures r.Valid() && Advances(c, r) && !r.needKeySep
    ensures !c.Full() ==> r.storage == c.storage[c.ptr := ','] && r.ptr == c.ptr + 1
  {
    CharAppendKeySep(c, ',', false)
  }

  // ---------------------------------------------------------------------
  // Termination and bookmarks

  /** json_terminate (lib/json/json.c:50-63): the length returned and the
      cursor afterwards. */
  function Terminate(c: Cursor): (result: (Cursor, int))
    requires c.Valid()
    ensures result.0.Valid() && |result.0.storage| == |c.storage|
    ensures 0 <= result.1 <= c.End() && result.1 == Min(c.ptr, c.End())
    ensures result.0.storage[result.1] == NUL
    ensures result.0.storage[..result.1] == c.storage[..result.1]
    ensures result.0.storage == c.storage[result.1 := NUL]
    ensures c.Full() ==> result.0.ptr == c.ptr
    ensures !c.Full() ==> result.0.ptr == c.ptr + 1
    ensures result.0.needKeySep == c.needKeySep
  {
    if c.Full() then (c.(storage := c.storage[c.End() := NUL]), c.End())
    else (CharAppend(c, NUL), c.ptr)
  }

  /** json_reset (lib/json/json.c:70-73); json_offset (65-68) reads `ptr` back. */
  function Reset(c: Cursor, offset: nat): (r: Cursor)
    ensures r.ptr == offset && r.storage == c.storage && r.needKeySep == c.needKeySep
  {
    c.(ptr := offset)
  }

  // ---------------------------------------------------------------------
  // Byte strings copied verbatim

  /** One json_char_append per byte. */
  function PutAll(c: Cursor, bytes: seq<Byte>): (r: Cursor)
    requires c.Valid()
    ensures r.Valid() && |r.storage| == |c.storage| && r.needKeySep == c.needKeySep
    ensures c.ptr <= r.ptr && (c.Full() ==> r == c)
    decreases |bytes|
  {
    if bytes == [] then c else PutAll(CharAppend(c, bytes[0]), bytes[1..])
  }

  lemma {:induction false} PutAllAdvances(c: Cursor, bytes: seq<Byte>)
    requires c.Valid()
    ensures Advances(c, PutAll(c, bytes))
    decreases |bytes|
  {
    if bytes != [] {
      PutAllAdvances(CharAppend(c, bytes[0]), bytes[1..]);
    }
  }

  /** The number of bytes json_chars_append takes from `str`: `len`, or
      `strlen(str)` when `len` is negative (lib/json/json.c:77-78). */
  function CharsCount(str: seq<Byte>, len: int): (n: nat)
    requires len <= |str|
    ensures n <= |str|
  {
    if len < 0 then CStrLen(str) else len
  }

  /** json_chars_append (lib/json/json.c:75-81) */
  function CharsAppend(c: Cursor, str: seq<Byte>, len: int): (r: Cursor)
    requires c.Valid() && len <= |str|
    ensures r.Valid() && Advances(c, r) && r.needKeySep == c.needKeySep
  {
    PutAllAdvances(c, str[..CharsCount(str, len)]);
    PutAll(c, str[..CharsCount(str, len)])
  }

  // ---------------------------------------------------------------------
  // Quoted strings

  /** The first half of the escape loop body (lib/json/json.c:91-99),
      entered with `ptr < end`: a quote, backslash or newline steps over
      its backslash slot and fills it only when that left `ptr < end`. The
      byte still to be printed comes back with the cursor: `n` for a
      newline whose backslash was written, the byte itself otherwise. */
  function ReserveSlot(c: Cursor, ch: Byte): (r: (Cursor, Byte))
    requires c.Valid() && !c.Full()
    ensures r.0.Valid() && |r.0.storage| == |c.storage| && r.0.needKeySep == c.needKeySep
    ensures c.ptr <= r.0.ptr <= c.ptr + 1 && r.0.ptr <= c.End()
    ensures r.0.storage == c.storage || (r.0.storage == c.storage[c.ptr := BACKSLASH] && r.0.ptr == c.ptr + 1)
    ensures r.1 != ch ==> ch == NEWLINE && r.1 == 'n' && r.0.ptr < c.End()
  {
    var twoByte := ch == QUOTE || ch == BACKSLASH || ch == NEWLINE;
    var p := if twoByte then c.ptr + 1 else c.ptr;
    if twoByte && p < c.End() then
      (Cursor(c.storage[c.ptr := BACKSLASH], p, c.needKeySep), if ch == NEWLINE then 'n' else ch)
    else
      (c.(ptr := p), ch)
  }

  /** The second half (lib/json/json.c:101-114), entered with `ptr <= end`:
      a printable byte is written at `ptr`, which may be `end` itself; any
      other byte steps three and writes its hex escape only when `ptr < end`
      afterwards, so on overflow the three bytes keep their old contents. */
  function PutEscaped(c: Cursor, out: Byte): (r: Cursor)
    requires c.Valid() && c.ptr <= c.End()
    ensures r.Valid() && |r.storage| == |c.storage| && r.needKeySep == c.needKeySep
    ensures r.ptr == c.ptr + (if Printable(out) then 1 else 3)
  {
    if Printable(out) then
      c.(storage := c.storage[c.ptr := out], ptr := c.ptr + 1)
    else if c.ptr + 3 < c.End() then
      c.(storage := c.storage[c.ptr := BACKSLASH][c.ptr + 1 := HexDigit(out as int / 16)]
                             [c.ptr + 2 := HexDigit(out as int % 16)],
         ptr := c.ptr + 3)
    else
      c.(ptr := c.ptr + 3)
  }

  /** One pass of the escape loop body (lib/json/json.c:88-115). */
  function EscapeStep(c: Cursor, ch: Byte): (r: Cursor)
    requires c.Valid() && !c.Full()
    ensures r.Valid() && |r.storage| == |c.storage| && r.needKeySep == c.needKeySep
    ensures c.ptr < r.ptr <= c.End() + 3
  {
    var (c1, out) := ReserveSlot(c, ch);
    PutEscaped(c1, out)
  }

  /** The escape loop (lib/json/json.c:86-116) over the rest `str` of the
      string with `n` bytes still allowed; it stops at NUL, at the length
      and once `ptr < end` fails. */
  function QuoteLoop(c: Cursor, str: seq<Byte>, n: int): (r: Cursor)
    requires c.Valid()
    ensures r.Valid() && |r.storage| == |c.storage| && r.needKeySep == c.needKeySep
    ensures c.ptr <= r.ptr
    decreases |str|
  {
    if n <= 0 || c.Full() || ByteAt(str, 0) == NUL then c
    else QuoteLoop(EscapeStep(c, str[0]), str[1..], n - 1)
  }

  /** The loop read from index `i` of the string, as the C loop walks it
      with a pointer: it stops, or runs one pass on `str[i]`. */
  lemma QuoteLoopAt(c: Cursor, str: seq<Byte>, i: nat, n: int)
    requires c.Valid() && i <= |str|
    ensures n <= 0 || c.Full() || ByteAt(str, i) == NUL ==> QuoteLoop(c, str[i..], n) == c
    ensures !(n <= 0 || c.Full() || ByteAt(str, i) == NUL) ==>
              i < |str| && QuoteLoop(c, str[i..], n) == QuoteLoop(EscapeStep(c, str[i]), str[i + 1..], n - 1)
  {
    if i < |str| {
      assert str[i..][0] == str[i] && str[i..][1..] == str[i + 1..];
    }
  }

  /** A pass of the loop body keeps the bytes before the cursor. */
  lemma EscapeStepAdvances(c: Cursor, ch: Byte)
    requires c.Valid() && !c.Full()
    ensures Advances(c, EscapeStep(c, ch))
  {
    var (c1, out) := ReserveSlot(c, ch);
    var r := PutEscaped(c1, out);
    assert forall i :: 0 <= i < c.ptr ==> c1.storage[i] == c.storage[i];
    assert forall i :: 0 <= i < c.ptr ==> r.storage[i] == c1.storage[i];
  }

  /** So does the whole loop. */
  lemma {:induction false} QuoteLoopAdvances(c: Cursor, str: seq<Byte>, n: int)
    requires c.Valid()
    ensures Advances(c, QuoteLoop(c, str, n))
    decreases |str|
  {
    if !(n <= 0 || c.Full() || ByteAt(str, 0) == NUL) {
      var c1 := EscapeStep(c, str[0]);
      EscapeStepAdvances(c, str[0]);
      QuoteLoopAdvances(c1, str[1..], n - 1);
    }
  }

  /** The bytes of `str` the loop is asked to escape: at most `n`, up to the
      first NUL. */
  function Visible(str: seq<Byte>, n: int): (v: seq<Byte>)
    ensures |v| <= |str|
    ensures forall i :: 0 <= i < |v| ==> v[i] == str[i] && v[i] != NUL
  {
    if n <= 0 then [] else str[..Min(n, CStrLen(str))]
  }

  /** json_quoted_string_len_append (lib/json/json.c:83-118) */
  function QuotedStringLenAppend(c: Cursor, str: seq<Byte>, len: int): (r: Cursor)
    requires c.Valid()
    ensures r.Valid() && Advances(c, r) && r.needKeySep == c.needKeySep
    ensures !c.Full() ==> r.storage[c.ptr] == QUOTE
  {
    QuoteLoopAdvances(CharAppend(c, QUOTE), str, len);
    CharAppend(QuoteLoop(CharAppend(c, QUOTE), str, len), QUOTE)
  }

  // ---------------------------------------------------------------------
  // Keys and named values

  /** json_key_append (lib/json/json.c:120-127) */
  function KeyAppend(c: Cursor, name: seq<Byte>): (r: Cursor)
    requires c.Valid()
    ensures r.Valid() && Advances(c, r) && r.needKeySep
    ensures !c.Full() ==> r.storage[c.ptr] == if c.needKeySep then ',' else QUOTE
  {
    var c1 := if c.needKeySep then CharAppend(c, ',') else c;
    CharAppend(QuotedStringLenAppend(c1.(needKeySep := true), name, INT_MAX), ':')
  }

  /** json_uint32_append (lib/json/json.c:129-134), `sprintf("%u")` being
      Decimal.Digits. */
  function UInt32Append(c: Cursor, val: UInt32): (r: Cursor)
    requires c.Valid()
    ensures r.Valid() && Advances(c, r) && r.needKeySep == c.needKeySep
  {
    var digits := Digits(val);
    CharsAppend(c, digits, |digits|)
  }

  /** json_named_uint32_append (lib/json/json.c:136-140) */
  function NamedUInt32Append(c: Cursor, name: seq<Byte>, val: UInt32): (r: Cursor)
    requires c.Valid()
    ensures r.Valid() && Advances(c, r) && r.needKeySep
  {
    UInt32Append(KeyAppend(c, name), val)
  }

  /** json_named_int32_append (lib/json/json.c:142-152). The magnitude of
      INT32_MIN is 2^31, which is what the negation and the cast to
      `uint32_t` yield on two's complement. */
  function NamedInt32Append(c: Cursor, name: seq<Byte>, val: Int32): (r: Cursor)
    requires c.Valid()
    ensures r.Valid() && Advances(c, r) && r.needKeySep
  {
    var k := KeyAppend(c, name);
    if val < 0 then UInt32Append(CharAppend(k, '-'), -(val as int)) else UInt32Append(k, val)
  }

  /** json_named_string_append (lib/json/json.c:154-158) */
  function NamedStringAppend(c: Cursor, name: seq<Byte>, str: seq<Byte>, len: int): (r: Cursor)
    requires c.Valid()
    ensures r.Valid() && Advances(c, r) && r.needKeySep
  {
    QuotedStringLenAppend(KeyAppend(c, name), str, len)
  }

  /** json_named_cstring_append (lib/json/json.c:160-164) */
  function NamedCStringAppend(c: Cursor, name: seq<Byte>, str: seq<Byte>): (r: Cursor)
    requires c.Valid()
    ensures r.Valid() && Advances(c, r) && r.needKeySep
  {
    QuotedStringLenAppend(KeyAppend(c, name), str, INT_MAX)
  }

  /** json_named_chars_append (lib/json/json.c:166-170) */
  function NamedCharsAppend(c: Cursor, name: seq<Byte>, str: seq<Byte>, len: int): (r: Cursor)
    requires c.Valid() && len <= |str|
    ensures r.Valid() && Advances(c, r) && r.needKeySep
  {
    CharsAppend(KeyAppend(c, name), str, len)
  }

  const TRUE_TEXT: seq<Byte> := "true"
  const FALSE_TEXT: seq<Byte> := "false"

  /** json_named_bool_append (lib/json/json.c:172-179) */
  function NamedBoolAppend(c: Cursor, name: seq<Byte>, val: bool): (r: Cursor)
    requires c.Valid()
    ensures r.Valid() && Advances(c, r) && r.needKeySep
  {
    var k := KeyAppend(c, name);
    if val then CharsAppend(k, TRUE_TEXT, 4) else CharsAppend(k, FALSE_TEXT, 5)
  }

  /** json_named_fixedpoint_append (lib/json/json.c:181-209); `places`
      outside 1..15 is excluded, as lib/json/json.h:58-59 demands. */
  function NamedFixedPointAppend(c: Cursor, name: seq<Byte>, number: Int32, places: UInt32): (r: Cursor)
    requires c.Valid() && 1 <= places <= 15
    ensures r.Valid() && Advances(c, r) && r.needKeySep
  {
    var text := FixedPointText(number, places);
    CharsAppend(KeyAppend(c, name), text, |text|)
  }
}
