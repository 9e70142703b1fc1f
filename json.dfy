/** The JsonBuffer of lib/json/json.h:26-31 as an object over a byte array,
    with one method per function of lib/json/json.c. Each method runs the C
    steps in place and is proved to leave the object in exactly the state
    the function of the same name in module Writer computes, so everything
    WriterLemmas proves about those functions holds of the object. */
module Json {
  import opened Bytes
  import opened Decimal
  import opened Escaping
  import opened Writer

  class JsonBuffer {
    /** `buffer` is the caller's array; `end` is the index of its last
        byte, reserved for the NUL; `ptr` is the write offset. */
    const buffer: array<Byte>
    const end: int
    var ptr: int
    var needKeySep: bool

    ghost predicate Valid()
      reads this
    {
      1 <= buffer.Length <= INT_MAX && end == buffer.Length - 1 &&
      0 <= ptr < 0x1_0000_0000
    }

    /** The state as a Writer cursor. */
    ghost function Model(): (c: Cursor)
      reads this, buffer
      requires Valid()
      ensures c.Valid() && c.End() == end
    {
      Cursor(buffer[..], ptr, needKeySep)
    }

    /** json_full (lib/json/json.h:70) */
    function Full(): (full: bool)
      reads this, buffer
      requires Valid()
      ensures full <==> Model().Full()
    {
      ptr >= end
    }

    /** json_init_buffer (lib/json/json.c:25-35), with `len` the length of
        `buf`. */
    constructor (buf: array<Byte>)
      requires 1 <= buf.Length <= INT_MAX
      ensures Valid() && buffer == buf
      ensures Model() == InitBuffer(buf[..])
    {
      buffer := buf;
      end := buf.Length - 1;
      ptr := 0;
      needKeySep := false;
    }

    /** json_char_append (lib/json/json.c:37-41) */
    method CharAppend(ch: Byte)
      requires Valid()
      modifies this, buffer
      ensures Valid() && Model() == Writer.CharAppend(old(Model()), ch)
    {
      if ptr < end {
        buffer[ptr] := ch;
        ptr := ptr + 1;
      }
    }

    /** json_char_append_keysep (lib/json/json.c:43-48) */
    method CharAppendKeySep(ch: Byte, keysep: bool)
      requires Valid()
      modifies this, buffer
      ensures Valid() && Model() == Writer.CharAppendKeySep(old(Model()), ch, keysep)
    {
      if ptr < end {
        buffer[ptr] := ch;
        ptr := ptr + 1;
      }
      needKeySep := keysep;
    }

    /** json_start_array, json_end_array, json_start_object,
        json_end_object and json_separator (lib/json/json.h:64-68) */
    method StartArray()
      requires Valid()
      modifies this, buffer
      ensures Valid() && Model() == Writer.StartArray(old(Model()))
    {
      CharAppend('[');
    }

    method EndArray()
      requires Valid()
      modifies this, buffer
      ensures Valid() && Model() == Writer.EndArray(old(Model()))
    {
      CharAppendKeySep(']', true);
    }

    method StartObject()
      requires Valid()
      modifies this, buffer
      ensures Valid() && Model() == Writer.StartObject(old(Model()))
    {
      CharAppendKeySep('{', false);
    }

    method EndObject()
      requires Valid()
      modifies this, buffer
      ensures Valid() && Model() == Writer.EndObject(old(Model()))
    {
      CharAppendKeySep('}', true);
    }

    method Separator()
      requires Valid()
      modifies this, buffer
      ensures Valid() && Model() == Writer.Separator(old(Model()))
    {
      CharAppendKeySep(',', false);
    }

    /** json_terminate (lib/json/json.c:50-63) */
    method Terminate() returns (len: UInt32)
      requires Valid()
      modifies this, buffer
      ensures Valid() && (Model(), len as int) == Writer.Terminate(old(Model()))
    {
      len := ptr;
      if ptr >= end {
        buffer[end] := NUL;
        len := end;
      } else {
        CharAppend(NUL);
      }
    }

    /** json_offset (lib/json/json.c:65-68) */
    method Offset() returns (offset: UInt32)
      requires Valid()
      ensures offset == Model().ptr
    {
      offset := ptr;
    }

    /** json_reset (lib/json/json.c:70-73) */
    method Reset(offset: UInt32)
      requires Valid()
      modifies this
      ensures Valid() && Model() == Writer.Reset(old(Model()), offset)
    {
      ptr := offset;
    }

    /** json_chars_append (lib/json/json.c:75-81); `strlen` is CStrLen. */
    method CharsAppend(str: seq<Byte>, len: int)
      requires Valid() && len <= |str|
      modifies this, buffer
      ensures Valid() && Model() == Writer.CharsAppend(old(Model()), str, len)
    {
      var n := if len < 0 then CStrLen(str) else len;
      ghost var goal := Writer.CharsAppend(Model(), str, len);
      var i := 0;
      while i < n && ptr < end
        invariant Valid() && 0 <= i <= n <= |str|
        invariant PutAll(Model(), str[i..n]) == goal
        decreases n - i
      {
        ghost var c := Model();
        assert str[i..n] == [str[i]] + str[i + 1..n];
        buffer[ptr] := str[i];
        ptr := ptr + 1;
        i := i + 1;
        assert Model() == Writer.CharAppend(c, str[i - 1]);
      }
    }

    /** One pass of the escape loop body (lib/json/json.c:88-115), entered
        with `ptr < end`. */
    method AppendEscaped(ch: Byte)
      requires Valid() && ptr < end
      modifies this, buffer
      ensures Valid() && Model() == EscapeStep(old(Model()), ch)
    {
      var out := ReserveSlot(ch);
      PutEscaped(out);
    }

    /** Lines 91-99: the backslash slot of a two-byte escape is stepped
        over first and filled only if that left `ptr < end`. */
    method ReserveSlot(ch: Byte) returns (out: Byte)
      requires Valid() && ptr < end
      modifies this, buffer
      ensures Valid() && (Model(), out) == Writer.ReserveSlot(old(Model()), ch)
    {
      out := ch;
      if ch == QUOTE || ch == BACKSLASH {
        ptr := ptr + 1;
        if ptr < end {
          buffer[ptr - 1] := BACKSLASH;
        }
      } else if ch == NEWLINE {
        ptr := ptr + 1;
        if ptr < end {
          buffer[ptr - 1] := BACKSLASH;
          out := 'n';
        }
      }
    }

    /** Lines 101-114: a printable byte goes at `ptr`; any other steps three
        bytes and fills them only if `ptr < end` afterwards. */
    method PutEscaped(out: Byte)
      requires Valid() && ptr <= end
      modifies this, buffer
      ensures Valid() && Model() == Writer.PutEscaped(old(Model()), out)
    {
      if Printable(out) {
        buffer[ptr] := out;
        ptr := ptr + 1;
      } else {
        ptr := ptr + 3;
        if ptr < end {
          buffer[ptr - 3] := BACKSLASH;
          buffer[ptr - 2] := HexDigit(out as int / 16);
          buffer[ptr - 1] := HexDigit(out as int % 16);
        }
      }
    }

    /** json_quoted_string_len_append (lib/json/json.c:83-118): `str` is
        read up to its NUL, `len` bytes at most. */
    method QuotedStringLenAppend(str: seq<Byte>, len: int)
      requires Valid()
      modifies this, buffer
      ensures Valid() && Model() == Writer.QuotedStringLenAppend(old(Model()), str, len)
    {
      CharAppend(QUOTE);
      EscapeLoop(str, len);
      CharAppend(QUOTE);
    }

    /** The loop between the quotes (lib/json/json.c:86-116). */
    method EscapeLoop(str: seq<Byte>, len: int)
      requires Valid()
      modifies this, buffer
      ensures Valid() && Model() == QuoteLoop(old(Model()), str, len)
    {
      ghost var goal := QuoteLoop(Model(), str, len);
      ghost var cur := Model();
      var n := len;
      var i := 0;
      while n > 0 && ptr < end
        invariant Valid() && 0 <= i <= |str| && cur == Model()
        invariant QuoteLoop(cur, str[i..], n) == goal
        decreases |str| - i
      {
        QuoteLoopAt(cur, str, i, n);
        var ch := ByteAt(str, i);
        n := n - 1;
        i := i + 1;
        if ch == NUL {
          break;
        }
        AppendEscaped(ch);
        cur := EscapeStep(cur, ch);
      }
      if i <= |str| {
        QuoteLoopAt(cur, str, i, n);
      }
    }

    /** json_key_append (lib/json/json.c:120-127) */
    method KeyAppend(name: seq<Byte>)
      requires Valid()
      modifies this, buffer
      ensures Valid() && Model() == Writer.KeyAppend(old(Model()), name)
    {
      if needKeySep {
        CharAppend(',');
      }
      needKeySep := true;
      QuotedStringLenAppend(name, INT_MAX);
      CharAppend(':');
    }

    /** json_uint32_append (lib/json/json.c:129-134): the `%u` text is
        Decimal.Digits. */
    method UInt32Append(val: UInt32)
      requires Valid()
      modifies this, buffer
      ensures Valid() && Model() == Writer.UInt32Append(old(Model()), val)
    {
      var digits := Digits(val);
      CharsAppend(digits, |digits|);
    }

    /** json_named_uint32_append (lib/json/json.c:136-140) */
    method NamedUInt32Append(name: seq<Byte>, val: UInt32)
      requires Valid()
      modifies this, buffer
      ensures Valid() && Model() == Writer.NamedUInt32Append(old(Model()), name, val)
    {
      KeyAppend(name);
      UInt32Append(val);
    }

    /** json_named_int32_append (lib/json/json.c:142-152) */
    method NamedInt32Append(name: seq<Byte>, val: Int32)
      requires Valid()
      modifies this, buffer
      ensures Valid() && Model() == Writer.NamedInt32Append(old(Model()), name, val)
    {
      KeyAppend(name);
      if val < 0 {
        CharAppend('-');
        UInt32Append(-(val as int));
      } else {
        UInt32Append(val);
      }
    }

    /** json_named_string_append (lib/json/json.c:154-158) */
    method NamedStringAppend(name: seq<Byte>, str: seq<Byte>, len: int)
      requires Valid()
      modifies this, buffer
      ensures Valid() && Model() == Writer.NamedStringAppend(old(Model()), name, str, len)
    {
      KeyAppend(name);
      QuotedStringLenAppend(str, len);
    }

    /** json_named_cstring_append (lib/json/json.c:160-164) */
    method NamedCStringAppend(name: seq<Byte>, str: seq<Byte>)
      requires Valid()
      modifies this, buffer
      ensures Valid() && Model() == Writer.NamedCStringAppend(old(Model()), name, str)
    {
      KeyAppend(name);
      QuotedStringLenAppend(str, INT_MAX);
    }

    /** json_named_chars_append (lib/json/json.c:166-170) */
    method NamedCharsAppend(name: seq<Byte>, str: seq<Byte>, len: int)
      requires Valid() && len <= |str|
      modifies this, buffer
      ensures Valid() && Model() == Writer.NamedCharsAppend(old(Model()), name, str, len)
    {
      KeyAppend(name);
      CharsAppend(str, len);
    }

    /** json_named_bool_append (lib/json/json.c:172-179) */
    method NamedBoolAppend(name: seq<Byte>, val: bool)
      requires Valid()
      modifies this, buffer
      ensures Valid() && Model() == Writer.NamedBoolAppend(old(Model()), name, val)
    {
      KeyAppend(name);
      if val {
        CharsAppend(TRUE_TEXT, 4);
      } else {
        CharsAppend(FALSE_TEXT, 5);
      }
    }

    /** json_named_fixedpoint_append (lib/json/json.c:181-209) */
    method NamedFixedPointAppend(name: seq<Byte>, number: Int32, places: UInt32)
      requires Valid() && 1 <= places <= 15
      modifies this, buffer
      ensures Valid() && Model() == Writer.NamedFixedPointAppend(old(Model()), name, number, places)
    {
      var text := FormatFixedPoint(number, places);
      KeyAppend(name);
      CharsAppend(text, |text|);
    }
  }

  /** The text json_named_fixedpoint_append builds backwards in its local
      40-byte buffer before the key is written (lib/json/json.c:184-204):
      the magnitude as `uint32_t`, `places` digits, a point, the remaining
      digits (at least one) and a sign. */
  method FormatFixedPoint(number: Int32, places: UInt32) returns (text: seq<Byte>)
    requires 1 <= places <= 15
    ensures text == FixedPointText(number, places)
  {
    var buf := new Byte[40](_ => '0');
    var val: int := number % 0x1_0000_0000;
    if number < 0 {
      val := (0x1_0000_0000 - val) % 0x1_0000_0000;
    }
    assert val == Abs(number);
    var cp;
    cp, val := FillFraction(buf, val, places);
    ghost var tail := buf[cp..];
    cp := FillIntegerPart(buf, cp, val);
    ghost var body := buf[cp..];
    if number < 0 {
      cp := cp - 1;
      buf[cp] := '-';
      assert buf[cp..] == ['-'] + body;
    }
    text := buf[cp..];
    FixedPointTextParts(number, places);
  }

  /** The first loop and the point (lib/json/json.c:190-196): `places`
      digits of `mag`, lowest last, filled backwards from the end of `buf`;
      what is left of the magnitude is returned. */
  method FillFraction(buf: array<Byte>, mag: nat, places: nat) returns (cp: int, val: nat)
    requires buf.Length == 40 && 1 <= places <= 15
    modifies buf
    ensures cp == 40 - places - 1
    ensures buf[cp..] == Point() + Pad(mag, places) && val == Shift(mag, places)
  {
    cp := 40;
    val := mag;
    var p: int := places;
    var more := true;
    while more
      invariant 0 <= p <= places && (more <==> p > 0)
      invariant cp == 40 - (places - p)
      invariant Pad(mag, places) == Pad(val, p) + buf[cp..]
      invariant Shift(mag, places) == Shift(val, p)
      decreases p
    {
      ghost var rest := buf[cp..];
      cp := cp - 1;
      buf[cp] := Digit(val % 10);
      assert buf[cp..] == [Digit(val % 10)] + rest;
      val := val / 10;
      p := p - 1;
      more := p > 0;
    }
    ghost var fraction := buf[cp..];
    cp := cp - 1;
    buf[cp] := '.';
    assert buf[cp..] == Point() + fraction;
  }

  /** The second loop (lib/json/json.c:197-202): the `%u` digits of `val`,
      at least one, put in front of what `buf` holds from `cp0` on. */
  method FillIntegerPart(buf: array<Byte>, cp0: int, val0: nat) returns (cp: int)
    requires buf.Length == 40 && 11 <= cp0 <= 40 && val0 < 0x1_0000_0000
    modifies buf
    ensures 1 <= cp <= cp0 && buf[cp..] == Digits(val0) + old(buf[cp0..])
  {
    ghost var tail := buf[cp0..];
    UInt32DigitsLength(val0);
    cp := cp0;
    var val := val0;
    var more := true;
    while more
      invariant (!more ==> val == 0) && cp <= cp0
      invariant (if more then Digits(val) else []) + buf[cp..] == Digits(val0) + tail
      invariant 1 <= cp - (if more then |Digits(val)| else 0)
      decreases if more then val + 1 else 0
    {
      ghost var rest := buf[cp..];
      cp := cp - 1;
      buf[cp] := Digit(val % 10);
      assert buf[cp..] == [Digit(val % 10)] + rest;
      val := val / 10;
      more := val != 0;
    }
  }
}
